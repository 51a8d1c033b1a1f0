/** The read-only operations of the store: lookups with `find`, `findIndex`
    and `some`, and the three `filter` queries. The shared tables are passed
    in as the sequences `users` and `posts`. */
module Queries {
  import opened Records
  import opened Sequences

  /** `users.find(user => user.id === userId)`: the first user with that id,
      or nothing. */
  function GetUserById(users: seq<User>, userId: string): (r: Option<User>)
    ensures r.None? <==> forall i :: 0 <= i < |users| ==> users[i].id != userId
    ensures r.Some? ==> r.value.id == userId && r.value in users
  {
    if users == [] then None
    else if users[0].id == userId then Some(users[0])
    else GetUserById(users[1..], userId)
  }

  /** The found user is the FIRST one carrying the id. */
  lemma {:induction false} GetUserByIdIsFirst(users: seq<User>, userId: string, k: nat)
    requires k < |users| && users[k].id == userId
    requires forall j :: 0 <= j < k ==> users[j].id != userId
    ensures GetUserById(users, userId) == Some(users[k])
  {
    if k > 0 {
      GetUserByIdIsFirst(users[1..], userId, k - 1);
    }
  }

  /** With unique ids, every user of the table is found by its own id. */
  lemma GetUserByIdFindsEach(users: seq<User>, i: nat)
    requires UniqueUserIds(users) && i < |users|
    ensures GetUserById(users, users[i].id) == Some(users[i])
  {
    GetUserByIdIsFirst(users, users[i].id, i);
  }

  /** `users.some(user => user.email === email)`. */
  function IsEmailExists(users: seq<User>, email: string): (b: bool)
    ensures b <==> exists i :: 0 <= i < |users| && users[i].email == email
  {
    if users == [] then false
    else if users[0].email == email then true
    else
      var b := IsEmailExists(users[1..], email);
      assert forall i :: 1 <= i < |users| ==> users[i] == users[1..][i - 1];
      b
  }

  /** `posts.findIndex(post => post.postId === postId)`: the first index of a
      post with that id, or -1. `posts.find` in `updatePost` yields the post
      at this same index. */
  function IndexOfPost(posts: seq<Post>, postId: string): (i: int)
    ensures -1 <= i < |posts|
    ensures i == -1 <==> forall j :: 0 <= j < |posts| ==> posts[j].postId != postId
    ensures 0 <= i ==> posts[i].postId == postId
    ensures 0 <= i ==> forall j :: 0 <= j < i ==> posts[j].postId != postId
  {
    if posts == [] then -1
    else if posts[0].postId == postId then 0
    else
      var k := IndexOfPost(posts[1..], postId);
      if k == -1 then -1 else k + 1
  }

  /** With unique post ids, a post is found exactly at its own index. */
  lemma IndexOfPostUnique(posts: seq<Post>, i: nat)
    requires UniquePostIds(posts) && i < |posts|
    ensures IndexOfPost(posts, posts[i].postId) == i
  {
  }

  /** The three conditions the `filter` queries keep a post by. */
  datatype Selector = OwnedBy(userId: string) | ContentIncludes(text: string) | PublicOnly

  predicate Selects(sel: Selector, p: Post)
  {
    match sel
    case OwnedBy(userId) => p.userId == userId
    case ContentIncludes(text) => Includes(p.content, text)
    case PublicOnly => p.isPublic
  }

  /** `posts.filter(...)` with the callback `sel`. */
  function Filter(posts: seq<Post>, sel: Selector): (r: seq<Post>)
    ensures |r| <= |posts|
    ensures forall p :: p in r <==> p in posts && Selects(sel, p)
  {
    if posts == [] then []
    else if Selects(sel, posts[0]) then [posts[0]] + Filter(posts[1..], sel)
    else Filter(posts[1..], sel)
  }

  /** The number of positions of `posts` whose post `sel` keeps. */
  function CountSelected(posts: seq<Post>, sel: Selector): nat
  {
    if posts == [] then 0
    else (if Selects(sel, posts[0]) then 1 else 0) + CountSelected(posts[1..], sel)
  }

  /** A filter keeps every qualifying position once and in its original order:
      its result is a sub-sequence of the input, all of whose posts qualify,
      and whose length is the number of qualifying positions. */
  lemma {:induction false} FilterKeepsOrder(posts: seq<Post>, sel: Selector)
    ensures IsSubsequence(Filter(posts, sel), posts)
    ensures forall i :: 0 <= i < |Filter(posts, sel)| ==> Selects(sel, Filter(posts, sel)[i])
    ensures |Filter(posts, sel)| == CountSelected(posts, sel)
  {
    if posts != [] {
      FilterKeepsOrder(posts[1..], sel);
      var r := Filter(posts, sel);
      if Selects(sel, posts[0]) {
        assert r[1..] == Filter(posts[1..], sel);
      } else if r != [] {
        assert IsSubsequence(r, posts[1..]);
      }
    }
  }

  /** A sub-sequence all of whose elements qualify is no longer than the
      number of qualifying positions. */
  lemma {:induction false} SelectedSubsequenceBound(r: seq<Post>, posts: seq<Post>, sel: Selector)
    requires IsSubsequence(r, posts)
    requires forall i :: 0 <= i < |r| ==> Selects(sel, r[i])
    ensures |r| <= CountSelected(posts, sel)
    decreases |posts|
  {
    if r != [] {
      if r[0] == posts[0] && IsSubsequence(r[1..], posts[1..]) {
        SelectedSubsequenceBound(r[1..], posts[1..], sel);
      } else {
        SelectedSubsequenceBound(r, posts[1..], sel);
      }
    }
  }

  /** The three properties of FilterKeepsOrder determine the filter's result:
      any sequence that has them IS the filter's result. */
  lemma {:induction false} FilterCharacterized(r: seq<Post>, posts: seq<Post>, sel: Selector)
    requires IsSubsequence(r, posts)
    requires forall i :: 0 <= i < |r| ==> Selects(sel, r[i])
    requires |r| == CountSelected(posts, sel)
    ensures r == Filter(posts, sel)
    decreases |posts|
  {
    if posts == [] {
    } else if r == [] {
      FilterKeepsOrder(posts, sel);
    } else if IsSubsequence(r, posts[1..]) {
      SelectedSubsequenceBound(r, posts[1..], sel);
      FilterCharacterized(r, posts[1..], sel);
    } else {
      SelectedTail(r, sel);
      FilterCharacterized(r[1..], posts[1..], sel);
      SplitHead(r, []);
    }
  }

  /** The tail of a sequence of qualifying posts qualifies too. */
  lemma SelectedTail(r: seq<Post>, sel: Selector)
    requires r != []
    requires forall i :: 0 <= i < |r| ==> Selects(sel, r[i])
    ensures forall i :: 0 <= i < |r[1..]| ==> Selects(sel, r[1..][i])
  {
    forall i | 0 <= i < |r[1..]| ensures Selects(sel, r[1..][i]) {
      assert r[1..][i] == r[i + 1];
    }
  }

  /** Filtering commutes with appending. */
  lemma {:induction false} FilterAppend(s: seq<Post>, t: seq<Post>, sel: Selector)
    ensures Filter(s + t, sel) == Filter(s, sel) + Filter(t, sel)
  {
    if s == [] {
      SplitHead(s, t);
      SplitHead(Filter(s, sel), Filter(t, sel));
    } else {
      FilterAppend(s[1..], t, sel);
      SplitHead(s, t);
      FilterCons(s[0], s[1..], sel);
      FilterCons(s[0], s[1..] + t, sel);
      ConcatAssociative(Kept(sel, s[0]), Filter(s[1..], sel), Filter(t, sel));
    }
  }

  /** The one-element prefix a filter keeps of `p`. */
  function Kept(sel: Selector, p: Post): seq<Post>
  {
    if Selects(sel, p) then [p] else []
  }

  lemma FilterCons(p: Post, rest: seq<Post>, sel: Selector)
    ensures Filter([p] + rest, sel) == Kept(sel, p) + Filter(rest, sel)
  {
    assert ([p] + rest)[1..] == rest;
  }

  /** `getUserPosts`: the posts of one owner, in insertion order. */
  function GetUserPosts(posts: seq<Post>, userId: string): (r: seq<Post>)
    ensures forall p :: p in r <==> p in posts && p.userId == userId
    ensures IsSubsequence(r, posts)
  {
    FilterKeepsOrder(posts, OwnedBy(userId));
    Filter(posts, OwnedBy(userId))
  }

  /** `searchPostsByContent`: the posts whose content contains `text`, in
      insertion order. */
  function SearchPostsByContent(posts: seq<Post>, text: string): (r: seq<Post>)
    ensures forall p :: p in r <==> p in posts && exists k :: OccursAt(p.content, text, k)
    ensures IsSubsequence(r, posts)
  {
    FilterKeepsOrder(posts, ContentIncludes(text));
    Filter(posts, ContentIncludes(text))
  }

  /** `getPublicPosts`: the public posts, in insertion order. */
  function GetPublicPosts(posts: seq<Post>): (r: seq<Post>)
    ensures forall p :: p in r <==> p in posts && p.isPublic
    ensures IsSubsequence(r, posts)
  {
    FilterKeepsOrder(posts, PublicOnly);
    Filter(posts, PublicOnly)
  }

  /** A post appended to the table is listed, last, under its owner and under
      no other user; every user's earlier listing is kept. */
  lemma AppendedPostListing(posts: seq<Post>, p: Post, userId: string)
    ensures GetUserPosts(posts + [p], userId)
         == GetUserPosts(posts, userId) + (if p.userId == userId then [p] else [])
  {
    FilterAppend(posts, [p], OwnedBy(userId));
  }

  /** A user appended to the table is found by its id when no earlier user
      has it, and no other lookup changes. */
  lemma {:induction false} AppendedUserLookup(users: seq<User>, u: User, userId: string)
    ensures GetUserById(users + [u], userId)
         == if GetUserById(users, userId).Some? then GetUserById(users, userId)
            else if u.id == userId then Some(u) else None
  {
    if users != [] {
      AppendedUserLookup(users[1..], u, userId);
      assert (users + [u])[1..] == users[1..] + [u];
    }
  }

  /** Replacing the content of one post moves no post id, so every later
      lookup by id finds the same index. */
  lemma SetContentKeepsIndex(posts: seq<Post>, i: nat, content: string, postId: string)
    requires i < |posts|
    ensures IndexOfPost(posts[i := posts[i].(content := content)], postId) == IndexOfPost(posts, postId)
  {
    var q := posts[i := posts[i].(content := content)];
    assert forall j :: 0 <= j < |q| ==> q[j].postId == posts[j].postId;
  }

  /** Removing the post at its index leaves no post with its id when ids are
      unique, keeps the ids unique, and keeps every other post. */
  lemma RemovedPostGone(posts: seq<Post>, i: nat)
    requires UniquePostIds(posts) && i < |posts|
    ensures UniquePostIds(RemoveAt(posts, i))
    ensures IndexOfPost(RemoveAt(posts, i), posts[i].postId) == -1
    ensures forall j :: 0 <= j < |posts| && j != i ==> posts[j] in RemoveAt(posts, i)
  {
    var r := RemoveAt(posts, i);
    forall j | 0 <= j < |posts| && j != i
      ensures posts[j] in r
    {
      if j < i { assert r[j] == posts[j]; } else { assert r[j - 1] == posts[j]; }
    }
  }

  /** Filtering around one position: the posts kept before it, what is kept
      of it, and the posts kept after it. */
  lemma FilterAround(posts: seq<Post>, i: nat, q: Post, sel: Selector)
    requires i < |posts|
    ensures Filter(posts[i := q], sel)
         == Filter(posts[..i], sel) + (Kept(sel, q) + Filter(posts[i + 1..], sel))
  {
    SplitAt(posts, i, q);
    FilterAppend(posts[..i], [q] + posts[i + 1..], sel);
    FilterCons(q, posts[i + 1..], sel);
  }

  /** `splice(i, 1)` as seen by a filter: the result is the old result
      without what the filter kept of the removed post. */
  lemma FilterRemoveAt(posts: seq<Post>, i: nat, sel: Selector)
    requires i < |posts|
    ensures Filter(posts, sel)
         == Filter(posts[..i], sel) + (Kept(sel, posts[i]) + Filter(posts[i + 1..], sel))
    ensures Filter(RemoveAt(posts, i), sel) == Filter(posts[..i], sel) + Filter(posts[i + 1..], sel)
  {
    FilterAround(posts, i, posts[i], sel);
    assert posts[i := posts[i]] == posts;
    FilterAppend(posts[..i], posts[i + 1..], sel);
  }

  /** After a delete, the deleted post's owner lists one post fewer, and
      every other user's listing is unchanged. */
  lemma DeletedPostListing(posts: seq<Post>, i: nat, userId: string)
    requires i < |posts|
    ensures posts[i].userId == userId
        ==> |GetUserPosts(RemoveAt(posts, i), userId)| + 1 == |GetUserPosts(posts, userId)|
    ensures posts[i].userId != userId
        ==> GetUserPosts(RemoveAt(posts, i), userId) == GetUserPosts(posts, userId)
  {
    FilterRemoveAt(posts, i, OwnedBy(userId));
  }

  /** After a content update, every user lists the same number of posts; a
      user other than the owner lists exactly the same posts; and the owner's
      listing holds the updated post. The same holds of the public listing. */
  lemma UpdatedPostListing(posts: seq<Post>, i: nat, content: string, userId: string)
    requires i < |posts|
    ensures var q := posts[i].(content := content);
      |GetUserPosts(posts[i := q], userId)| == |GetUserPosts(posts, userId)|
      && (posts[i].userId != userId ==> GetUserPosts(posts[i := q], userId) == GetUserPosts(posts, userId))
      && (posts[i].userId == userId ==> q in GetUserPosts(posts[i := q], userId))
    ensures var q := posts[i].(content := content);
      |GetPublicPosts(posts[i := q])| == |GetPublicPosts(posts)|
  {
    var q := posts[i].(content := content);
    FilterAround(posts, i, q, OwnedBy(userId));
    FilterRemoveAt(posts, i, OwnedBy(userId));
    FilterAround(posts, i, q, PublicOnly);
    FilterRemoveAt(posts, i, PublicOnly);
  }
}
