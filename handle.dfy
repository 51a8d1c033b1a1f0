/** The store's shared, mutable state: the `users` and `posts` tables and the
    four operations that change them in place. The generated identifier
    (`uuidv4()`) and the creation time (`new Date().toISOString()`) are
    supplied by the caller. */
module Handle {
  import opened Records
  import opened Sequences
  import opened Queries

  class Store {
    var users: seq<User>
    var posts: seq<Post>

    /** Emails and user ids are unique among users, post ids among posts. */
    ghost predicate Valid()
      reads this
    {
      UniqueEmails(users) && UniqueUserIds(users) && UniquePostIds(posts)
    }

    /** The tables as the process starts with them. */
    constructor (initialUsers: seq<User>, initialPosts: seq<Post>)
      requires UniqueEmails(initialUsers) && UniqueUserIds(initialUsers)
      requires UniquePostIds(initialPosts)
      ensures Valid()
      ensures users == initialUsers && posts == initialPosts
    {
      users := initialUsers;
      posts := initialPosts;
    }

    /** `createUser`: refuses an email already in use; otherwise appends the
        new user, under the fresh id `id`, and returns it. */
    method CreateUser(id: string, userName: string, email: string, age: int, avatar: string)
      returns (r: Result<User>)
      requires Valid()
      requires forall i :: 0 <= i < |users| ==> users[i].id != id
      modifies this
      ensures Valid()
      ensures posts == old(posts)
      ensures (exists i :: 0 <= i < |old(users)| && old(users)[i].email == email)
          ==> r == Err(EmailAlreadyExists) && users == old(users)
      ensures (forall i :: 0 <= i < |old(users)| ==> old(users)[i].email != email)
          ==> r == Ok(User(id, userName, email, age, avatar)) && users == old(users) + [r.value]
    {
      if IsEmailExists(users, email) {
        return Err(EmailAlreadyExists);
      }
      var user := User(id, userName, email, age, avatar);
      users := users + [user];
      r := Ok(user);
    }

    /** `createPost`: always appends the new post, under the fresh id `postId`,
        whether or not `userId` names a user. */
    method CreatePost(postId: string, createdAt: string, userId: string, content: string, isPublic: bool)
      returns (p: Post)
      requires Valid()
      requires forall i :: 0 <= i < |posts| ==> posts[i].postId != postId
      modifies this
      ensures Valid()
      ensures users == old(users)
      ensures p == Post(userId, postId, content, createdAt, isPublic)
      ensures posts == old(posts) + [p]
    {
      p := Post(userId, postId, content, createdAt, isPublic);
      posts := posts + [p];
    }

    /** `updatePost`: fails when no post has `postId` or when its owner is not
        `userId`; otherwise replaces the content of that post, and only that,
        and returns the updated post. */
    method UpdatePost(postId: string, userId: string, newContent: string) returns (r: Result<Post>)
      requires Valid()
      modifies this
      ensures Valid()
      ensures users == old(users)
      ensures (forall j :: 0 <= j < |old(posts)| ==> old(posts)[j].postId != postId)
          ==> r == Err(PostNotFound) && posts == old(posts)
      ensures var i := IndexOfPost(old(posts), postId);
        (0 <= i && old(posts)[i].userId != userId)
          ==> r == Err(NotAuthorizedToUpdate) && posts == old(posts)
      ensures var i := IndexOfPost(old(posts), postId);
        (0 <= i && old(posts)[i].userId == userId)
          ==> r == Ok(old(posts)[i].(content := newContent)) && posts == old(posts)[i := r.value]
    {
      var i := IndexOfPost(posts, postId);
      if i == -1 {
        return Err(PostNotFound);
      }
      if posts[i].userId != userId {
        return Err(NotAuthorizedToUpdate);
      }
      var updated := posts[i].(content := newContent);
      posts := posts[i := updated];
      r := Ok(updated);
    }

    /** `deletePost`: fails as `updatePost` does; otherwise removes the post at
        the first index carrying `postId`, keeping the others in order. */
    method DeletePost(postId: string, userId: string) returns (r: Result<string>)
      requires Valid()
      modifies this
      ensures Valid()
      ensures users == old(users)
      ensures (forall j :: 0 <= j < |old(posts)| ==> old(posts)[j].postId != postId)
          ==> r == Err(PostNotFound) && posts == old(posts)
      ensures var i := IndexOfPost(old(posts), postId);
        (0 <= i && old(posts)[i].userId != userId)
          ==> r == Err(NotAuthorizedToDelete) && posts == old(posts)
      ensures var i := IndexOfPost(old(posts), postId);
        (0 <= i && old(posts)[i].userId == userId)
          ==> r == Ok(PostDeleted) && posts == RemoveAt(old(posts), i)
    {
      var i := IndexOfPost(posts, postId);
      if i == -1 {
        return Err(PostNotFound);
      }
      if posts[i].userId != userId {
        return Err(NotAuthorizedToDelete);
      }
      RemovedPostGone(posts, i);
      posts := RemoveAt(posts, i);
      r := Ok(PostDeleted);
    }
  }

  /** A client session on an empty store: a duplicate email is refused, a
      post is listed under its owner, a stranger may not update it, its
      owner deletes it and the owner's listing is empty again. */
  method Session(annId: string, postId: string, createdAt: string, otherId: string)
    requires annId != otherId
  {
    var store := new Store([], []);
    var ann := store.CreateUser(annId, "Ann", "a@x.com", 30, "");
    assert ann == Ok(User(annId, "Ann", "a@x.com", 30, ""));
    assert store.users[0].email == "a@x.com";
    var dup := store.CreateUser(annId + "'", "Bob", "a@x.com", 40, "");
    assert dup == Err(EmailAlreadyExists);
    AppendedUserLookup([], ann.value, annId);
    assert GetUserById(store.users, annId) == Some(ann.value);

    var p := store.CreatePost(postId, createdAt, annId, "hello", true);
    AppendedPostListing([], p, annId);
    assert GetUserPosts(store.posts, annId) == [p];

    var upd := store.UpdatePost(postId, otherId, "spam");
    assert store.posts == [p];
    assert upd == Err(NotAuthorizedToUpdate);

    var del := store.DeletePost(postId, annId);
    assert del == Ok(PostDeleted);
    assert store.posts == [];
    assert GetUserPosts(store.posts, annId) == [];
  }
}
