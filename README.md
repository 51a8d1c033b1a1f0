# In-memory users and posts store

This project models the domain operations of a small REST API. The API keeps
two process-wide tables in memory: `users` and `posts`. On them it offers eight
exported operations, plus an internal e-mail check that user creation uses:

- a lookup of a user by id;
- the internal e-mail existence check (not exported);
- user creation, which refuses a duplicate e-mail;
- the listing of one user's posts;
- post creation;
- post update and post delete, which both check that the post exists and
  that the caller owns it;
- two public queries: a search by content substring and the list of public
  posts.

The model has four modules:

- `Records` (`records.dfy`) holds the `User` and `Post` rows, the four error
  results with their messages, the `Result` and `Option` values the operations
  return, and the uniqueness invariants of the tables.
- `Sequences` (`sequences.dfy`) holds the sequence operations the store uses.
  `RemoveAt` is an array's `splice(i, 1)`. `Includes` is a string's
  `includes`. `IsSubsequence(r, s)` says that `r` is obtained from `s` by
  deleting zero or more elements and keeping the relative order of the rest.
- `Queries` (`queries.dfy`) holds the read-only operations as functions of
  the tables. It also holds the lemmas about them: what each lookup finds,
  that every filter keeps exactly the qualifying posts in their original
  order, and how a listing changes in three cases: a post is appended, a
  post's content is replaced, or a post is spliced out.
- `Handle` (`handle.dfy`) holds the class `Store`. Its two `seq` fields are
  the shared tables, and its four methods change them in place
  (`createUser`, `createPost`, `updatePost`, `deletePost`). The class
  invariant `Valid()` says that e-mails and user ids are unique among users,
  and that post ids are unique among posts. Every method keeps it. A
  verified client method `Session` walks through one session of the API: a
  duplicate e-mail is refused, a stranger's update is refused, and the
  owner deletes the post.

The queries take the tables as parameters: a client passes `store.users` or
`store.posts`. The random identifier (`uuidv4()`) and the creation time
(`new Date().toISOString()`) are parameters of the creating methods. The
identifier must not already be in its table. This stands in for the
uniqueness of a random UUID.

The source returns two different authorization errors: one for update
(handle.js:60) and one for delete (handle.js:76). The model has both
(`NotAuthorizedToUpdate`, `NotAuthorizedToDelete`). `Records.Message` gives
each error's exact text, and `Records.PostDeleted` gives the confirmation
text of a successful delete.

## Model

| member | source | states |
|---|---|---|
| `Queries.GetUserById` | handle.js:5-7 | the result is absent exactly when no user has the id; a present result has that id and is a row of the table |
| `Queries.GetUserByIdIsFirst` | handle.js:5-7 | when the first user with the id sits at position k, the lookup returns that user (the first match, as `find` does) |
| `Queries.GetUserByIdFindsEach` | handle.js:5-7 | with unique user ids, every user in the table is found by its own id |
| `Queries.IsEmailExists` | handle.js:10-12 | true exactly when some user in the table has the e-mail |
| `Handle.Store.constructor` | handle.js:2 | the store starts from any initial tables that satisfy the uniqueness invariant |
| `Handle.Store.CreateUser` | handle.js:15-30 | a used e-mail gives `Err(EmailAlreadyExists)` (message `Email already exists`, `Records.Message`) and leaves `users` unchanged; an unused one appends exactly one user carrying the given fresh id, name, e-mail, age and avatar, returns it, keeps every earlier user, and keeps e-mails and ids unique; `posts` is untouched |
| `Queries.AppendedUserLookup` | handle.js:5-7 | after a user is appended, every lookup that found a user before finds the same one; a lookup that found nothing now finds the new user when the id is its own, and otherwise still finds nothing |
| `Queries.GetUserPosts` | handle.js:33-35 | lists exactly the posts whose owner is the given user id, as a sub-sequence of the table (insertion order) |
| `Handle.Store.CreatePost` | handle.js:38-49 | always succeeds, whether or not the owner id names a user; appends exactly one post with the given owner, fresh id, content, timestamp and public flag, and keeps every earlier post; `users` is untouched |
| `Queries.AppendedPostListing` | handle.js:33-49 | after a post is appended, its owner's listing is the old listing followed by the new post; every other user's listing is unchanged |
| `Queries.IndexOfPost` | handle.js:69 | returns -1 exactly when no post has the id; otherwise returns an index whose post has the id, with no such post before it |
| `Queries.IndexOfPostUnique` | handle.js:69 | with unique post ids, a post is found at its own index |
| `Handle.Store.UpdatePost` | handle.js:52-65 | no post with the id gives `Err(PostNotFound)` (`Post not found`); a post with another owner gives `Err(NotAuthorizedToUpdate)` (`You are not authorized to update this post`); in both cases `posts` is unchanged; otherwise only the content of the first post with the id changes (its other fields, the other posts and the length stay the same), and the updated post is returned; `users` is untouched |
| `Queries.SetContentKeepsIndex` | handle.js:63 | replacing a post's content does not change which index any later lookup by post id finds |
| `Handle.Store.DeletePost` | handle.js:68-81 | the same not-found and unauthorized conditions as the update, giving `Err(PostNotFound)` and `Err(NotAuthorizedToDelete)` (`You are not authorized to delete this post`), leaving `posts` unchanged; otherwise the table becomes the old table without the element at the first matching index, and the result is `Ok(PostDeleted)` (`Post deleted successfully`); post ids stay unique; `users` is untouched |
| `Sequences.RemoveAt` | handle.js:79 | `splice(i, 1)`: the length drops by one, elements before i keep their positions, and elements after i move down by one |
| `Sequences.RemoveAtKeepsOrder` | handle.js:79 | the remaining elements keep their relative order |
| `Sequences.RemoveAtMultiset` | handle.js:79 | exactly one occurrence of the removed element is lost, and nothing else |
| `Queries.RemovedPostGone` | handle.js:68-81 | with unique post ids, after the removal no post carries the deleted id, the ids stay unique, and every other post is still present |
| `Queries.Filter` | handle.js:84-91 | a post is in the result exactly when it is in the table and the filter's condition keeps it; the result is no longer than the table |
| `Queries.FilterKeepsOrder` | handle.js:84-91 | the filter's result is a sub-sequence of the table, all its posts qualify, and its length is the number of qualifying positions |
| `Queries.FilterCharacterized` | handle.js:84-91 | these three properties determine the result: any sequence that has them equals the filter's result |
| `Queries.FilterAppend` | handle.js:33-35 | filtering a concatenation gives the concatenation of the two filters |
| `Queries.FilterAround` | handle.js:63 | filtering a table whose position i is overwritten gives what the filter keeps before i, then what it keeps of the new post, then what it keeps after i |
| `Queries.FilterRemoveAt` | handle.js:79 | filtering after `splice(i, 1)` gives the old filter result without what the filter kept of the removed post |
| `Queries.DeletedPostListing` | handle.js:68-81 | after a delete, the removed post's owner lists one post fewer, and every other user's listing is unchanged |
| `Queries.UpdatedPostListing` | handle.js:52-65 | after a content update, every user lists as many posts as before; users other than the owner list exactly the same posts; the owner's listing holds the updated post; the public listing keeps its length |
| `Sequences.Includes` | handle.js:85 | true exactly when the pattern occurs at some position of the text (case-sensitive; always true for an empty pattern) |
| `Queries.SearchPostsByContent` | handle.js:84-86 | lists exactly the posts whose content contains the text, in table order |
| `Queries.GetPublicPosts` | handle.js:89-91 | lists exactly the posts whose public flag is set, in table order |

## Left out

- `server.js`: the HTTP routing is not part of this model. That covers
  parameter extraction, the mapping of results to status codes 200, 201, 400
  and 404, JSON serialisation and the listening port.
- `data.js` is not part of this model. The initial tables are whatever the
  constructor is given, provided they satisfy the uniqueness invariant.
- `uuidv4()`: the random identifier is a caller-supplied parameter, and the
  caller must show it is fresh in its table.
- `new Date().toISOString()`: the creation time is an opaque string parameter.
  Its ISO-8601 format is not checked.
- Loose typing: every field has a definite type (`string`, `int`, `bool`).
  The model does not cover `undefined` fields from malformed request bodies,
  the truthiness of a non-boolean `isPublic`, `includes` throwing on
  non-string content, or non-integer ages.
- Object identity: rows are values. In the source, `createUser`,
  `createPost`, `updatePost`, `getUserById` (through `find`) and the three
  `filter` queries return the same objects that sit in the table. A later
  `updatePost` would show through a result obtained earlier. The model
  returns copies.
- Strings are sequences of Unicode characters, not UTF-16 code units. A search
  for a lone surrogate, which could match half of a surrogate pair in the
  source, is not modelled.
- Concurrency: every operation runs to completion before the next one starts.
