/** The rows of the two in-memory tables, `users` and `posts`, the errors the
    store's operations report, and the uniqueness invariants of the tables. */
module Records {

  /** A row of `users`. `id` is the generated identifier; `email` is unique
      across the table. */
  datatype User = User(id: string, userName: string, email: string, age: int, avatar: string)

  /** A row of `posts`. `userId` names the owner (never checked against
      `users`); `createdAt` is the ISO-8601 creation time. */
  datatype Post = Post(userId: string, postId: string, content: string, createdAt: string, isPublic: bool)

  /** The error results, each returned as `{ error: Message(e) }`. */
  datatype Error = EmailAlreadyExists | PostNotFound | NotAuthorizedToUpdate | NotAuthorizedToDelete

  function Message(e: Error): string
  {
    match e
    case EmailAlreadyExists => "Email already exists"
    case PostNotFound => "Post not found"
    case NotAuthorizedToUpdate => "You are not authorized to update this post"
    case NotAuthorizedToDelete => "You are not authorized to delete this post"
  }

  /** The confirmation a successful delete returns as `{ message: ... }`. */
  const PostDeleted: string := "Post deleted successfully"

  /** A record or an error object. */
  datatype Result<T> = Ok(value: T) | Err(error: Error)

  /** A found element or `undefined`. */
  datatype Option<T> = None | Some(value: T)

  ghost predicate UniqueEmails(users: seq<User>)
  {
    forall i, j :: 0 <= i < j < |users| ==> users[i].email != users[j].email
  }

  ghost predicate UniqueUserIds(users: seq<User>)
  {
    forall i, j :: 0 <= i < j < |users| ==> users[i].id != users[j].id
  }

  ghost predicate UniquePostIds(posts: seq<Post>)
  {
    forall i, j :: 0 <= i < j < |posts| ==> posts[i].postId != posts[j].postId
  }
}
