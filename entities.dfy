/** The entities of the blog (posts, comments, users) and the error kinds of the services. */
module Entities {
  import opened Wrappers
  import opened Guids

  /** A `DateTime`, as a tick count; only compared and copied here. */
  type DateTime = int

  /** `default(DateTime)`, i.e. `DateTime.MinValue`: the value of a date that was never set. */
  const MinValue: DateTime := 0

  /** The identity user a token speaks for. */
  datatype ApplicationUser = ApplicationUser(id: Guid, userName: string)

  /**
   * A blog post, as a row of the `Posts` table. Its owner is `authorId`; the `Author`
   * navigation property is not a column but is loaded by that key from the users table
   * (see `Repositories.UserNameOf`).
   */
  datatype Post = Post(
    id: Guid,
    title: string,
    content: string,
    createdDate: DateTime,
    updatedDate: DateTime,
    authorId: Guid)

  /** A comment on the post `postId`, as a row of the `Comments` table; its owner is `authorId`. */
  datatype Comment = Comment(
    id: Guid,
    content: string,
    createdDate: DateTime,
    authorId: Guid,
    postId: Guid)

  function PostKey(p: Post): Guid { p.id }

  function CommentKey(c: Comment): Guid { c.id }

  /**
   * What the services throw. `NotFoundError` is the ArgumentException raised for a missing
   * resource, `NotAuthorizedError` the UnauthorizedAccessException raised for a caller who may
   * not act, and `OtherError` any other exception (a failed Guid.Parse, a storage failure).
   */
  datatype Error = NotFoundError | NotAuthorizedError | OtherError
}
