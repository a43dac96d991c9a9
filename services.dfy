/**
 * PostService and CommentService: load or check existence, then check ownership, then
 * mutate through the repository. The functions at the top give each mutating operation's
 * effect on the tables; the service methods are proved to have exactly that effect.
 */
module Services {
  import opened Wrappers
  import opened Guids
  import opened Entities
  import opened Repositories
  import Query

  // ----- Effects of the mutating operations on the tables -----

  /** DeletePostAsync: missing post, then foreign owner, then removal. */
  function DeletePostEffect(posts: seq<Post>, postId: Guid, userId: Guid): (res: (Outcome<Error>, seq<Post>))
    ensures res.0 == Fail(NotFoundError) <==> !HasPost(posts, postId)
    ensures res.0 == Fail(NotAuthorizedError) <==>
      HasPost(posts, postId) && PostById(posts, postId).value.authorId != userId
    ensures res.0 == Pass <==> HasPost(posts, postId) && PostById(posts, postId).value.authorId == userId
    ensures res.0 != Fail(OtherError)
    ensures res.0.Fail? ==> res.1 == posts
  {
    match PostById(posts, postId)
    case None => (Fail(NotFoundError), posts)
    case Some(post) =>
      if post.authorId != userId then (Fail(NotAuthorizedError), posts)
      else (Pass, Query.Remove(posts, post))
  }

  /**
   * UpdatePostAsync as written: existence of `post.id`, then the SUPPLIED post's `authorId`
   * against `userId`; the stored post's owner is never looked at.
   */
  function UpdatePostEffect(posts: seq<Post>, post: Post, userId: Guid): (res: (Result<Post, Error>, seq<Post>))
    ensures !HasPost(posts, post.id) ==> res == (Failure(NotFoundError), posts)
    ensures HasPost(posts, post.id) && post.authorId != userId ==> res == (Failure(NotAuthorizedError), posts)
    ensures HasPost(posts, post.id) && post.authorId == userId ==>
      res.0 == Success(post) && PostById(res.1, post.id) == Some(post)
    ensures HasPost(posts, post.id) && post.authorId == userId ==> res == ReplacePost(posts, post)
    ensures |res.1| == |posts|
    ensures UniquePostIds(posts) ==> UniquePostIds(res.1)
    ensures UniquePostIds(posts) && res.0.Success? ==>
      forall k :: 0 <= k < |posts| ==> res.1[k] == if posts[k].id == post.id then post else posts[k]
    ensures res.0.Failure? ==> res.0.error != OtherError
  {
    if !HasPost(posts, post.id) then (Failure(NotFoundError), posts)
    else if post.authorId != userId then (Failure(NotAuthorizedError), posts)
    else ReplacePost(posts, post)
  }

  /** CreateCommentAsync: the post must exist; there is no ownership check. */
  function CreateCommentEffect(posts: seq<Post>, comments: seq<Comment>, comment: Comment, generatedId: Guid)
    : (res: (Result<Comment, Error>, seq<Comment>))
    ensures !HasPost(posts, comment.postId) ==> res == (Failure(NotFoundError), comments)
    ensures HasPost(posts, comment.postId) ==> res == InsertComment(comments, comment, generatedId)
    ensures res.0.Failure? ==> res.0.error != NotAuthorizedError && res.1 == comments
  {
    if !HasPost(posts, comment.postId) then (Failure(NotFoundError), comments)
    else InsertComment(comments, comment, generatedId)
  }

  /** DeleteCommentAsync: missing comment, then foreign owner, then removal. */
  function DeleteCommentEffect(comments: seq<Comment>, commentId: Guid, userId: Guid): (res: (Outcome<Error>, seq<Comment>))
    ensures res.0 == Fail(NotFoundError) <==> !HasComment(comments, commentId)
    ensures res.0 == Fail(NotAuthorizedError) <==>
      HasComment(comments, commentId) && CommentById(comments, commentId).value.authorId != userId
    ensures res.0 == Pass <==> HasComment(comments, commentId) && CommentById(comments, commentId).value.authorId == userId
    ensures res.0 != Fail(OtherError)
    ensures res.0.Fail? ==> res.1 == comments
  {
    match CommentById(comments, commentId)
    case None => (Fail(NotFoundError), comments)
    case Some(comment) =>
      if comment.authorId != userId then (Fail(NotAuthorizedError), comments)
      else (Pass, Query.Remove(comments, comment))
  }

  // ----- What the operations promise -----

  /** The owner's delete removes exactly the one post with that id, and nothing else. */
  lemma DeletePostByOwner(posts: seq<Post>, postId: Guid, userId: Guid)
    requires UniquePostIds(posts)
    requires HasPost(posts, postId) && PostById(posts, postId).value.authorId == userId
    ensures DeletePostEffect(posts, postId, userId).0 == Pass
    ensures var after := DeletePostEffect(posts, postId, userId).1;
      && UniquePostIds(after)
      && |after| == |posts| - 1
      && multiset(after) == multiset(posts) - multiset{PostById(posts, postId).value}
      && !HasPost(after, postId)
      && forall q :: q in posts && q.id != postId ==> q in after
  {
    var post := PostById(posts, postId).value;
    Query.RemoveUnique(posts, post, PostKey);
  }

  /**
   * The update check reads only the supplied post: a caller who names themself as author
   * of an existing post may overwrite it, whoever owns the stored one, and becomes its owner.
   */
  lemma UpdatePostIgnoresStoredOwner(posts: seq<Post>, post: Post, userId: Guid)
    requires UniquePostIds(posts)
    requires HasPost(posts, post.id) && PostById(posts, post.id).value.authorId != userId
    requires post.authorId == userId
    ensures UpdatePostEffect(posts, post, userId).0 == Success(post)
    ensures PostById(UpdatePostEffect(posts, post, userId).1, post.id).value.authorId == userId
    ensures forall q :: q in posts && q.id != post.id ==> q in UpdatePostEffect(posts, post, userId).1
  {
    var after := UpdatePostEffect(posts, post, userId).1;
    forall q | q in posts && q.id != post.id ensures q in after {
      var k :| 0 <= k < |posts| && posts[k] == q;
      assert after[k] == q;
    }
  }

  /** The outcome of an update depends on whether the id is stored, never on who stored it. */
  lemma UpdateOutcomeIndependentOfStore(posts1: seq<Post>, posts2: seq<Post>, post: Post, userId: Guid)
    requires HasPost(posts1, post.id) == HasPost(posts2, post.id)
    ensures UpdatePostEffect(posts1, post, userId).0 == UpdatePostEffect(posts2, post, userId).0
  {
  }

  /** The author's delete removes exactly the one comment with that id, and nothing else. */
  lemma DeleteCommentByOwner(comments: seq<Comment>, commentId: Guid, userId: Guid)
    requires UniqueCommentIds(comments)
    requires HasComment(comments, commentId) && CommentById(comments, commentId).value.authorId == userId
    ensures DeleteCommentEffect(comments, commentId, userId).0 == Pass
    ensures var after := DeleteCommentEffect(comments, commentId, userId).1;
      && UniqueCommentIds(after)
      && |after| == |comments| - 1
      && multiset(after) == multiset(comments) - multiset{CommentById(comments, commentId).value}
      && !HasComment(after, commentId)
      && forall c :: c in comments && c.id != commentId ==> c in after
  {
    var comment := CommentById(comments, commentId).value;
    Query.RemoveUnique(comments, comment, CommentKey);
  }

  /** Anyone may comment on an existing post: the comment's author plays no part in the outcome. */
  lemma AnyCallerMayComment(posts: seq<Post>, comments: seq<Comment>, comment: Comment, generatedId: Guid)
    requires HasPost(posts, comment.postId)
    requires !HasComment(comments, WithGeneratedCommentKey(comment, generatedId).id)
    ensures var res := CreateCommentEffect(posts, comments, comment, generatedId);
      res.0.Success? && res.0.value.authorId == comment.authorId && res.1 == comments + [res.0.value]
  {
  }

  // ----- The services -----

  class PostService {
    const postRepository: PostRepository

    constructor(postRepository: PostRepository)
      ensures this.postRepository == postRepository
    {
      this.postRepository := postRepository;
    }

    /** Inserts through the repository and returns its result unchanged. */
    method CreatePost(post: Post, generatedId: Guid) returns (r: Result<Post, Error>)
      requires postRepository.Valid()
      modifies postRepository
      ensures postRepository.Valid() && postRepository.users == old(postRepository.users)
      ensures (r, postRepository.posts) == InsertPost(old(postRepository.posts), post, generatedId)
    {
      r := postRepository.CreatePost(post, generatedId);
    }

    function GetPostById(id: Guid): (r: Option<Post>)
      reads postRepository
      ensures r == postRepository.GetPostById(id)
    {
      postRepository.GetPostById(id)
    }

    function GetPostsByAuthor(authorId: Guid): (r: seq<Post>)
      reads postRepository
      ensures r == postRepository.GetPostsByAuthor(authorId)
    {
      postRepository.GetPostsByAuthor(authorId)
    }

    function GetAllPosts(): (r: seq<Post>)
      reads postRepository
      ensures r == postRepository.GetAllPosts()
    {
      postRepository.GetAllPosts()
    }

    method DeletePost(postId: Guid, userId: Guid) returns (r: Outcome<Error>)
      requires postRepository.Valid()
      modifies postRepository
      ensures postRepository.Valid() && postRepository.users == old(postRepository.users)
      ensures (r, postRepository.posts) == DeletePostEffect(old(postRepository.posts), postId, userId)
    {
      var post := postRepository.GetPostById(postId);
      if post.None? {
        return Fail(NotFoundError);
      }
      if post.value.authorId != userId {
        return Fail(NotAuthorizedError);
      }
      postRepository.DeletePost(post.value);
      r := Pass;
    }

    method UpdatePost(post: Post, userId: Guid) returns (r: Result<Post, Error>)
      requires postRepository.Valid()
      modifies postRepository
      ensures postRepository.Valid() && postRepository.users == old(postRepository.users)
      ensures (r, postRepository.posts) == UpdatePostEffect(old(postRepository.posts), post, userId)
    {
      if !postRepository.PostExists(post.id) {
        return Failure(NotFoundError);
      }
      if post.authorId != userId {
        return Failure(NotAuthorizedError);
      }
      r := postRepository.UpdatePost(post);
    }
  }

  class CommentService {
    const commentRepository: CommentRepository
    const postRepository: PostRepository

    constructor(commentRepository: CommentRepository, postRepository: PostRepository)
      ensures this.commentRepository == commentRepository && this.postRepository == postRepository
    {
      this.commentRepository := commentRepository;
      this.postRepository := postRepository;
    }

    method CreateComment(comment: Comment, generatedId: Guid) returns (r: Result<Comment, Error>)
      requires commentRepository.Valid()
      modifies commentRepository
      ensures commentRepository.Valid() && commentRepository.users == old(commentRepository.users)
      ensures (r, commentRepository.comments) ==
        CreateCommentEffect(postRepository.posts, old(commentRepository.comments), comment, generatedId)
    {
      if !postRepository.PostExists(comment.postId) {
        return Failure(NotFoundError);
      }
      r := commentRepository.CreateComment(comment, generatedId);
    }

    function GetCommentById(id: Guid): (r: Option<Comment>)
      reads commentRepository
      ensures r == commentRepository.GetCommentById(id)
    {
      commentRepository.GetCommentById(id)
    }

    function GetCommentsByPostId(postId: Guid): (r: seq<Comment>)
      reads commentRepository
      ensures r == commentRepository.GetCommentsByPost(postId)
    {
      commentRepository.GetCommentsByPost(postId)
    }

    function GetCommentsByAuthorId(authorId: Guid): (r: seq<Comment>)
      reads commentRepository
      ensures r == commentRepository.GetCommentsByAuthor(authorId)
    {
      commentRepository.GetCommentsByAuthor(authorId)
    }

    method DeleteComment(commentId: Guid, userId: Guid) returns (r: Outcome<Error>)
      requires commentRepository.Valid()
      modifies commentRepository
      ensures commentRepository.Valid() && commentRepository.users == old(commentRepository.users)
      ensures (r, commentRepository.comments) == DeleteCommentEffect(old(commentRepository.comments), commentId, userId)
    {
      var comment := commentRepository.GetCommentById(commentId);
      if comment.None? {
        return Fail(NotFoundError);
      }
      if comment.value.authorId != userId {
        return Fail(NotAuthorizedError);
      }
      commentRepository.DeleteComment(comment.value);
      r := Pass;
    }
  }
}
