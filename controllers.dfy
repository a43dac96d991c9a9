/**
 * PostController and CommentController: each action reads the caller from the claims,
 * builds the entity with the caller's id stamped in, calls the service, and turns the
 * service's outcome into an HTTP result. The `...Action` functions give each action's
 * result and its effect on the tables; the controller methods are proved to have exactly
 * that result and effect.
 */
module Controllers {
  import opened Wrappers
  import opened Guids
  import opened Entities
  import opened Repositories
  import opened Services
  import opened UserClaimsHelper

  // ----- Request and response bodies -----

  datatype PostRequestDto = PostRequestDto(title: string, content: string)

  datatype PostResponseDto = PostResponseDto(
    id: Guid,
    title: string,
    content: string,
    authorId: Guid,
    authorName: string,
    created: DateTime,
    updated: DateTime)

  datatype CommentRequestDto = CommentRequestDto(content: string)

  datatype CommentResponseDto = CommentResponseDto(
    id: Guid,
    content: string,
    authorId: Guid,
    author: string,
    created: DateTime,
    postId: Guid)

  /**
   * The `IActionResult` an action returns. `BadRequest` is the bodiless `BadRequest()`,
   * `BadRequestModelState` is `BadRequest(ModelState)`, and `InternalServerError` is the
   * 500 response ASP.NET Core sends for an exception no action catches.
   */
  datatype ActionResult<+T> =
    | Ok(value: T)
    | NoContent
    | NotFound
    | Forbid
    | Unauthorized
    | BadRequest
    | BadRequestModelState
    | InternalServerError

  // ----- Mapping entities to responses -----

  /** PostController.MapToDto: the post's columns, with the given name as `AuthorName`. */
  function PostToDto(post: Post, authorName: string): (d: PostResponseDto)
    ensures d.id == post.id && d.title == post.title && d.content == post.content
    ensures d.created == post.createdDate && d.updated == post.updatedDate
    ensures d.authorId == post.authorId && d.authorName == authorName
  {
    PostResponseDto(post.id, post.title, post.content, post.authorId, authorName, post.createdDate, post.updatedDate)
  }

  /** Every column of the post, and the name, can be read back from the response. */
  lemma PostToDtoInjective(p: Post, q: Post, m: string, n: string)
    requires PostToDto(p, m) == PostToDto(q, n)
    ensures p == q && m == n
  {
  }

  /** CommentController.MapToDto: the comment's columns, with the given name as `Author`. */
  function CommentToDto(comment: Comment, author: string): (d: CommentResponseDto)
    ensures d.id == comment.id && d.content == comment.content && d.created == comment.createdDate
    ensures d.authorId == comment.authorId && d.postId == comment.postId && d.author == author
  {
    CommentResponseDto(comment.id, comment.content, comment.authorId, author, comment.createdDate, comment.postId)
  }

  lemma CommentToDtoInjective(c: Comment, e: Comment, m: string, n: string)
    requires CommentToDto(c, m) == CommentToDto(e, n)
    ensures c == e && m == n
  {
  }

  /** Putting the first comment's response in front of the responses of the rest maps every comment. */
  lemma DtosCons(comments: seq<Comment>, tail: seq<Comment>, users: seq<ApplicationUser>,
                 rest: seq<CommentResponseDto>, all: seq<CommentResponseDto>)
    requires |comments| > 0 && tail == comments[1..] && UserNameOf(users, comments[0].authorId).Some?
    requires forall i :: 0 <= i < |tail| ==> UserNameOf(users, tail[i].authorId).Some?
    requires |rest| == |tail|
    requires forall i :: 0 <= i < |tail| ==> rest[i] == CommentToDto(tail[i], UserNameOf(users, tail[i].authorId).value)
    requires all == [CommentToDto(comments[0], UserNameOf(users, comments[0].authorId).value)] + rest
    ensures |all| == |comments|
    ensures forall i :: 0 <= i < |comments| ==> UserNameOf(users, comments[i].authorId).Some?
    ensures forall i :: 0 <= i < |comments| ==>
      all[i] == CommentToDto(comments[i], UserNameOf(users, comments[i].authorId).value)
  {
    forall i | 0 <= i < |comments|
      ensures UserNameOf(users, comments[i].authorId).Some?
      ensures all[i] == CommentToDto(comments[i], UserNameOf(users, comments[i].authorId).value)
    {
      if i > 0 {
        assert comments[i] == tail[i - 1];
        assert all[i] == rest[i - 1];
      }
    }
  }

  /**
   * `comments.Select(comment => MapToDto(comment, comment.Author.UserName!))` over comments whose
   * `Author` was loaded from `users`: `None` when some comment's author is not there, whose null
   * `Author` throws NullReferenceException on dereference.
   */
  function CommentsToDtos(comments: seq<Comment>, users: seq<ApplicationUser>): (r: Option<seq<CommentResponseDto>>)
    ensures r.Some? <==> forall i :: 0 <= i < |comments| ==> UserNameOf(users, comments[i].authorId).Some?
    ensures r.Some? ==> |r.value| == |comments|
    ensures r.Some? ==> forall i :: 0 <= i < |comments| ==>
      r.value[i] == CommentToDto(comments[i], UserNameOf(users, comments[i].authorId).value)
  {
    if |comments| == 0 then Some([])
    else
      match (UserNameOf(users, comments[0].authorId), CommentsToDtos(comments[1..], users))
      case (Some(name), Some(rest)) =>
        var all := [CommentToDto(comments[0], name)] + rest;
        DtosCons(comments, comments[1..], users, rest, all);
        Some(all)
      case (None, _) => None
      case (Some(_), None) =>
        assert exists i :: 0 <= i < |comments[1..]| && UserNameOf(users, comments[1..][i].authorId).None?;
        var i :| 0 <= i < |comments[1..]| && UserNameOf(users, comments[1..][i].authorId).None?;
        assert comments[1..][i] == comments[i + 1];
        None
  }

  // ----- Mapping service outcomes to results -----

  /** The catch clauses of PostController.DeletePostById and UpdatePost. */
  function PostFault<T>(e: Error): (r: ActionResult<T>)
    ensures r == NotFound <==> e == NotFoundError
    ensures r == Forbid <==> e == NotAuthorizedError
    ensures r == BadRequest <==> e == OtherError
  {
    match e
    case NotFoundError => NotFound
    case NotAuthorizedError => Forbid
    case OtherError => BadRequest
  }

  /** The catch clauses of PostController.CreatePost: an ArgumentException is a bad request too. */
  function CreatePostFault<T>(e: Error): (r: ActionResult<T>)
    ensures r == Forbid <==> e == NotAuthorizedError
    ensures r == BadRequest <==> e != NotAuthorizedError
  {
    match e
    case NotFoundError => BadRequest
    case NotAuthorizedError => Forbid
    case OtherError => BadRequest
  }

  /** The catch clauses of CommentController.CreateComment and DeleteComment. */
  function CommentFault<T>(e: Error): (r: ActionResult<T>)
    ensures r == NotFound <==> e == NotFoundError
    ensures r == Unauthorized <==> e == NotAuthorizedError
    ensures r == BadRequest <==> e == OtherError
  {
    match e
    case NotFoundError => NotFound
    case NotAuthorizedError => Unauthorized
    case OtherError => BadRequest
  }

  /** The two controllers disagree on exactly one exception: posts forbid, comments demand authentication. */
  lemma FaultMapsDifferOnlyOnAuthorization<T>(e: Error)
    ensures PostFault<T>(e) != CommentFault<T>(e) <==> e == NotAuthorizedError
    ensures e == NotAuthorizedError ==> PostFault<T>(e) == Forbid && CommentFault<T>(e) == Unauthorized
  {
  }

  // ----- The entities the actions build -----

  /** The post CreatePost hands to the service: no key yet, the caller as owner, both dates read from the clock. */
  function NewPost(request: PostRequestDto, userId: Guid, createdNow: DateTime, updatedNow: DateTime): (p: Post)
    ensures p.id == Empty && p.authorId == userId
    ensures p.title == request.title && p.content == request.content
    ensures p.createdDate == createdNow && p.updatedDate == updatedNow
  {
    Post(Empty, request.title, request.content, createdNow, updatedNow, userId)
  }

  /**
   * The post UpdatePost hands to the service: the route id as key, the caller as owner, and
   * `CreatedDate` never assigned, so it is `DateTime.MinValue`.
   */
  function ReplacementPost(id: Guid, request: PostRequestDto, userId: Guid, now: DateTime): (p: Post)
    ensures p.id == id && p.authorId == userId
    ensures p.title == request.title && p.content == request.content
    ensures p.createdDate == MinValue && p.updatedDate == now
  {
    Post(id, request.title, request.content, MinValue, now, userId)
  }

  /** The comment CreateComment hands to the service: no key yet, the caller as owner, the route's post. */
  function NewComment(request: CommentRequestDto, userId: Guid, postId: Guid, now: DateTime): (c: Comment)
    ensures c.id == Empty && c.authorId == userId && c.postId == postId
    ensures c.content == request.content && c.createdDate == now
  {
    Comment(Empty, request.content, now, userId, postId)
  }

  // ----- The actions, as results and effects on the tables -----

  /** PostController.CreatePost. */
  function CreatePostAction(
    modelValid: bool, claims: seq<Claim>, request: PostRequestDto,
    createdNow: DateTime, updatedNow: DateTime, generatedId: Guid, posts: seq<Post>)
    : (res: (ActionResult<PostResponseDto>, seq<Post>))
    ensures !modelValid ==> res == (BadRequestModelState, posts)
    ensures res.0.Ok? || res.0 == BadRequest || res.0 == Forbid || res.0 == BadRequestModelState
    ensures res.0 == Forbid <==> modelValid && GetUserDetails(claims) == Failure(NotAuthorizedError)
    ensures res.0.Ok? <==> modelValid && GetUserDetails(claims).Success? && !HasPost(posts, generatedId)
    ensures res.0 == BadRequest <==>
      && modelValid
      && (GetUserDetails(claims) == Failure(OtherError) || (GetUserDetails(claims).Success? && HasPost(posts, generatedId)))
    ensures modelValid && GetUserDetails(claims).Success? ==>
      var user := GetUserDetails(claims).value;
      var (created, after) := InsertPost(posts, NewPost(request, user.userId, createdNow, updatedNow), generatedId);
      res == (if created.Success? then Ok(PostToDto(created.value, user.author)) else CreatePostFault(created.error), after)
    ensures !res.0.Ok? ==> res.1 == posts
    ensures res.0.Ok? ==>
      && modelValid
      && GetUserDetails(claims).Success?
      && res.0.value.authorId == GetUserDetails(claims).value.userId
      && res.0.value.authorName == GetUserDetails(claims).value.author
      && res.0.value.title == request.title && res.0.value.content == request.content
      && res.0.value.created == createdNow && res.0.value.updated == updatedNow
      && res.0.value.id == generatedId
      && res.1 == posts + [NewPost(request, GetUserDetails(claims).value.userId, createdNow, updatedNow).(id := generatedId)]
  {
    if !modelValid then (BadRequestModelState, posts)
    else
      match GetUserDetails(claims)
      case Failure(e) => (CreatePostFault(e), posts)
      case Success(user) =>
        var (created, after) := InsertPost(posts, NewPost(request, user.userId, createdNow, updatedNow), generatedId);
        match created
        case Failure(e) => (CreatePostFault(e), after)
        case Success(post) => (Ok(PostToDto(post, user.author)), after)
  }

  /** PostController.GetPostById: a post whose author is not in the users table is reported as not found. */
  function GetPostByIdAction(id: Guid, posts: seq<Post>, users: seq<ApplicationUser>): (r: ActionResult<PostResponseDto>)
    ensures r.Ok? || r == NotFound
    ensures r == NotFound <==> !HasPost(posts, id) || UserNameOf(users, PostById(posts, id).value.authorId).None?
    ensures r.Ok? ==>
      && PostById(posts, id).Some?
      && r.value == PostToDto(PostById(posts, id).value, UserNameOf(users, PostById(posts, id).value.authorId).value)
      && r.value.id == id
  {
    match PostById(posts, id)
    case None => NotFound
    case Some(post) =>
      match UserNameOf(users, post.authorId)
      case None => NotFound
      case Some(name) => Ok(PostToDto(post, name))
  }

  /** PostController.DeletePostById. */
  function DeletePostByIdAction(claims: seq<Claim>, id: Guid, posts: seq<Post>): (res: (ActionResult<()>, seq<Post>))
    ensures res.0 == NoContent || res.0 == NotFound || res.0 == Forbid || res.0 == BadRequest
    ensures GetUserDetails(claims).Failure? ==> res == (PostFault(GetUserDetails(claims).error), posts)
    ensures GetUserDetails(claims).Success? ==>
      var (outcome, after) := DeletePostEffect(posts, id, GetUserDetails(claims).value.userId);
      res == (if outcome.Pass? then NoContent else PostFault(outcome.error), after)
  {
    match GetUserDetails(claims)
    case Failure(e) => (PostFault(e), posts)
    case Success(user) =>
      var (outcome, after) := DeletePostEffect(posts, id, user.userId);
      match outcome
      case Pass => (NoContent, after)
      case Fail(e) => (PostFault(e), after)
  }

  /** PostController.UpdatePost. */
  function UpdatePostAction(
    modelValid: bool, claims: seq<Claim>, id: Guid, request: PostRequestDto, now: DateTime, posts: seq<Post>)
    : (res: (ActionResult<PostResponseDto>, seq<Post>))
    ensures !modelValid ==> res == (BadRequestModelState, posts)
    ensures modelValid && GetUserDetails(claims).Failure? ==> res == (PostFault(GetUserDetails(claims).error), posts)
    ensures modelValid && GetUserDetails(claims).Success? ==>
      var user := GetUserDetails(claims).value;
      var (updated, after) := UpdatePostEffect(posts, ReplacementPost(id, request, user.userId, now), user.userId);
      res == (if updated.Success? then Ok(PostToDto(updated.value, user.author)) else PostFault(updated.error), after)
  {
    if !modelValid then (BadRequestModelState, posts)
    else
      match GetUserDetails(claims)
      case Failure(e) => (PostFault(e), posts)
      case Success(user) =>
        var (updated, after) := UpdatePostEffect(posts, ReplacementPost(id, request, user.userId, now), user.userId);
        match updated
        case Failure(e) => (PostFault(e), after)
        case Success(post) => (Ok(PostToDto(post, user.author)), after)
  }

  /**
   * CommentController.GetCommentsByPostId: one response per comment on the post, in table order.
   * There is no handler, so a comment whose author is missing is a server error.
   */
  function GetCommentsByPostIdAction(postId: Guid, comments: seq<Comment>, users: seq<ApplicationUser>)
    : (r: ActionResult<seq<CommentResponseDto>>)
    ensures r.Ok? || r == InternalServerError
    ensures r.Ok? <==>
      forall i :: 0 <= i < |CommentsByPost(comments, postId)| ==>
        UserNameOf(users, CommentsByPost(comments, postId)[i].authorId).Some?
    ensures r.Ok? ==> |r.value| == |CommentsByPost(comments, postId)|
    ensures r.Ok? ==> forall i :: 0 <= i < |r.value| ==>
      r.value[i] == CommentToDto(CommentsByPost(comments, postId)[i], UserNameOf(users, CommentsByPost(comments, postId)[i].authorId).value)
    ensures r.Ok? ==> forall i :: 0 <= i < |r.value| ==> r.value[i].postId == postId
  {
    match CommentsToDtos(CommentsByPost(comments, postId), users)
    case None => InternalServerError
    case Some(dtos) => Ok(dtos)
  }

  /** CommentController.CreateComment. */
  function CreateCommentAction(
    modelValid: bool, claims: seq<Claim>, postId: Guid, request: CommentRequestDto,
    now: DateTime, generatedId: Guid, posts: seq<Post>, comments: seq<Comment>)
    : (res: (ActionResult<CommentResponseDto>, seq<Comment>))
    ensures !modelValid ==> res == (BadRequestModelState, comments)
    ensures res.0.Ok? || res.0 == NotFound || res.0 == Unauthorized || res.0 == BadRequest || res.0 == BadRequestModelState
    ensures res.0 == Unauthorized <==> modelValid && GetUserDetails(claims) == Failure(NotAuthorizedError)
    ensures res.0 == NotFound <==> modelValid && GetUserDetails(claims).Success? && !HasPost(posts, postId)
    ensures res.0.Ok? <==>
      modelValid && GetUserDetails(claims).Success? && HasPost(posts, postId) && !HasComment(comments, generatedId)
    ensures res.0 == BadRequest <==>
      && modelValid
      && (|| GetUserDetails(claims) == Failure(OtherError)
          || (GetUserDetails(claims).Success? && HasPost(posts, postId) && HasComment(comments, generatedId)))
    ensures modelValid && GetUserDetails(claims).Success? ==>
      var user := GetUserDetails(claims).value;
      var (created, after) := CreateCommentEffect(posts, comments, NewComment(request, user.userId, postId, now), generatedId);
      res == (if created.Success? then Ok(CommentToDto(created.value, user.author)) else CommentFault(created.error), after)
    ensures !res.0.Ok? ==> res.1 == comments
    ensures res.0.Ok? ==>
      && modelValid
      && GetUserDetails(claims).Success?
      && HasPost(posts, postId)
      && res.0.value.authorId == GetUserDetails(claims).value.userId
      && res.0.value.author == GetUserDetails(claims).value.author
      && res.0.value.postId == postId
      && res.0.value.content == request.content && res.0.value.created == now
      && res.0.value.id == generatedId
      && res.1 == comments + [NewComment(request, GetUserDetails(claims).value.userId, postId, now).(id := generatedId)]
  {
    if !modelValid then (BadRequestModelState, comments)
    else
      match GetUserDetails(claims)
      case Failure(e) => (CommentFault(e), comments)
      case Success(user) =>
        var (created, after) := CreateCommentEffect(posts, comments, NewComment(request, user.userId, postId, now), generatedId);
        match created
        case Failure(e) => (CommentFault(e), after)
        case Success(comment) => (Ok(CommentToDto(comment, user.author)), after)
  }

  /** CommentController.DeleteComment; the route's `postId` takes no part. */
  function DeleteCommentAction(claims: seq<Claim>, postId: Guid, commentId: Guid, comments: seq<Comment>)
    : (res: (ActionResult<()>, seq<Comment>))
    ensures res.0 == NoContent || res.0 == NotFound || res.0 == Unauthorized || res.0 == BadRequest
    ensures GetUserDetails(claims).Failure? ==> res == (CommentFault(GetUserDetails(claims).error), comments)
    ensures GetUserDetails(claims).Success? ==>
      var (outcome, after) := DeleteCommentEffect(comments, commentId, GetUserDetails(claims).value.userId);
      res == (if outcome.Pass? then NoContent else CommentFault(outcome.error), after)
  {
    match GetUserDetails(claims)
    case Failure(e) => (CommentFault(e), comments)
    case Success(user) =>
      var (outcome, after) := DeleteCommentEffect(comments, commentId, user.userId);
      match outcome
      case Pass => (NoContent, after)
      case Fail(e) => (CommentFault(e), after)
  }

  // ----- What the actions promise -----

  /**
   * Through the controller the update's ownership check cannot fail: the replacement carries
   * the caller's id, so any signed-in caller who names an existing post overwrites it, becomes
   * its owner, and resets its creation date; the other posts stay.
   */
  lemma UpdateThroughControllerTakesOver(
    claims: seq<Claim>, id: Guid, request: PostRequestDto, now: DateTime, posts: seq<Post>)
    requires UniquePostIds(posts)
    requires GetUserDetails(claims).Success?
    requires HasPost(posts, id)
    ensures var (r, after) := UpdatePostAction(true, claims, id, request, now, posts);
      && r.Ok?
      && r.value.authorId == GetUserDetails(claims).value.userId
      && r.value.created == MinValue
      && PostById(after, id) == Some(ReplacementPost(id, request, GetUserDetails(claims).value.userId, now))
      && UniquePostIds(after)
      && forall q :: q in posts && q.id != id ==> q in after
  {
    var user := GetUserDetails(claims).value;
    var replacement := ReplacementPost(id, request, user.userId, now);
    var after := UpdatePostEffect(posts, replacement, user.userId).1;
    forall q | q in posts && q.id != id ensures q in after {
      var k :| 0 <= k < |posts| && posts[k] == q;
      assert after[k] == q;
    }
  }

  /** With valid claims and a valid body, an update is never forbidden: it is found or not found. */
  lemma UpdateThroughControllerNeverForbidden(
    claims: seq<Claim>, id: Guid, request: PostRequestDto, now: DateTime, posts: seq<Post>)
    requires GetUserDetails(claims).Success?
    ensures var r := UpdatePostAction(true, claims, id, request, now, posts).0;
      && r != Forbid
      && (r.Ok? <==> HasPost(posts, id))
      && (r == NotFound <==> !HasPost(posts, id))
  {
  }

  /** Whatever the body says, a created post belongs to the caller the claims name. */
  lemma CreatedPostOwnedByCaller(
    claims: seq<Claim>, request1: PostRequestDto, request2: PostRequestDto,
    createdNow: DateTime, updatedNow: DateTime, generatedId: Guid, posts: seq<Post>)
    requires CreatePostAction(true, claims, request1, createdNow, updatedNow, generatedId, posts).0.Ok?
    ensures var (r, after) := CreatePostAction(true, claims, request1, createdNow, updatedNow, generatedId, posts);
      && after[|after| - 1].authorId == GetUserDetails(claims).value.userId
      && r.value.authorId == CreatePostAction(true, claims, request2, createdNow, updatedNow, generatedId, posts).0.value.authorId
  {
  }

  /**
   * A post created through the controller is then served by GetPostById under its generated
   * key, named after its owner's entry in the users table.
   */
  lemma CreatedPostIsVisible(
    claims: seq<Claim>, request: PostRequestDto, createdNow: DateTime, updatedNow: DateTime,
    generatedId: Guid, posts: seq<Post>, users: seq<ApplicationUser>)
    requires CreatePostAction(true, claims, request, createdNow, updatedNow, generatedId, posts).0.Ok?
    requires UserNameOf(users, GetUserDetails(claims).value.userId).Some?
    ensures var (r, after) := CreatePostAction(true, claims, request, createdNow, updatedNow, generatedId, posts);
      GetPostByIdAction(generatedId, after, users) ==
        Ok(r.value.(authorName := UserNameOf(users, GetUserDetails(claims).value.userId).value))
  {
    var after := CreatePostAction(true, claims, request, createdNow, updatedNow, generatedId, posts).1;
    var stored := NewPost(request, GetUserDetails(claims).value.userId, createdNow, updatedNow).(id := generatedId);
    assert after == posts + [stored];
    var found := PostById(after, generatedId);
    assert found.Some? by {
      assert after[|posts|].id == generatedId;
    }
    assert found == Some(stored);
  }

  /** Mapping one more comment, whose author is known, adds its response at the end. */
  lemma DtosOfAppend(comments: seq<Comment>, c: Comment, users: seq<ApplicationUser>)
    requires CommentsToDtos(comments, users).Some? && UserNameOf(users, c.authorId).Some?
    ensures CommentsToDtos(comments + [c], users) ==
      Some(CommentsToDtos(comments, users).value + [CommentToDto(c, UserNameOf(users, c.authorId).value)])
  {
    var all := comments + [c];
    forall i | 0 <= i < |all|
      ensures UserNameOf(users, all[i].authorId).Some?
    {
      if i < |comments| { assert all[i] == comments[i]; }
    }
    var after := CommentsToDtos(all, users).value;
    var expected := CommentsToDtos(comments, users).value + [CommentToDto(c, UserNameOf(users, c.authorId).value)];
    forall i | 0 <= i < |all|
      ensures after[i] == expected[i]
    {
      if i < |comments| { assert all[i] == comments[i]; }
    }
    assert after == expected;
  }

  /**
   * When a post's listing answers Ok, appending a comment on that post by a known author keeps
   * it Ok and adds exactly that comment's response at the end.
   */
  lemma ListingAfterAppend(comments: seq<Comment>, c: Comment, postId: Guid, users: seq<ApplicationUser>)
    requires c.postId == postId
    requires GetCommentsByPostIdAction(postId, comments, users).Ok?
    requires UserNameOf(users, c.authorId).Some?
    ensures GetCommentsByPostIdAction(postId, comments + [c], users) ==
      Ok(GetCommentsByPostIdAction(postId, comments, users).value + [CommentToDto(c, UserNameOf(users, c.authorId).value)])
  {
    Query.WhereAppend(comments, [c], (x: Comment) => x.postId == postId);
    assert CommentsByPost(comments + [c], postId) == CommentsByPost(comments, postId) + [c];
    DtosOfAppend(CommentsByPost(comments, postId), c, users);
  }

  /**
   * A comment created through the controller is then listed last for its post, under its
   * generated key, as long as the post's listing answered Ok before.
   */
  lemma CreatedCommentIsListed(
    claims: seq<Claim>, postId: Guid, request: CommentRequestDto, now: DateTime, generatedId: Guid,
    posts: seq<Post>, comments: seq<Comment>, users: seq<ApplicationUser>)
    requires CreateCommentAction(true, claims, postId, request, now, generatedId, posts, comments).0.Ok?
    requires GetCommentsByPostIdAction(postId, comments, users).Ok?
    requires UserNameOf(users, GetUserDetails(claims).value.userId).Some?
    ensures var (r, after) := CreateCommentAction(true, claims, postId, request, now, generatedId, posts, comments);
      GetCommentsByPostIdAction(postId, after, users) ==
        Ok(GetCommentsByPostIdAction(postId, comments, users).value
          + [r.value.(author := UserNameOf(users, GetUserDetails(claims).value.userId).value)])
  {
    var stored := NewComment(request, GetUserDetails(claims).value.userId, postId, now).(id := generatedId);
    ListingAfterAppend(comments, stored, postId, users);
  }

  /**
   * Run on a principal without claims, the action bodies answer Forbid for posts and Unauthorized
   * for comments, and change nothing. (`[Authorize]`, which answers an anonymous request before
   * the action runs, is not part of this model.)
   */
  lemma AnonymousCallerChangesNothing(
    request: PostRequestDto, commentRequest: CommentRequestDto, id: Guid, postId: Guid,
    now: DateTime, generatedId: Guid, posts: seq<Post>, comments: seq<Comment>)
    ensures CreatePostAction(true, [], request, now, now, generatedId, posts) == (Forbid, posts)
    ensures UpdatePostAction(true, [], id, request, now, posts) == (Forbid, posts)
    ensures DeletePostByIdAction([], id, posts) == (Forbid, posts)
    ensures CreateCommentAction(true, [], postId, commentRequest, now, generatedId, posts, comments) == (Unauthorized, comments)
    ensures DeleteCommentAction([], postId, id, comments) == (Unauthorized, comments)
  {
    AnonymousIsRejected();
  }

  /** The owner's delete through the controller answers NoContent and removes exactly that post. */
  lemma OwnerDeletesThroughController(user: ApplicationUser, id: Guid, posts: seq<Post>)
    requires UniquePostIds(posts)
    requires HasPost(posts, id) && PostById(posts, id).value.authorId == user.id
    ensures var (r, after) := DeletePostByIdAction(UserClaims(user), id, posts);
      && r == NoContent
      && !HasPost(after, id)
      && |after| == |posts| - 1
      && forall q :: q in posts && q.id != id ==> q in after
  {
    UserClaimsRoundTrip(user);
    DeletePostByOwner(posts, id, user.id);
  }

  /** Someone else's delete through the controller is forbidden and changes nothing. */
  lemma OthersCannotDeleteThroughController(user: ApplicationUser, id: Guid, posts: seq<Post>)
    requires HasPost(posts, id) && PostById(posts, id).value.authorId != user.id
    ensures DeletePostByIdAction(UserClaims(user), id, posts) == (Forbid, posts)
  {
    UserClaimsRoundTrip(user);
  }

  /** Only the comment id selects what DeleteComment removes. */
  lemma DeleteCommentIgnoresRoutePost(claims: seq<Claim>, postId1: Guid, postId2: Guid, commentId: Guid, comments: seq<Comment>)
    ensures DeleteCommentAction(claims, postId1, commentId, comments) == DeleteCommentAction(claims, postId2, commentId, comments)
  {
  }

  /** A comment's author through the controller: NoContent, and the comment is gone. */
  lemma AuthorDeletesCommentThroughController(user: ApplicationUser, postId: Guid, commentId: Guid, comments: seq<Comment>)
    requires UniqueCommentIds(comments)
    requires HasComment(comments, commentId) && CommentById(comments, commentId).value.authorId == user.id
    ensures var (r, after) := DeleteCommentAction(UserClaims(user), postId, commentId, comments);
      && r == NoContent
      && !HasComment(after, commentId)
      && forall c :: c in comments && c.id != commentId ==> c in after
  {
    UserClaimsRoundTrip(user);
    DeleteCommentByOwner(comments, commentId, user.id);
  }

  // ----- The controllers -----

  class PostController {
    const postService: PostService

    constructor(postService: PostService)
      ensures this.postService == postService
    {
      this.postService := postService;
    }

    method CreatePost(
      modelValid: bool, claims: seq<Claim>, request: PostRequestDto,
      createdNow: DateTime, updatedNow: DateTime, generatedId: Guid)
      returns (r: ActionResult<PostResponseDto>)
      requires postService.postRepository.Valid()
      modifies postService.postRepository
      ensures postService.postRepository.Valid() && postService.postRepository.users == old(postService.postRepository.users)
      ensures (r, postService.postRepository.posts) ==
        CreatePostAction(modelValid, claims, request, createdNow, updatedNow, generatedId, old(postService.postRepository.posts))
    {
      if !modelValid {
        return BadRequestModelState;
      }
      var user := GetUserDetails(claims);
      if user.Failure? {
        return CreatePostFault(user.error);
      }
      var created := postService.CreatePost(NewPost(request, user.value.userId, createdNow, updatedNow), generatedId);
      if created.Failure? {
        return CreatePostFault(created.error);
      }
      r := Ok(PostToDto(created.value, user.value.author));
    }

    function GetPostById(id: Guid): (r: ActionResult<PostResponseDto>)
      reads postService.postRepository
      ensures r == GetPostByIdAction(id, postService.postRepository.posts, postService.postRepository.users)
    {
      match postService.GetPostById(id)
      case None => NotFound
      case Some(post) =>
        match UserNameOf(postService.postRepository.users, post.authorId)
        case None => NotFound
        case Some(name) => Ok(PostToDto(post, name))
    }

    method DeletePostById(claims: seq<Claim>, id: Guid) returns (r: ActionResult<()>)
      requires postService.postRepository.Valid()
      modifies postService.postRepository
      ensures postService.postRepository.Valid() && postService.postRepository.users == old(postService.postRepository.users)
      ensures (r, postService.postRepository.posts) == DeletePostByIdAction(claims, id, old(postService.postRepository.posts))
    {
      var user := GetUserDetails(claims);
      if user.Failure? {
        return PostFault(user.error);
      }
      var outcome := postService.DeletePost(id, user.value.userId);
      if outcome.Fail? {
        return PostFault(outcome.error);
      }
      r := NoContent;
    }

    method UpdatePost(modelValid: bool, claims: seq<Claim>, id: Guid, request: PostRequestDto, now: DateTime)
      returns (r: ActionResult<PostResponseDto>)
      requires postService.postRepository.Valid()
      modifies postService.postRepository
      ensures postService.postRepository.Valid() && postService.postRepository.users == old(postService.postRepository.users)
      ensures (r, postService.postRepository.posts) ==
        UpdatePostAction(modelValid, claims, id, request, now, old(postService.postRepository.posts))
    {
      if !modelValid {
        return BadRequestModelState;
      }
      var user := GetUserDetails(claims);
      if user.Failure? {
        return PostFault(user.error);
      }
      var updated := postService.UpdatePost(ReplacementPost(id, request, user.value.userId, now), user.value.userId);
      if updated.Failure? {
        return PostFault(updated.error);
      }
      r := Ok(PostToDto(updated.value, user.value.author));
    }
  }

  class CommentController {
    const commentService: CommentService

    constructor(commentService: CommentService)
      ensures this.commentService == commentService
    {
      this.commentService := commentService;
    }

    function GetCommentsByPostId(postId: Guid): (r: ActionResult<seq<CommentResponseDto>>)
      reads commentService.commentRepository
      ensures r == GetCommentsByPostIdAction(postId, commentService.commentRepository.comments, commentService.commentRepository.users)
    {
      match CommentsToDtos(commentService.GetCommentsByPostId(postId), commentService.commentRepository.users)
      case None => InternalServerError
      case Some(dtos) => Ok(dtos)
    }

    method CreateComment(
      modelValid: bool, claims: seq<Claim>, postId: Guid, request: CommentRequestDto, now: DateTime, generatedId: Guid)
      returns (r: ActionResult<CommentResponseDto>)
      requires commentService.commentRepository.Valid()
      modifies commentService.commentRepository
      ensures commentService.commentRepository.Valid()
      ensures commentService.commentRepository.users == old(commentService.commentRepository.users)
      ensures (r, commentService.commentRepository.comments) ==
        CreateCommentAction(modelValid, claims, postId, request, now, generatedId,
          commentService.postRepository.posts, old(commentService.commentRepository.comments))
    {
      if !modelValid {
        return BadRequestModelState;
      }
      var user := GetUserDetails(claims);
      if user.Failure? {
        return CommentFault(user.error);
      }
      var created := commentService.CreateComment(NewComment(request, user.value.userId, postId, now), generatedId);
      if created.Failure? {
        return CommentFault(created.error);
      }
      r := Ok(CommentToDto(created.value, user.value.author));
    }

    method DeleteComment(claims: seq<Claim>, postId: Guid, commentId: Guid) returns (r: ActionResult<()>)
      requires commentService.commentRepository.Valid()
      modifies commentService.commentRepository
      ensures commentService.commentRepository.Valid()
      ensures commentService.commentRepository.users == old(commentService.commentRepository.users)
      ensures (r, commentService.commentRepository.comments) ==
        DeleteCommentAction(claims, postId, commentId, old(commentService.commentRepository.comments))
    {
      var user := GetUserDetails(claims);
      if user.Failure? {
        return CommentFault(user.error);
      }
      var outcome := commentService.DeleteComment(commentId, user.value.userId);
      if outcome.Fail? {
        return CommentFault(outcome.error);
      }
      r := NoContent;
    }
  }
}
