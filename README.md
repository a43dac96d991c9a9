# Ownership authorisation in the SimpleBlogApi blog backend

This project models in Dafny how the blog API decides who may create, change and delete posts and comments, and proves properties of that model. The model follows the request path through four layers:

- **Controllers.** `PostController` and `CommentController` read the caller from the request's claims. They build the entity with the caller's id stamped into `AuthorId`, call the service, and turn the outcome into an HTTP result.
- **Claims helper.** `UserClaimsHelper.GetUserDetails` takes the first claim of each of two types and fails closed when either is missing. Only then does it parse the id as a Guid.
- **Services.** `PostService` and `CommentService` check existence first (`ArgumentException`), then ownership (`UnauthorizedAccessException`), then change the repository.
- **Repositories.** `PostRepository` and `CommentRepository` are modelled as in-memory tables whose rows have unique keys. Each repository also sees the users table, which its reads join to load a row's `Author` by `AuthorId`; nothing here changes that table.

Modules, one per file:

- `Wrappers`: `Option`, `Result` and `Outcome`.
- `Query`: LINQ `FirstOrDefault`, `Any` and `Where`, and `Remove`, all on sequences.
- `Guids`: a Guid as its 32 hexadecimal digits, its "D" text form, and `Guid.Parse`.
- `Entities`: `Post`, `Comment`, `ApplicationUser`, and the three exception kinds as an `Error` datatype.
- `Repositories`, `Services`, `UserClaimsHelper` and `Controllers`.

Each state-changing operation follows the same pattern. A function gives its result and its effect on the table, for example `Services.DeletePostEffect` or `Controllers.UpdatePostAction`. The class method that performs the operation is proved to have exactly that result and effect. The lemmas then state what the operation promises about that function.

Inputs the model takes as given:

- `DateTime.Now` is a parameter, and every read of the clock has its own parameter.
- The key Entity Framework generates for a new row is a parameter (`generatedId`).
- Model-state validity is a boolean parameter.
- The request's principal is its list of claims.

Two behaviours are modelled as the code has them:

- **Update ignores the stored owner.** `UpdatePostAsync` compares the `AuthorId` of the post it is *given* with the caller's id; it never looks at the stored post's owner. The controller sets that `AuthorId` to the caller's id itself, so the check always passes on that path. `Controllers.UpdateThroughControllerTakesOver` proves the consequence: any signed-in caller who names an existing post overwrites it and becomes its owner.
- **Update resets the creation date.** The controller never sets `CreatedDate` on the replacement post. `Update` writes every column, so the stored creation date becomes `DateTime.MinValue`.

## Model

| member | source | states |
|---|---|---|
| Query.FirstIndex | Blog.Infrastructure/Repositories/PostRepository.cs:32 | the position found holds the first element satisfying the predicate; none is found exactly when no element satisfies it |
| Query.FirstOrDefault | Blog.Infrastructure/Repositories/PostRepository.cs:32 | null exactly when no element matches; otherwise the first matching element |
| Query.Any | Blog.Infrastructure/Repositories/PostRepository.cs:63 | true exactly when some element satisfies the predicate |
| Query.Where | Blog.Infrastructure/Repositories/PostRepository.cs:38 | keeps exactly the matching elements, each as often as it occurs, and nothing else |
| Query.WhereAppend | Blog.Infrastructure/Repositories/PostRepository.cs:38 | filtering commutes with concatenation, so the kept elements stay in table order |
| Query.Remove | Blog.Infrastructure/Repositories/PostRepository.cs:21 | an absent entity leaves the table as it is; a present one loses its first occurrence and nothing else (multiset minus one) |
| Query.RemoveUnique | Blog.Infrastructure/Repositories/PostRepository.cs:21 | in a table with unique keys, removal keeps keys unique, leaves no row with the removed key, and keeps every other row |
| Guids.Format | Blog.UnitTests/ClaimsPrincipalFactory.cs:17 | `Guid.ToString()` is 36 characters with hyphens at positions 8, 13, 18 and 23 |
| Guids.Parse | Blog.Api/Helpers/UserClaimsHelper.cs:11 | only 32- or 36-character texts parse; a 32-character text parses exactly when all its characters are hex digits, and a 36-character one exactly when it has hyphens at positions 8, 13, 18 and 23 and hex digits everywhere else; on success digit i of the Guid is the value of the i-th hex digit of the text |
| Guids.ParseFormat | Blog.UnitTests/ClaimsPrincipalFactory.cs:17 | parsing the text `ToString` writes gives back the same Guid |
| Guids.FormatInjective | Blog.UnitTests/ClaimsPrincipalFactory.cs:17 | two Guids with the same text are equal |
| Repositories.UserNameOf | Blog.Infrastructure/Repositories/PostRepository.cs:32 | the author's user name is absent exactly when no user has the id; otherwise it is the name of a user with that id |
| Repositories.InsertPost | Blog.Infrastructure/Repositories/PostRepository.cs:12-17 | the save succeeds exactly when the key is new; then the post, with an empty key replaced by the generated one (`WithGeneratedPostKey`), is appended and returned; otherwise the table is unchanged; keys stay unique |
| Repositories.ReplacePost | Blog.Infrastructure/Repositories/PostRepository.cs:41-59 | succeeds exactly when the key is stored; the row with that key becomes the given post and every other row is unchanged; otherwise the table is unchanged |
| Repositories.PostRepository.CreatePost | Blog.Infrastructure/Repositories/PostRepository.cs:12-17 | the new table and the result are those of `InsertPost`; unique keys are kept |
| Repositories.PostRepository.DeletePost | Blog.Infrastructure/Repositories/PostRepository.cs:19-23 | the post is no longer stored; every post with another key is kept; deleting an absent post changes nothing |
| Repositories.PostRepository.GetAllPosts | Blog.Infrastructure/Repositories/PostRepository.cs:25-28 | every stored post, in table order |
| Repositories.PostRepository.GetPostById | Blog.Infrastructure/Repositories/PostRepository.cs:30-34 | null exactly when no post has the id; otherwise the first stored post with it |
| Repositories.PostRepository.GetPostsByAuthor | Blog.Infrastructure/Repositories/PostRepository.cs:36-39 | exactly the author's posts, each as often as stored; empty exactly when the author has none |
| Repositories.PostRepository.UpdatePost | Blog.Infrastructure/Repositories/PostRepository.cs:41-59 | the new table and the result are those of `ReplacePost`; unique keys are kept |
| Repositories.PostRepository.PostExists | Blog.Infrastructure/Repositories/PostRepository.cs:61-64 | true exactly when some stored post has the id |
| Repositories.InsertComment | Blog.Infrastructure/Repositories/CommentRepository.cs:13-18 | as `InsertPost`, for comments, with the key filled in by `WithGeneratedCommentKey` |
| Repositories.CommentRepository.CreateComment | Blog.Infrastructure/Repositories/CommentRepository.cs:13-18 | the new table and the result are those of `InsertComment`; unique keys are kept |
| Repositories.CommentRepository.GetCommentById | Blog.Infrastructure/Repositories/CommentRepository.cs:20-24 | null exactly when no comment has the id; otherwise the first stored comment with it |
| Repositories.CommentRepository.DeleteComment | Blog.Infrastructure/Repositories/CommentRepository.cs:26-30 | the comment is no longer stored and every comment with another key is kept |
| Repositories.CommentRepository.GetCommentsByPost | Blog.Infrastructure/Repositories/CommentRepository.cs:32-35 | exactly the post's comments, each as often as stored; empty exactly when it has none |
| Repositories.CommentRepository.GetCommentsByAuthor | Blog.Infrastructure/Repositories/CommentRepository.cs:37-40 | exactly the author's comments, each as often as stored |
| Repositories.CommentRepository.CommentExists | Blog.Infrastructure/Repositories/CommentRepository.cs:42-45 | true exactly when some stored comment has the id |
| Services.DeletePostEffect | Blog.Core/Services/PostService.cs:29-42 | NotFound exactly when the id is not stored; NotAuthorized exactly when it is stored under another owner; success exactly when the caller owns it; never any other error; a failure changes nothing |
| Services.UpdatePostEffect | Blog.Core/Services/PostService.cs:43-55 | NotFound when the id is not stored, whoever calls; NotAuthorized when the supplied post's owner is not the caller; otherwise the result and the new table are exactly those of the repository's `ReplacePost`: the row with that id becomes the supplied post and every other row is unchanged, with keys still unique |
| Services.CreateCommentEffect | Blog.Core/Services/CommentService.cs:17-24 | NotFound without insert when the post does not exist; otherwise the repository's insert; never NotAuthorized |
| Services.DeleteCommentEffect | Blog.Core/Services/CommentService.cs:37-49 | NotFound exactly when the comment is missing; NotAuthorized exactly when another user wrote it; success exactly for its author; a failure changes nothing |
| Services.DeletePostByOwner | Blog.Core/Services/PostService.cs:41 | the owner's delete removes exactly that one post: one row fewer, the id gone, every other post kept, keys still unique |
| Services.UpdatePostIgnoresStoredOwner | Blog.Core/Services/PostService.cs:50-54 | a caller who names themself the author of someone else's stored post overwrites it and becomes its owner; the other posts stay |
| Services.UpdateOutcomeIndependentOfStore | Blog.Core/Services/PostService.cs:46-53 | the update's outcome depends only on whether the id is stored, never on the stored post's contents |
| Services.DeleteCommentByOwner | Blog.Core/Services/CommentService.cs:48 | the author's delete removes exactly that one comment and keeps every other |
| Services.AnyCallerMayComment | Blog.Core/Services/CommentService.cs:17-24 | on an existing post, a comment with a new key is appended whoever wrote it |
| Services.PostService.CreatePost | Blog.Core/Services/PostService.cs:13-16 | the repository's insert, result returned unchanged |
| Services.PostService.GetPostById | Blog.Core/Services/PostService.cs:17-20 | the repository's lookup, unchanged |
| Services.PostService.GetPostsByAuthor | Blog.Core/Services/PostService.cs:21-24 | the repository's filter, unchanged |
| Services.PostService.GetAllPosts | Blog.Core/Services/PostService.cs:25-28 | the repository's listing, unchanged |
| Services.PostService.DeletePost | Blog.Core/Services/PostService.cs:29-42 | result and new table are those of `DeletePostEffect`; unique keys are kept |
| Services.PostService.UpdatePost | Blog.Core/Services/PostService.cs:43-55 | result and new table are those of `UpdatePostEffect`; unique keys are kept |
| Services.CommentService.CreateComment | Blog.Core/Services/CommentService.cs:17-24 | result and new table are those of `CreateCommentEffect` |
| Services.CommentService.GetCommentById | Blog.Core/Services/CommentService.cs:25-28 | the repository's lookup, unchanged |
| Services.CommentService.GetCommentsByPostId | Blog.Core/Services/CommentService.cs:29-32 | the repository's filter by post, unchanged |
| Services.CommentService.GetCommentsByAuthorId | Blog.Core/Services/CommentService.cs:33-36 | the repository's filter by author, unchanged |
| Services.CommentService.DeleteComment | Blog.Core/Services/CommentService.cs:37-49 | result and new table are those of `DeleteCommentEffect` |
| UserClaimsHelper.FirstClaimIndex | Blog.Api/Helpers/UserClaimsHelper.cs:9-10 | the claim found is the first of its type; none is found exactly when no claim has that type |
| UserClaimsHelper.FindClaim | Blog.Api/Helpers/UserClaimsHelper.cs:9-10 | `FirstOrDefault` over the claims: null exactly when no claim has the type; otherwise the first claim of that type |
| UserClaimsHelper.GetUserDetails | Blog.Api/Helpers/UserClaimsHelper.cs:7-12 | unauthorised exactly when either claim type is missing; a format error exactly when both are present and the first id claim does not parse; on success the parsed first id claim and the first name claim |
| UserClaimsHelper.UserClaimsRoundTrip | Blog.UnitTests/ClaimsPrincipalFactory.cs:13-22 | the claims issued for a user (`UserClaims`: the id's text under `ClaimTypes.Name`, then the user name under "name") give back exactly that user's id and user name |
| UserClaimsHelper.AnonymousIsRejected | Blog.UnitTests/ClaimsPrincipalFactory.cs:7-11 | a principal with no claims is unauthorised |
| Controllers.PostToDto | Blog.Api/Controllers/PostController.cs:20-32 | copies id, title, content, both dates and owner, with the given name as author name |
| Controllers.PostToDtoInjective | Blog.Api/Controllers/PostController.cs:20-32 | equal responses come from posts that agree on every column, and from the same name |
| Controllers.CommentToDto | Blog.Api/Controllers/CommentController.cs:20-31 | copies id, content, date, owner and post, with the given name as author |
| Controllers.CommentToDtoInjective | Blog.Api/Controllers/CommentController.cs:20-31 | equal responses come from comments that agree on every column, and from the same name |
| Controllers.CommentsToDtos | Blog.Api/Controllers/CommentController.cs:38 | fails exactly when some comment has no author; otherwise one response per comment, in order, each mapped with its author's name |
| Controllers.PostFault | Blog.Api/Controllers/PostController.cs:102-113 | not found gives NotFound, not authorised gives Forbid, anything else gives BadRequest, each in both directions |
| Controllers.CreatePostFault | Blog.Api/Controllers/PostController.cs:57-68 | not authorised gives Forbid; every other exception, an ArgumentException included, gives BadRequest |
| Controllers.CommentFault | Blog.Api/Controllers/CommentController.cs:63-74 | not found gives NotFound, not authorised gives Unauthorized, anything else gives BadRequest |
| Controllers.FaultMapsDifferOnlyOnAuthorization | Blog.Api/Controllers/CommentController.cs:89-100 | the post and comment mappings differ on exactly one exception: not authorised, which is Forbid for posts and Unauthorized for comments |
| Controllers.NewPost | Blog.Api/Controllers/PostController.cs:45-52 | the new post has no key yet, the caller as owner, the request's title and content, and the two clock readings |
| Controllers.ReplacementPost | Blog.Api/Controllers/PostController.cs:128-135 | the replacement has the route id, the caller as owner, the request's text, the clock as update date and `DateTime.MinValue` as creation date |
| Controllers.NewComment | Blog.Api/Controllers/CommentController.cs:53-59 | the new comment has no key yet, the caller as owner, the route's post and the request's content |
| Controllers.CreatePostAction | Blog.Api/Controllers/PostController.cs:36-69 | an invalid body is rejected before anything else; Forbid exactly when the claims are unauthorised; Ok exactly when the body is valid, the claims are good and the generated key is new; BadRequest exactly for a bad id claim or a duplicate key; with good claims the result is the repository's insert of the caller's new post, mapped to Ok or a fault; on Ok the post appended is owned by the claims' user and the response carries the caller's name and the generated key; otherwise the table is unchanged |
| Controllers.GetPostByIdAction | Blog.Api/Controllers/PostController.cs:72-89 | NotFound exactly when no post has the id or no user has its `AuthorId`; otherwise Ok of that post's response, with its author's user name and the requested id |
| Controllers.DeletePostByIdAction | Blog.Api/Controllers/PostController.cs:93-114 | claim failures go through the post mapping with no change; otherwise the service's delete, Pass giving NoContent |
| Controllers.UpdatePostAction | Blog.Api/Controllers/PostController.cs:118-152 | an invalid body is rejected first; claim failures go through the post mapping; otherwise the service's update of the replacement post, mapped to Ok or a fault |
| Controllers.GetCommentsByPostIdAction | Blog.Api/Controllers/CommentController.cs:34-39 | Ok or a server error, and Ok exactly when every comment of the post has an author in the users table; then response i is comment i of the post, in table order, mapped with its author's name, and all name that post |
| Controllers.CreateCommentAction | Blog.Api/Controllers/CommentController.cs:43-75 | an invalid body is rejected first; Unauthorized exactly when the claims are unauthorised; NotFound exactly when the claims are good and the post is missing; Ok exactly when the post exists and the generated key is new; BadRequest exactly for a bad id claim or a duplicate key; with good claims the result is the service's create of the caller's new comment, mapped to Ok or a fault; on Ok the comment appended belongs to the caller and the route's post; otherwise the table is unchanged |
| Controllers.DeleteCommentAction | Blog.Api/Controllers/CommentController.cs:80-101 | claim failures go through the comment mapping with no change; otherwise the service's delete, Pass giving NoContent |
| Controllers.CreatedPostIsVisible | Blog.Api/Controllers/PostController.cs:36-89 | after a successful create by a caller known in the users table, reading the generated key answers Ok with the created response |
| Controllers.DtosOfAppend | Blog.Api/Controllers/CommentController.cs:38 | mapping one more comment whose author is known adds exactly its response at the end |
| Controllers.ListingAfterAppend | Blog.Api/Controllers/CommentController.cs:34-39 | when a post's listing is Ok, appending a comment on that post by a known author keeps it Ok and adds exactly that comment's response at the end |
| Controllers.CreatedCommentIsListed | Blog.Api/Controllers/CommentController.cs:34-75 | after a successful create by a known caller, the post's listing answers Ok with the earlier responses followed by the created one |
| Controllers.UpdateThroughControllerTakesOver | Blog.Api/Controllers/PostController.cs:126-137 | with valid claims on an existing id the update succeeds whoever owns the post; the caller becomes its owner, its creation date becomes `DateTime.MinValue`, and the other posts stay |
| Controllers.UpdateThroughControllerNeverForbidden | Blog.Api/Controllers/PostController.cs:126-135 | with valid claims the update is never Forbid: it is Ok exactly when the id is stored and NotFound otherwise |
| Controllers.CreatedPostOwnedByCaller | Blog.Api/Controllers/PostController.cs:44-52 | the stored post's owner is the claims' user, and it is the same whatever the request body says |
| Controllers.AnonymousCallerChangesNothing | Blog.Api/Controllers/PostController.cs:61-64 | the action bodies, given a principal without the name and id claims, answer Forbid for posts and Unauthorized for comments, and no table changes |
| Controllers.OwnerDeletesThroughController | Blog.Api/Controllers/PostController.cs:93-101 | the owner's delete answers NoContent and removes exactly that post |
| Controllers.OthersCannotDeleteThroughController | Blog.Api/Controllers/PostController.cs:106-109 | any other user's delete is Forbid and changes nothing |
| Controllers.DeleteCommentIgnoresRoutePost | Blog.Api/Controllers/CommentController.cs:80-87 | the route's post id takes no part in what is deleted or answered |
| Controllers.AuthorDeletesCommentThroughController | Blog.Api/Controllers/CommentController.cs:80-88 | the comment's author gets NoContent and the comment is gone, all others kept |
| Controllers.PostController.CreatePost | Blog.Api/Controllers/PostController.cs:36-69 | result and new table are those of `CreatePostAction` |
| Controllers.PostController.GetPostById | Blog.Api/Controllers/PostController.cs:72-89 | the result is `GetPostByIdAction` of the stored posts and users |
| Controllers.PostController.DeletePostById | Blog.Api/Controllers/PostController.cs:93-114 | result and new table are those of `DeletePostByIdAction` |
| Controllers.PostController.UpdatePost | Blog.Api/Controllers/PostController.cs:118-152 | result and new table are those of `UpdatePostAction` |
| Controllers.CommentController.GetCommentsByPostId | Blog.Api/Controllers/CommentController.cs:34-39 | the result is `GetCommentsByPostIdAction` of the stored comments and users |
| Controllers.CommentController.CreateComment | Blog.Api/Controllers/CommentController.cs:43-75 | result and new table are those of `CreateCommentAction` |
| Controllers.CommentController.DeleteComment | Blog.Api/Controllers/CommentController.cs:80-101 | result and new table are those of `DeleteCommentAction` |

## Left out

- Asynchrony is not modelled: every `async` call is an ordinary call. Interleaved requests, and the race between a service's check and its change, are not modelled either.
- Entity Framework is replaced by tables held in memory:
  - `SaveChangesAsync` is an all-or-nothing step.
  - Only two storage failures are modelled: an `Add` with a key that is already stored, and an `Update` of a non-empty key that is not stored. Both surface as the "other" error.
  - Queries never fail.
  - Cascade deletes and foreign-key checks are not modelled.
  - Change tracking is not modelled. `CreatePost` mapping the entity it passed in is modelled as mapping the entity the repository returns, since Entity Framework writes the generated key into that same object.
- Repositories.ReplacePost: an `Update` of a post whose key is the empty Guid makes Entity Framework track it as new and insert it under a generated key. The model reports the "other" error instead. Through `PostService.UpdatePostAsync` this case is not reached unless a post with the empty key is stored, because the service first answers NotFound for an id that is not stored.
- Query.Remove: Entity Framework's `Remove` deletes the row with the entity's key; the model deletes the first row equal to the entity. Through the services the entity passed is always the row just read by that key, so both delete the same row.
- `Include(p => p.Author)` is modelled as a lookup of `AuthorId` in a users table (`Repositories.UserNameOf`). That table is fixed: registering users is not part of this model, and neither are foreign-key checks, so a row may name a user who is absent.
- A null `UserName` on a loaded `Author` is not modelled.
- Controllers.GetPostByIdAction: the `catch` that turns an exception into BadRequest is never reached, because queries never fail in the model.
- Guids.Parse: accepts only the "D" and "N" formats. Left out are the "B", "P" and "X" formats, surrounding whitespace, and the lenient "D" forms .NET also accepts, in which a hyphen-separated group may begin with "+" or "0x"/"0X" (so `Guid.Parse("+1234567-0000-0000-0000-000000000000")` succeeds in .NET but fails in the model). The claims this system issues never use any of them.
- `DateTime.Now` and `DateTime` values are opaque integers. The clock and the generated keys are inputs.
- The `[Authorize]` attribute on CreatePost, DeletePostById and UpdatePost (Blog.Api/Controllers/PostController.cs:35, 92, 117) and on CreateComment and DeleteComment (Blog.Api/Controllers/CommentController.cs:42, 79) is not modelled. In ASP.NET Core it answers an anonymous request with a 401 challenge before the action runs. The model describes the action bodies, so what it says about a missing claim applies to an authenticated principal that lacks the claims, or to the action called directly.
- JwtService, the token middleware, AuthController and AuthorController are not part of this model. Neither is the database context wiring, because none of them decides ownership. Where a token's claims come from is not modelled: the model starts from the claim list.
- Model-state validation (`[Required]`) is a boolean input.
- ASP.NET Core's rendering of results into responses is not modelled. In particular, the 500 error that `GetCommentsByPostId` raises for a comment without an author happens during serialization of the lazy `Select`. The model records it as the action's result.
