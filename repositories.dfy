/**
 * PostRepository and CommentRepository over an in-memory table. A table is a `seq` in
 * enumeration order whose entries have unique ids (the primary key). The first half
 * of this module gives the table operations as functions; the classes below apply them
 * to the `posts` and `comments` fields they update in place.
 */
module Repositories {
  import opened Wrappers
  import opened Guids
  import opened Entities
  import Query

  // ----- The users table -----

  /**
   * What `Include(p => p.Author)` loads for a row owned by `authorId`: the user name of the
   * user with that key, or `None` (a null `Author`) when the users table has no such user.
   */
  function UserNameOf(users: seq<ApplicationUser>, authorId: Guid): (r: Option<string>)
    ensures r.None? <==> forall i :: 0 <= i < |users| ==> users[i].id != authorId
    ensures r.Some? ==> exists i :: 0 <= i < |users| && users[i].id == authorId && users[i].userName == r.value
  {
    match Query.FirstOrDefault(users, (u: ApplicationUser) => u.id == authorId)
    case None => None
    case Some(u) => Some(u.userName)
  }

  // ----- The posts table -----

  ghost predicate UniquePostIds(posts: seq<Post>)
  {
    Query.UniqueKeys(posts, PostKey)
  }

  function PostById(posts: seq<Post>, id: Guid): Option<Post>
  {
    Query.FirstOrDefault(posts, (p: Post) => p.id == id)
  }

  function HasPost(posts: seq<Post>, id: Guid): bool
  {
    Query.Any(posts, (p: Post) => p.id == id)
  }

  function PostsByAuthor(posts: seq<Post>, authorId: Guid): seq<Post>
  {
    Query.Where(posts, (p: Post) => p.authorId == authorId)
  }

  /** On `Add`, an entity whose key is `Guid.Empty` is given a generated key; any other keeps its own. */
  function WithGeneratedPostKey(post: Post, generatedId: Guid): Post
  {
    if post.id == Empty then post.(id := generatedId) else post
  }

  /**
   * `Posts.Add(post)` then `SaveChangesAsync()`: the entity is appended and returned; a key
   * that is already stored makes the save fail, which leaves the table as it was.
   */
  function InsertPost(posts: seq<Post>, post: Post, generatedId: Guid): (res: (Result<Post, Error>, seq<Post>))
    ensures res.0.Success? <==> !HasPost(posts, WithGeneratedPostKey(post, generatedId).id)
    ensures res.0.Success? ==> res.1 == posts + [res.0.value]
    ensures res.0.Success? && post.id != Empty ==> res.0.value == post
    ensures res.0.Success? && post.id == Empty ==> res.0.value == post.(id := generatedId)
    ensures res.0.Failure? ==> res.0.error == OtherError && res.1 == posts
    ensures UniquePostIds(posts) ==> UniquePostIds(res.1)
  {
    var stored := WithGeneratedPostKey(post, generatedId);
    if HasPost(posts, stored.id) then (Failure(OtherError), posts)
    else (Success(stored), posts + [stored])
  }

  /**
   * `Posts.Update(post)` then `SaveChangesAsync()`: the stored entity with `post`'s key is
   * overwritten by `post`, every column included; when no entity has that key no row is
   * updated and the save fails.
   */
  function ReplacePost(posts: seq<Post>, post: Post): (res: (Result<Post, Error>, seq<Post>))
    ensures res.0.Success? <==> HasPost(posts, post.id)
    ensures res.0.Success? ==> res.0.value == post && PostById(res.1, post.id) == Some(post)
    ensures res.0.Failure? ==> res.0.error == OtherError && res.1 == posts
    ensures |res.1| == |posts|
    ensures UniquePostIds(posts) ==>
      UniquePostIds(res.1) &&
      forall k :: 0 <= k < |posts| ==> res.1[k] == if posts[k].id == post.id then post else posts[k]
  {
    match Query.FirstIndex(posts, (p: Post) => p.id == post.id)
    case None => (Failure(OtherError), posts)
    case Some(i) =>
      var updated := posts[i := post];
      assert updated[i] == post;
      (Success(post), updated)
  }

  class PostRepository {
    /** The `Posts` table. */
    var posts: seq<Post>
    /** The users table of the same database, which the reads join to load `Author`; nothing here changes it. */
    var users: seq<ApplicationUser>

    ghost predicate Valid()
      reads this
    {
      UniquePostIds(posts)
    }

    constructor(rows: seq<Post>, users: seq<ApplicationUser>)
      requires UniquePostIds(rows)
      ensures Valid() && posts == rows && this.users == users
    {
      posts := rows;
      this.users := users;
    }

    method CreatePost(post: Post, generatedId: Guid) returns (r: Result<Post, Error>)
      requires Valid()
      modifies this
      ensures Valid() && users == old(users)
      ensures (r, posts) == InsertPost(old(posts), post, generatedId)
    {
      var stored := WithGeneratedPostKey(post, generatedId);
      if HasPost(posts, stored.id) {
        r := Failure(OtherError);
      } else {
        posts := posts + [stored];
        r := Success(stored);
      }
    }

    /** `Posts.Remove(post)`: the entry equal to `post` is dropped; an absent post is no error. */
    method DeletePost(post: Post)
      requires Valid()
      modifies this
      ensures Valid() && users == old(users)
      ensures posts == Query.Remove(old(posts), post)
      ensures post !in posts
      ensures forall q :: q in old(posts) && q.id != post.id ==> q in posts
    {
      Query.RemoveUnique(posts, post, PostKey);
      posts := Query.Remove(posts, post);
    }

    function GetAllPosts(): (r: seq<Post>)
      reads this
      ensures r == posts
    {
      posts
    }

    /** The first post with key `id`, or `None` (null). */
    function GetPostById(id: Guid): (r: Option<Post>)
      reads this
      ensures r.None? <==> forall i :: 0 <= i < |posts| ==> posts[i].id != id
      ensures r.Some? ==> r.value.id == id
      ensures r.Some? ==> exists i :: 0 <= i < |posts| && posts[i] == r.value && forall j :: 0 <= j < i ==> posts[j].id != id
    {
      PostById(posts, id)
    }

    /** The posts whose owner is `authorId`, in table order. */
    function GetPostsByAuthor(authorId: Guid): (r: seq<Post>)
      reads this
      ensures forall p :: p in r ==> p in posts && p.authorId == authorId
      ensures forall p :: p in posts && p.authorId == authorId ==> p in r
      ensures forall p :: p in posts ==> multiset(r)[p] == if p.authorId == authorId then multiset(posts)[p] else 0
      ensures r == [] <==> forall i :: 0 <= i < |posts| ==> posts[i].authorId != authorId
    {
      PostsByAuthor(posts, authorId)
    }

    method UpdatePost(post: Post) returns (r: Result<Post, Error>)
      requires Valid()
      modifies this
      ensures Valid() && users == old(users)
      ensures (r, posts) == ReplacePost(old(posts), post)
    {
      var res := ReplacePost(posts, post);
      r, posts := res.0, res.1;
    }

    function PostExists(id: Guid): (r: bool)
      reads this
      ensures r <==> exists i :: 0 <= i < |posts| && posts[i].id == id
    {
      HasPost(posts, id)
    }
  }

  // ----- The comments table -----

  ghost predicate UniqueCommentIds(comments: seq<Comment>)
  {
    Query.UniqueKeys(comments, CommentKey)
  }

  function CommentById(comments: seq<Comment>, id: Guid): Option<Comment>
  {
    Query.FirstOrDefault(comments, (c: Comment) => c.id == id)
  }

  function HasComment(comments: seq<Comment>, id: Guid): bool
  {
    Query.Any(comments, (c: Comment) => c.id == id)
  }

  function CommentsByPost(comments: seq<Comment>, postId: Guid): seq<Comment>
  {
    Query.Where(comments, (c: Comment) => c.postId == postId)
  }

  function CommentsByAuthor(comments: seq<Comment>, authorId: Guid): seq<Comment>
  {
    Query.Where(comments, (c: Comment) => c.authorId == authorId)
  }

  function WithGeneratedCommentKey(comment: Comment, generatedId: Guid): Comment
  {
    if comment.id == Empty then comment.(id := generatedId) else comment
  }

  /** `Comments.Add(comment)` then `SaveChangesAsync()`, as for posts. */
  function InsertComment(comments: seq<Comment>, comment: Comment, generatedId: Guid): (res: (Result<Comment, Error>, seq<Comment>))
    ensures res.0.Success? <==> !HasComment(comments, WithGeneratedCommentKey(comment, generatedId).id)
    ensures res.0.Success? ==> res.1 == comments + [res.0.value]
    ensures res.0.Success? && comment.id != Empty ==> res.0.value == comment
    ensures res.0.Success? && comment.id == Empty ==> res.0.value == comment.(id := generatedId)
    ensures res.0.Failure? ==> res.0.error == OtherError && res.1 == comments
    ensures UniqueCommentIds(comments) ==> UniqueCommentIds(res.1)
  {
    var stored := WithGeneratedCommentKey(comment, generatedId);
    if HasComment(comments, stored.id) then (Failure(OtherError), comments)
    else (Success(stored), comments + [stored])
  }

  class CommentRepository {
    /** The `Comments` table. */
    var comments: seq<Comment>
    /** The users table of the same database, which the reads join to load `Author`; nothing here changes it. */
    var users: seq<ApplicationUser>

    ghost predicate Valid()
      reads this
    {
      UniqueCommentIds(comments)
    }

    constructor(rows: seq<Comment>, users: seq<ApplicationUser>)
      requires UniqueCommentIds(rows)
      ensures Valid() && comments == rows && this.users == users
    {
      comments := rows;
      this.users := users;
    }

    method CreateComment(comment: Comment, generatedId: Guid) returns (r: Result<Comment, Error>)
      requires Valid()
      modifies this
      ensures Valid() && users == old(users)
      ensures (r, comments) == InsertComment(old(comments), comment, generatedId)
    {
      var stored := WithGeneratedCommentKey(comment, generatedId);
      if HasComment(comments, stored.id) {
        r := Failure(OtherError);
      } else {
        comments := comments + [stored];
        r := Success(stored);
      }
    }

    /** The first comment with key `id`, or `None` (null). */
    function GetCommentById(id: Guid): (r: Option<Comment>)
      reads this
      ensures r.None? <==> forall i :: 0 <= i < |comments| ==> comments[i].id != id
      ensures r.Some? ==> r.value.id == id
      ensures r.Some? ==> exists i :: 0 <= i < |comments| && comments[i] == r.value && forall j :: 0 <= j < i ==> comments[j].id != id
    {
      CommentById(comments, id)
    }

    /** `Comments.Remove(comment)`: the entry equal to `comment` is dropped; an absent one is no error. */
    method DeleteComment(comment: Comment)
      requires Valid()
      modifies this
      ensures Valid() && users == old(users)
      ensures comments == Query.Remove(old(comments), comment)
      ensures comment !in comments
      ensures forall c :: c in old(comments) && c.id != comment.id ==> c in comments
    {
      Query.RemoveUnique(comments, comment, CommentKey);
      comments := Query.Remove(comments, comment);
    }

    /** The comments on post `postId`, in table order. */
    function GetCommentsByPost(postId: Guid): (r: seq<Comment>)
      reads this
      ensures forall c :: c in r ==> c in comments && c.postId == postId
      ensures forall c :: c in comments && c.postId == postId ==> c in r
      ensures forall c :: c in comments ==> multiset(r)[c] == if c.postId == postId then multiset(comments)[c] else 0
      ensures r == [] <==> forall i :: 0 <= i < |comments| ==> comments[i].postId != postId
    {
      CommentsByPost(comments, postId)
    }

    /** The comments whose owner is `authorId`, in table order. */
    function GetCommentsByAuthor(authorId: Guid): (r: seq<Comment>)
      reads this
      ensures forall c :: c in r ==> c in comments && c.authorId == authorId
      ensures forall c :: c in comments && c.authorId == authorId ==> c in r
      ensures forall c :: c in comments ==> multiset(r)[c] == if c.authorId == authorId then multiset(comments)[c] else 0
      ensures r == [] <==> forall i :: 0 <= i < |comments| ==> comments[i].authorId != authorId
    {
      CommentsByAuthor(comments, authorId)
    }

    function CommentExists(id: Guid): (r: bool)
      reads this
      ensures r <==> exists i :: 0 <= i < |comments| && comments[i].id == id
    {
      HasComment(comments, id)
    }
  }
}
