/**
 * The interaction service (PostInteractionController): the posts, comments
 * and likes tables and the uploaded files, changed in place by six handlers.
 * Every handler takes the authenticated user explicitly; the route-model
 * binding and `findOrFail` lookups become NotFound results, `abort(403)` and
 * the 403 reply become Forbidden, and failed request validation becomes
 * ValidationError.
 */
module Interaction {
  import opened Records
  import opened Seqs
  import opened Text
  import opened UploadFolder
  import opened Likes

  datatype Error = ValidationError | NotFound | Forbidden

  datatype Result<+T> = Ok(value: T) | Err(error: Error)

  /** The body of a successful like reply. */
  datatype LikeReply = LikeReply(likes: nat, liked: bool)

  /** An uploaded image: the file name the framework generates when it stores it. */
  datatype Upload = Upload(fileName: string)

  /** A created post as returned, with its author and its (empty) comments loaded. */
  datatype StoredPost = StoredPost(post: Post, user: Option<User>, comments: seq<Comment>)

  /** The `max:1000` bound on a caption or a comment. */
  const MAX_LENGTH: nat := 1000

  /** The `required|string|max:1000` rule. */
  function ValidText(s: string): (ok: bool)
    ensures ok ==> 1 <= |s| <= MAX_LENGTH
  {
    Required(s) && |s| <= MAX_LENGTH
  }

  /** PHP truthiness of a string: neither empty nor "0". */
  function PhpTruthy(s: string): (ok: bool)
    ensures ok ==> |s| >= 1
    ensures s == "0" ==> !ok
  {
    s != "" && s != "0"
  }

  function NotOnPost(p: PostId): Comment -> bool {
    (c: Comment) => c.postId != p
  }

  function LikeNotOnPost(p: PostId): Like -> bool {
    (l: Like) => l.postId != p
  }

  function CommentIdIsNot(id: CommentId): Comment -> bool {
    (c: Comment) => c.id != id
  }

  /** Comment ids grow with table order (auto-increment), so they are distinct. */
  ghost predicate IdsIncreasing(cs: seq<Comment>) {
    forall i, j | 0 <= i < j < |cs| :: cs[i].id < cs[j].id
  }

  /** The position of the comment with primary key `id` (`Comment::find`). */
  function CommentIndex(cs: seq<Comment>, id: CommentId): (k: Option<nat>)
    ensures k.Some? ==> k.value < |cs| && cs[k.value].id == id
    ensures k.None? ==> forall i | 0 <= i < |cs| :: cs[i].id != id
  {
    if cs == [] then None
    else if cs[0].id == id then Some(0)
    else match CommentIndex(cs[1..], id)
      case Some(k) => Some(k + 1)
      case None => None
  }

  /** The files left after deleting a post with image `url`: `url` is released when it is truthy and present. */
  function ReleaseImage(files: set<string>, url: Option<string>): (r: set<string>)
    ensures r <= files && files - r <= (if url.Some? then {url.value} else {})
    ensures url.Some? && PhpTruthy(url.value) ==> url.value !in r
    ensures url.None? || !PhpTruthy(url.value) ==> r == files
  {
    if url.Some? && PhpTruthy(url.value) && url.value in files then files - {url.value} else files
  }

  lemma {:induction false} FilterKeepsIdsIncreasing(cs: seq<Comment>, keep: Comment -> bool)
    requires IdsIncreasing(cs)
    ensures IdsIncreasing(Filter(cs, keep))
  {
    if cs != [] {
      var rest := cs[1..];
      FilterKeepsIdsIncreasing(rest, keep);
      forall x | x in Filter(rest, keep) ensures cs[0].id < x.id {
        var k :| 0 <= k < |rest| && rest[k] == x;
        assert rest[k] == cs[k + 1];
      }
    }
  }

  /**
   * The integrity of the tables: posts are keyed by their id, every comment
   * and like points at an existing post (the foreign keys), comment ids follow
   * insertion order, and the likes table has at most one row per pair.
   */
  ghost predicate Tables(users: map<UserId, User>, posts: map<PostId, Post>, comments: seq<Comment>,
                         likes: seq<Like>, nextPostId: PostId, nextCommentId: CommentId)
  {
    && UsersKeyed(users)
    && (forall id | id in posts :: posts[id].id == id && id < nextPostId)
    && (forall c | c in comments :: c.postId in posts && c.id < nextCommentId)
    && IdsIncreasing(comments)
    && (forall l | l in likes :: l.postId in posts)
    && Unique(likes)
  }

  /** Deleting a post together with its comments and likes keeps the tables consistent and leaves no row pointing at it. */
  lemma DeleteKeepsTables(users: map<UserId, User>, posts: map<PostId, Post>, comments: seq<Comment>,
                          likes: seq<Like>, nextPostId: PostId, nextCommentId: CommentId, id: PostId)
    requires Tables(users, posts, comments, likes, nextPostId, nextCommentId)
    ensures Tables(users, posts - {id}, Filter(comments, NotOnPost(id)), Filter(likes, LikeNotOnPost(id)), nextPostId, nextCommentId)
    ensures forall c | c in Filter(comments, NotOnPost(id)) :: c.postId != id
    ensures forall l | l in Filter(likes, LikeNotOnPost(id)) :: l.postId != id
  {
    FilterKeepsIdsIncreasing(comments, NotOnPost(id));
    FilterUnique(likes, LikeNotOnPost(id));
  }

  /**
   * Deleting the comment at position `k` by its id removes exactly that row,
   * since ids are distinct, and keeps the tables consistent.
   */
  lemma DeleteCommentKeepsTables(users: map<UserId, User>, posts: map<PostId, Post>, comments: seq<Comment>,
                                 likes: seq<Like>, nextPostId: PostId, nextCommentId: CommentId, k: nat)
    requires Tables(users, posts, comments, likes, nextPostId, nextCommentId)
    requires k < |comments|
    ensures Filter(comments, CommentIdIsNot(comments[k].id)) == comments[..k] + comments[k + 1..]
    ensures Tables(users, posts, Filter(comments, CommentIdIsNot(comments[k].id)), likes, nextPostId, nextCommentId)
  {
    var id := comments[k].id;
    assert IdsIncreasing(comments);
    forall i | 0 <= i < |comments| && i != k ensures CommentIdIsNot(id)(comments[i]) {
      if i < k {
        assert comments[i].id < comments[k].id;
      } else {
        assert comments[k].id < comments[i].id;
      }
    }
    FilterDropsOne(comments, CommentIdIsNot(id), k);
    FilterKeepsIdsIncreasing(comments, CommentIdIsNot(id));
  }

  /** Toggling a like on an existing post keeps the tables consistent. */
  lemma ToggleKeepsTables(users: map<UserId, User>, posts: map<PostId, Post>, comments: seq<Comment>,
                          likes: seq<Like>, nextPostId: PostId, nextCommentId: CommentId, like: Like)
    requires Tables(users, posts, comments, likes, nextPostId, nextCommentId)
    requires like.postId in posts
    ensures Tables(users, posts, comments, Toggle(likes, like), nextPostId, nextCommentId)
  {
    ToggleFlips(likes, like);
    ToggleMembers(likes, like);
  }

  class Store {
    /** The users table, maintained by the identity provider. */
    var users: map<UserId, User>
    var posts: map<PostId, Post>
    var comments: seq<Comment>
    var likes: seq<Like>
    /** The paths present on the public storage disk. */
    var files: set<string>
    var nextPostId: PostId
    var nextCommentId: CommentId

    ghost predicate Valid()
      reads this
    {
      Tables(users, posts, comments, likes, nextPostId, nextCommentId)
    }

    /** `actor` is the user the framework authenticated for the request. */
    predicate Authenticated(actor: User)
      reads this
    {
      actor.id in users && users[actor.id] == actor
    }

    constructor (users: map<UserId, User>)
      requires UsersKeyed(users)
      ensures Valid()
      ensures this.users == users && posts == map[] && comments == [] && likes == [] && files == {}
    {
      this.users := users;
      posts, comments, likes, files := map[], [], [], {};
      nextPostId, nextCommentId := 1, 1;
    }

    /** `store`: validate, put the image in the user's folder, insert the post. */
    method StorePost(actor: User, content: string, image: Option<Upload>, now: int) returns (r: Result<StoredPost>)
      requires Valid() && Authenticated(actor)
      modifies this`posts, this`files, this`nextPostId
      ensures Valid()
      ensures !ValidText(content) || image.None? ==>
        r == Err(ValidationError) && posts == old(posts) && files == old(files) && nextPostId == old(nextPostId)
      ensures ValidText(content) && image.Some? ==>
        var path := StoredPath(Folder(actor.id, actor.name), image.value.fileName);
        var post := Post(old(nextPostId), actor.id, content, Some(path), now);
        && old(nextPostId) !in old(posts)
        && r == Ok(StoredPost(post, Some(actor), []))
        && posts == old(posts)[post.id := post]
        && files == old(files) + {path}
        && nextPostId == old(nextPostId) + 1
    {
      if !ValidText(content) || image.None? {
        return Err(ValidationError);
      }
      var username := SanitizeName(actor.name);
      var folder := "posts/" + Decimal(actor.id) + "-" + username;
      var path := StoredPath(folder, image.value.fileName);
      files := files + {path};
      var post := Post(nextPostId, actor.id, content, Some(path), now);
      posts := posts[nextPostId := post];
      nextPostId := nextPostId + 1;
      r := Ok(StoredPost(post, Some(users[actor.id]), []));
    }

    /** `updateCaption`: validate, look the post up, check ownership, replace the content. */
    method UpdateCaption(actor: User, id: PostId, content: string) returns (r: Result<Post>)
      requires Valid()
      modifies this`posts
      ensures Valid()
      ensures !Required(content) ==> r == Err(ValidationError) && posts == old(posts)
      ensures Required(content) && id !in old(posts) ==> r == Err(NotFound) && posts == old(posts)
      ensures Required(content) && id in old(posts) && !IsOwner(actor, old(posts)[id].userId) ==>
        r == Err(Forbidden) && posts == old(posts)
      ensures Required(content) && id in old(posts) && IsOwner(actor, old(posts)[id].userId) ==>
        && r == Ok(old(posts)[id].(content := content))
        && posts == old(posts)[id := r.value]
    {
      if !Required(content) {
        return Err(ValidationError);
      }
      if id !in posts {
        return Err(NotFound);
      }
      var post := posts[id];
      if !IsOwner(actor, post.userId) {
        return Err(Forbidden);
      }
      post := post.(content := content);
      posts := posts[id := post];
      r := Ok(post);
    }

    /** `destroy`: look up, check ownership, release the image, delete the post with its comments and likes. */
    method Destroy(actor: User, id: PostId) returns (r: Result<()>)
      requires Valid()
      modifies this`posts, this`comments, this`likes, this`files
      ensures Valid()
      ensures id !in old(posts) ==>
        r == Err(NotFound) && posts == old(posts) && comments == old(comments) && likes == old(likes) && files == old(files)
      ensures id in old(posts) && !IsOwner(actor, old(posts)[id].userId) ==>
        r == Err(Forbidden) && posts == old(posts) && comments == old(comments) && likes == old(likes) && files == old(files)
      ensures id in old(posts) && IsOwner(actor, old(posts)[id].userId) ==>
        && r == Ok(())
        && posts == old(posts) - {id}
        && comments == Filter(old(comments), NotOnPost(id))
        && likes == Filter(old(likes), LikeNotOnPost(id))
        && files == ReleaseImage(old(files), old(posts)[id].imageUrl)
        && (forall c | c in comments :: c.postId != id)
        && (forall l | l in likes :: l.postId != id)
    {
      if id !in posts {
        return Err(NotFound);
      }
      var post := posts[id];
      if !IsOwner(actor, post.userId) {
        return Err(Forbidden);
      }
      if post.imageUrl.Some? && PhpTruthy(post.imageUrl.value) && post.imageUrl.value in files {
        files := files - {post.imageUrl.value};
      }
      DeleteKeepsTables(users, posts, comments, likes, nextPostId, nextCommentId, id);
      posts := posts - {id};
      comments := Filter(comments, NotOnPost(id));
      likes := Filter(likes, LikeNotOnPost(id));
      r := Ok(());
    }

    /** `like`: toggle the actor's row in one atomic step, then report the count and the actor's state. */
    method ToggleLike(actor: User, postId: PostId) returns (r: Result<LikeReply>)
      requires Valid()
      modifies this`likes
      ensures Valid()
      ensures postId !in posts ==> r == Err(NotFound) && likes == old(likes)
      ensures postId in posts ==>
        var like := Like(postId, actor.id);
        && likes == Toggle(old(likes), like)
        && r == Ok(LikeReply(CountFor(likes, postId), like in likes))
        && r.value.liked == (like !in old(likes))
        && r.value.likes == (if r.value.liked then CountFor(old(likes), postId) + 1 else CountFor(old(likes), postId) - 1)
        && (forall l | l != like :: multiset(likes)[l] == multiset(old(likes))[l])
    {
      if postId !in posts {
        return Err(NotFound);
      }
      var like := Like(postId, actor.id);
      ghost var before := likes;
      if like in likes {
        var i := IndexOf(likes, like);
        likes := likes[..i] + likes[i + 1..];
      } else {
        likes := likes + [like];
      }
      assert likes == Toggle(before, like);
      ToggleKeepsTables(users, posts, comments, before, nextPostId, nextCommentId, like);
      ToggleFlips(before, like);
      ToggleCount(before, like, postId);
      ToggleRows(before, like);
      r := Ok(LikeReply(CountFor(likes, postId), like in likes));
    }

    /** `comment`: look the post up, validate, insert the comment and echo it with the author's name. */
    method AddComment(actor: User, postId: PostId, text: string) returns (r: Result<CommentView>)
      requires Valid()
      modifies this`comments, this`nextCommentId
      ensures Valid()
      ensures postId !in posts ==>
        r == Err(NotFound) && comments == old(comments) && nextCommentId == old(nextCommentId)
      ensures postId in posts && !ValidText(text) ==>
        r == Err(ValidationError) && comments == old(comments) && nextCommentId == old(nextCommentId)
      ensures postId in posts && ValidText(text) ==>
        && comments == old(comments) + [Comment(old(nextCommentId), postId, actor.id, text)]
        && r == Ok(CommentView(old(nextCommentId), actor.name, Some(actor.id), text))
        && nextCommentId == old(nextCommentId) + 1
    {
      if postId !in posts {
        return Err(NotFound);
      }
      if !ValidText(text) {
        return Err(ValidationError);
      }
      var comment := Comment(nextCommentId, postId, actor.id, text);
      comments := comments + [comment];
      nextCommentId := nextCommentId + 1;
      r := Ok(CommentView(comment.id, actor.name, Some(actor.id), comment.text));
    }

    /**
     * `deleteComment`: look the comment up by its id alone, check that the
     * actor wrote it, delete exactly that row. The post id of the route is
     * not consulted.
     */
    method DeleteComment(actor: User, postId: PostId, commentId: CommentId) returns (r: Result<()>)
      requires Valid()
      modifies this`comments
      ensures Valid()
      ensures CommentIndex(old(comments), commentId).None? ==> r == Err(NotFound) && comments == old(comments)
      ensures CommentIndex(old(comments), commentId).Some? ==>
        var k := CommentIndex(old(comments), commentId).value;
        && (!IsOwner(actor, old(comments)[k].userId) ==> r == Err(Forbidden) && comments == old(comments))
        && (IsOwner(actor, old(comments)[k].userId) ==>
              && r == Ok(())
              && comments == Filter(old(comments), CommentIdIsNot(commentId))
              && comments == old(comments)[..k] + old(comments)[k + 1..])
    {
      var found := CommentIndex(comments, commentId);
      if found.None? {
        return Err(NotFound);
      }
      var k := found.value;
      if !IsOwner(actor, comments[k].userId) {
        return Err(Forbidden);
      }
      DeleteCommentKeepsTables(users, posts, comments, likes, nextPostId, nextCommentId, k);
      comments := Filter(comments, CommentIdIsNot(commentId));
      r := Ok(());
    }
  }
}
