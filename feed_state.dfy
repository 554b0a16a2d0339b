/**
 * The browser's copy of the feed (resources/js/hooks/use-post.tsx): a list
 * of view records replaced through `setPosts` after each successful server
 * reply. The updates are pure list expressions; the hook object holds the
 * list and applies them. The request itself is I/O: each method receives the
 * reply the server sent.
 */
module FeedState {
  import opened Records
  import opened Seqs
  import opened Text
  import Interaction

  /** What came back for a request: the parsed success body, a failure body, or an exception. */
  datatype Reply<+T> = Accepted(data: T) | Rejected(message: Option<string>) | Thrown

  /** The `{ success, message }` object `createPost` resolves to. */
  datatype Outcome = Outcome(success: bool, message: string)

  const NEW_POST_AVATAR: string := "https://cdn-icons-png.flaticon.com/512/6596/6596121.png"
  const CREATED_MESSAGE: string := "Posting berhasil dibuat."
  const CREATE_FAILED_MESSAGE: string := "Gagal membuat posting."
  const NETWORK_ERROR_MESSAGE: string := "Terjadi kesalahan jaringan atau server."

  /** JavaScript truthiness of a nullable string. */
  function Truthy(s: Option<string>): (ok: bool)
    ensures ok ==> s.Some? && |s.value| >= 1
    ensures s == Some("0") ==> ok
  {
    s.Some? && s.value != ""
  }

  /** `prev.map(p => p.id === id ? f(p) : p)`. */
  function UpdateWhere(posts: seq<PostView>, id: PostId, f: PostView -> PostView): (r: seq<PostView>)
    ensures |r| == |posts|
    ensures forall i | 0 <= i < |posts| :: r[i] == if posts[i].id == id then f(posts[i]) else posts[i]
  {
    if posts == [] then [] else [if posts[0].id == id then f(posts[0]) else posts[0]] + UpdateWhere(posts[1..], id, f)
  }

  function PostIdIsNot(id: PostId): PostView -> bool {
    (p: PostView) => p.id != id
  }

  function CommentIdIsNot(id: CommentId): CommentView -> bool {
    (c: CommentView) => c.id != id
  }

  function WithContent(content: string): PostView -> PostView {
    (p: PostView) => p.(content := content)
  }

  function WithLike(liked: bool, likes: nat): PostView -> PostView {
    (p: PostView) => p.(liked := liked, likes := likes)
  }

  function WithCommentAdded(c: CommentView): PostView -> PostView {
    (p: PostView) => p.(comments := p.comments + [c])
  }

  function WithCommentRemoved(id: CommentId): PostView -> PostView {
    (p: PostView) => p.(comments := Filter(p.comments, CommentIdIsNot(id)))
  }

  /** The record `createPost` builds from the created post it gets back. */
  function NewPost(reply: Interaction.StoredPost, origin: string): (p: PostView)
    ensures p.id == reply.post.id && p.content == reply.post.content && p.userId == Some(reply.post.userId)
    ensures p.likes == 0 && !p.liked && p.comments == []
    ensures !Truthy(reply.post.imageUrl) ==> p.image == None
    ensures Truthy(reply.post.imageUrl) ==> p.image == Some(origin + "/storage/" + reply.post.imageUrl.value)
    ensures reply.user.Some? ==> p.user == reply.user.value.name
    ensures reply.user.None? ==> p.user == UNKNOWN
  {
    PostView(
      reply.post.id,
      if reply.user.Some? then reply.user.value.name else UNKNOWN,
      NEW_POST_AVATAR,
      reply.post.content,
      if Truthy(reply.post.imageUrl) then Some(origin + "/storage/" + reply.post.imageUrl.value) else None,
      0, false, [], Some(reply.post.userId))
  }

  /** `[newPost, ...prev]`: the new post first, the old list after it unchanged. */
  function Prepend(posts: seq<PostView>, p: PostView): (r: seq<PostView>)
    ensures |r| == |posts| + 1 && r[0] == p && r[1..] == posts
  {
    [p] + posts
  }

  /** The caption update: only the content of posts with this id changes. */
  function EditContent(posts: seq<PostView>, id: PostId, content: string): (r: seq<PostView>)
    ensures |r| == |posts|
    ensures forall i | 0 <= i < |posts| && posts[i].id == id :: r[i] == posts[i].(content := content)
    ensures forall i | 0 <= i < |posts| && posts[i].id != id :: r[i] == posts[i]
  {
    UpdateWhere(posts, id, WithContent(content))
  }

  /** The like update: only `liked` and `likes` of posts with this id change. */
  function SetLike(posts: seq<PostView>, id: PostId, liked: bool, likes: nat): (r: seq<PostView>)
    ensures |r| == |posts|
    ensures forall i | 0 <= i < |posts| && posts[i].id == id :: r[i] == posts[i].(liked := liked, likes := likes)
    ensures forall i | 0 <= i < |posts| && posts[i].id != id :: r[i] == posts[i]
  {
    UpdateWhere(posts, id, WithLike(liked, likes))
  }

  /** The comment append: posts with this id get `c` as their last comment; nothing else changes. */
  function AppendComment(posts: seq<PostView>, id: PostId, c: CommentView): (r: seq<PostView>)
    ensures |r| == |posts|
    ensures forall i | 0 <= i < |posts| && posts[i].id == id ::
      r[i] == posts[i].(comments := posts[i].comments + [c])
    ensures forall i | 0 <= i < |posts| && posts[i].id == id ::
      |r[i].comments| == |posts[i].comments| + 1 && r[i].comments[|posts[i].comments|] == c
    ensures forall i | 0 <= i < |posts| && posts[i].id != id :: r[i] == posts[i]
  {
    UpdateWhere(posts, id, WithCommentAdded(c))
  }

  /** The comment removal: posts with this id lose their comments with id `cid`; nothing else changes. */
  function RemoveComment(posts: seq<PostView>, id: PostId, cid: CommentId): (r: seq<PostView>)
    ensures |r| == |posts|
    ensures forall i | 0 <= i < |posts| && posts[i].id == id ::
      && r[i] == posts[i].(comments := r[i].comments)
      && (forall c :: c in r[i].comments <==> c in posts[i].comments && c.id != cid)
    ensures forall i | 0 <= i < |posts| && posts[i].id != id :: r[i] == posts[i]
  {
    UpdateWhere(posts, id, WithCommentRemoved(cid))
  }

  /** The post removal: every post with this id goes, the others stay in order. */
  function RemovePost(posts: seq<PostView>, id: PostId): (r: seq<PostView>)
    ensures forall p | p in r :: p.id != id
    ensures forall p | p in posts && p.id != id :: p in r
    ensures forall p | p in r :: p in posts
  {
    Filter(posts, PostIdIsNot(id))
  }

  /** Removing posts keeps the relative order of the rest: it works piece by piece. */
  lemma RemovePostKeepsOrder(a: seq<PostView>, b: seq<PostView>, id: PostId)
    ensures RemovePost(a + b, id) == RemovePost(a, id) + RemovePost(b, id)
  {
    FilterAppend(a, b, PostIdIsNot(id));
  }

  /** Removing a post that is not in the list changes nothing, and removing twice is removing once. */
  lemma RemovePostAbsent(posts: seq<PostView>, id: PostId)
    ensures (forall i | 0 <= i < |posts| :: posts[i].id != id) ==> RemovePost(posts, id) == posts
    ensures RemovePost(RemovePost(posts, id), id) == RemovePost(posts, id)
  {
    if forall i | 0 <= i < |posts| :: posts[i].id != id {
      FilterKeepsAll(posts, PostIdIsNot(id));
    }
    FilterIdempotent(posts, PostIdIsNot(id));
  }

  /** Two like updates on one post: the later reply wins. */
  lemma SetLikeLastWins(posts: seq<PostView>, id: PostId, liked: bool, likes: nat, liked': bool, likes': nat)
    ensures SetLike(SetLike(posts, id, liked, likes), id, liked', likes') == SetLike(posts, id, liked', likes')
  {
  }

  /** Two caption updates on one post: the later one wins. */
  lemma EditContentLastWins(posts: seq<PostView>, id: PostId, content: string, content': string)
    ensures EditContent(EditContent(posts, id, content), id, content') == EditContent(posts, id, content')
  {
  }

  /** Deleting a comment just added undoes the append, provided its id was new on that post. */
  lemma RemoveUndoesAppend(posts: seq<PostView>, id: PostId, c: CommentView)
    requires forall i | 0 <= i < |posts| && posts[i].id == id :: forall d | d in posts[i].comments :: d.id != c.id
    ensures RemoveComment(AppendComment(posts, id, c), id, c.id) == posts
  {
    var added := AppendComment(posts, id, c);
    var r := RemoveComment(added, id, c.id);
    forall i | 0 <= i < |posts| ensures r[i] == posts[i] {
      if posts[i].id == id {
        var cs := posts[i].comments;
        FilterAppend(cs, [c], CommentIdIsNot(c.id));
        forall k | 0 <= k < |cs| ensures CommentIdIsNot(c.id)(cs[k]) {
          assert cs[k] in cs;
        }
        FilterKeepsAll(cs, CommentIdIsNot(c.id));
        assert Filter([c], CommentIdIsNot(c.id)) == [];
      }
    }
  }

  /** The state `usePosts` holds and the handlers that replace it. */
  class PostsHook {
    var posts: seq<PostView>

    constructor (initialPosts: seq<PostView>)
      ensures posts == initialPosts
    {
      posts := initialPosts;
    }

    /** `createPost`: on success the new post goes first; the result says what happened. */
    method CreatePost(reply: Reply<Interaction.StoredPost>, origin: string) returns (outcome: Outcome)
      modifies this
      ensures reply.Accepted? ==>
        posts == Prepend(old(posts), NewPost(reply.data, origin)) && outcome == Outcome(true, CREATED_MESSAGE)
      ensures !reply.Accepted? ==> posts == old(posts) && !outcome.success
      ensures reply.Rejected? ==>
        outcome.message == if Truthy(reply.message) then reply.message.value else CREATE_FAILED_MESSAGE
      ensures reply.Thrown? ==> outcome.message == NETWORK_ERROR_MESSAGE
    {
      match reply
      case Accepted(created) =>
        posts := Prepend(posts, NewPost(created, origin));
        outcome := Outcome(true, CREATED_MESSAGE);
      case Rejected(message) =>
        outcome := Outcome(false, if Truthy(message) then message.value else CREATE_FAILED_MESSAGE);
      case Thrown =>
        outcome := Outcome(false, NETWORK_ERROR_MESSAGE);
    }

    /**
     * `editPost`: `answer` is what the prompt returned (None when cancelled).
     * No request is sent when the trimmed answer equals the trimmed old caption;
     * on success the untrimmed answer becomes the content.
     */
    method EditPost(postId: PostId, oldCaption: string, answer: Option<string>, reply: Reply<()>) returns (sent: bool)
      modifies this
      ensures sent == (answer.Some? && JsTrim(answer.value) != JsTrim(oldCaption))
      ensures sent && reply.Accepted? ==> posts == EditContent(old(posts), postId, answer.value)
      ensures !(sent && reply.Accepted?) ==> posts == old(posts)
    {
      if answer.None? {
        return false;
      }
      if JsTrim(answer.value) == JsTrim(oldCaption) {
        return false;
      }
      sent := true;
      if reply.Accepted? {
        posts := EditContent(posts, postId, answer.value);
      }
    }

    /** `deletePost`: nothing happens unless the user confirms; on success the post leaves the list. */
    method DeletePost(postId: PostId, confirmed: bool, reply: Reply<()>) returns (sent: bool)
      modifies this
      ensures sent == confirmed
      ensures sent && reply.Accepted? ==> posts == RemovePost(old(posts), postId)
      ensures !(sent && reply.Accepted?) ==> posts == old(posts)
    {
      if !confirmed {
        return false;
      }
      sent := true;
      if reply.Accepted? {
        posts := RemovePost(posts, postId);
      }
    }

    /** `toggleLike`: on success the post takes the server's `liked` and `likes`. */
    method ToggleLike(postId: PostId, reply: Reply<Interaction.LikeReply>)
      modifies this
      ensures reply.Accepted? ==> posts == SetLike(old(posts), postId, reply.data.liked, reply.data.likes)
      ensures !reply.Accepted? ==> posts == old(posts)
    {
      if reply.Accepted? {
        posts := SetLike(posts, postId, reply.data.liked, reply.data.likes);
      }
    }

    /** `addComment`: blank text sends nothing; on success the returned comment is appended. */
    method AddComment(postId: PostId, text: string, reply: Reply<CommentView>) returns (sent: bool)
      modifies this
      ensures sent == (JsTrim(text) != [])
      ensures !sent <==> forall i | 0 <= i < |text| :: JsSpace(text[i])
      ensures sent && reply.Accepted? ==> posts == AppendComment(old(posts), postId, reply.data)
      ensures !(sent && reply.Accepted?) ==> posts == old(posts)
    {
      if JsTrim(text) == [] {
        return false;
      }
      sent := true;
      if reply.Accepted? {
        posts := AppendComment(posts, postId, reply.data);
      }
    }

    /** `deleteComment`: nothing happens unless the user confirms; on success the comment leaves its post. */
    method DeleteComment(postId: PostId, commentId: CommentId, confirmed: bool, reply: Reply<()>) returns (sent: bool)
      modifies this
      ensures sent == confirmed
      ensures sent && reply.Accepted? ==> posts == RemoveComment(old(posts), postId, commentId)
      ensures !(sent && reply.Accepted?) ==> posts == old(posts)
    {
      if !confirmed {
        return false;
      }
      sent := true;
      if reply.Accepted? {
        posts := RemoveComment(posts, postId, commentId);
      }
    }
  }
}
