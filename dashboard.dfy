/**
 * The dashboard page (resources/js/pages/dashboard.tsx). It holds its own
 * copy of the feed, taken from the page props, which may be absent; every
 * update goes through `prev?.map(...)`, so an absent list stays absent. It
 * shows a comment's delete button only to that comment's author, and each
 * post has a comment form that clears itself on submit.
 */
module Dashboard {
  import opened Records
  import opened Text
  import opened FeedState
  import Interaction

  /** `c.user_id === auth.user.id`: a null `user_id` never matches. */
  function DeleteButtonShown(c: CommentView, authUserId: UserId): (shown: bool)
    ensures c.userId.None? ==> !shown
    ensures shown <==> c.userId.Some? && c.userId.value == authUserId
  {
    c.userId == Some(authUserId)
  }

  /** `prev?.map(...)` with the given update. */
  function Held(prev: Option<seq<PostView>>, update: seq<PostView> -> seq<PostView>): (r: Option<seq<PostView>>)
    ensures prev.None? ==> r.None?
    ensures prev.Some? ==> r == Some(update(prev.value))
  {
    match prev
    case None => None
    case Some(posts) => Some(update(posts))
  }

  class DashboardPage {
    var posts: Option<seq<PostView>>
    const authUserId: UserId

    constructor (initialPosts: Option<seq<PostView>>, authUserId: UserId)
      ensures posts == initialPosts && this.authUserId == authUserId
    {
      posts := initialPosts;
      this.authUserId := authUserId;
    }

    /** The delete-button guard of this page, against the logged-in viewer's id. */
    function ShowsDelete(c: CommentView): (shown: bool)
      ensures shown ==> c.userId.Some?
      ensures shown <==> DeleteButtonShown(c, authUserId)
    {
      c.userId == Some(authUserId)
    }

    /** `toggleLike`: on success the post with this id takes the reply's `liked` and `likes`. */
    method ToggleLike(postId: PostId, reply: Reply<Interaction.LikeReply>)
      modifies this`posts
      ensures reply.Accepted? && old(posts).Some? ==>
        posts == Some(SetLike(old(posts).value, postId, reply.data.liked, reply.data.likes))
      ensures !reply.Accepted? || old(posts).None? ==> posts == old(posts)
    {
      if reply.Accepted? {
        posts := Held(posts, (ps: seq<PostView>) => SetLike(ps, postId, reply.data.liked, reply.data.likes));
      }
    }

    /** `addComment`: blank text returns at once; on success the reply's comment is appended. */
    method AddComment(postId: PostId, text: string, reply: Reply<CommentView>) returns (sent: bool)
      modifies this`posts
      ensures !sent <==> forall i | 0 <= i < |text| :: JsSpace(text[i])
      ensures sent && reply.Accepted? && old(posts).Some? ==>
        posts == Some(AppendComment(old(posts).value, postId, reply.data))
      ensures !(sent && reply.Accepted?) || old(posts).None? ==> posts == old(posts)
    {
      if JsTrim(text) == [] {
        return false;
      }
      sent := true;
      if reply.Accepted? {
        posts := Held(posts, (ps: seq<PostView>) => AppendComment(ps, postId, reply.data));
      }
    }

    /** `deleteComment`: nothing without confirmation; on success that comment leaves the post with this id. */
    method DeleteComment(postId: PostId, commentId: CommentId, confirmed: bool, reply: Reply<()>) returns (sent: bool)
      modifies this`posts
      ensures sent == confirmed
      ensures sent && reply.Accepted? && old(posts).Some? ==>
        posts == Some(RemoveComment(old(posts).value, postId, commentId))
      ensures !(sent && reply.Accepted?) || old(posts).None? ==> posts == old(posts)
    {
      if !confirmed {
        return false;
      }
      sent := true;
      if reply.Accepted? {
        posts := Held(posts, (ps: seq<PostView>) => RemoveComment(ps, postId, commentId));
      }
    }
  }

  /** The comment form of one post: its text field, sent and then cleared on submit. */
  class CommentForm {
    var text: string

    constructor ()
      ensures text == ""
    {
      text := "";
    }

    /** `onChange`: the field takes the typed value. */
    method Change(value: string)
      modifies this
      ensures text == value
    {
      text := value;
    }

    /** `handleSubmit`: hands the current text to `onSubmit`, then empties the field. */
    method Submit() returns (submitted: string)
      modifies this
      ensures submitted == old(text) && text == ""
    {
      submitted := text;
      text := "";
    }
  }
}
