/**
 * The feed projection of DashboardController::index: the posts of the
 * latest-first query, each joined with its author's name, its comments (each
 * with its author's name) and its like count, turned into view records.
 * Nothing is changed; missing authors fall back to "Unknown".
 */
module Feed {
  import opened Records
  import opened Seqs

  /** The avatar every feed entry gets. */
  const AVATAR: string := "https://i.pravatar.cc/"

  function OnPost(p: PostId): Comment -> bool {
    (c: Comment) => c.postId == p
  }

  /** `$post->comments`: the post's comments in table order. */
  function CommentsOf(comments: seq<Comment>, p: PostId): (cs: seq<Comment>)
    ensures forall c | c in cs :: c.postId == p
  {
    Filter(comments, OnPost(p))
  }

  /** `$x->user ? $x->user->name : 'Unknown'`. */
  function AuthorName(users: map<UserId, User>, id: UserId): (name: string)
    ensures id in users ==> name == users[id].name
    ensures id !in users ==> name == UNKNOWN
  {
    if id in users then users[id].name else UNKNOWN
  }

  /** One comment as the view sees it; `user_id` is the loaded author's id, or null. */
  function ProjectComment(c: Comment, users: map<UserId, User>): (v: CommentView)
    ensures v.id == c.id && v.text == c.text
    ensures c.userId in users ==> v.user == users[c.userId].name && v.userId == Some(users[c.userId].id)
    ensures c.userId !in users ==> v.user == UNKNOWN && v.userId == None
  {
    CommentView(c.id, AuthorName(users, c.userId), if c.userId in users then Some(users[c.userId].id) else None, c.text)
  }

  /** The inner `->map` over a post's comments. */
  function ProjectComments(cs: seq<Comment>, users: map<UserId, User>): (vs: seq<CommentView>)
    ensures |vs| == |cs|
    ensures forall k | 0 <= k < |cs| :: vs[k].id == cs[k].id && vs[k].text == cs[k].text
    ensures forall k | 0 <= k < |cs| && cs[k].userId in users ::
      vs[k].user == users[cs[k].userId].name && vs[k].userId == Some(users[cs[k].userId].id)
    ensures forall k | 0 <= k < |cs| && cs[k].userId !in users :: vs[k].user == UNKNOWN && vs[k].userId == None
  {
    if cs == [] then [] else [ProjectComment(cs[0], users)] + ProjectComments(cs[1..], users)
  }

  /** One feed entry. `likesCount` stands for the `likes_count` attribute of the loaded post. */
  function ProjectPost(p: Post, users: map<UserId, User>, comments: seq<Comment>, likesCount: PostId -> nat): (v: PostView)
    ensures v.id == p.id && v.content == p.content && v.image == p.imageUrl
    ensures v.likes == likesCount(p.id) && !v.liked
    ensures v.comments == ProjectComments(CommentsOf(comments, p.id), users)
    ensures p.userId in users ==> v.user == users[p.userId].name
    ensures p.userId !in users ==> v.user == UNKNOWN
  {
    PostView(
      p.id, AuthorName(users, p.userId), AVATAR, p.content, p.imageUrl,
      likesCount(p.id), false, ProjectComments(CommentsOf(comments, p.id), users), None)
  }

  /** The outer `->map` over the posts of the latest-first query: one entry per post, in query order. */
  function Index(posts: seq<Post>, users: map<UserId, User>, comments: seq<Comment>, likesCount: PostId -> nat): (feed: seq<PostView>)
    ensures |feed| == |posts|
    ensures forall i | 0 <= i < |posts| :: feed[i] == ProjectPost(posts[i], users, comments, likesCount)
  {
    if posts == [] then [] else [ProjectPost(posts[0], users, comments, likesCount)] + Index(posts[1..], users, comments, likesCount)
  }

  /** The projection works post by post: the feed of a concatenation is the concatenation of the feeds. */
  lemma {:induction false} IndexAppend(a: seq<Post>, b: seq<Post>, users: map<UserId, User>, comments: seq<Comment>, likesCount: PostId -> nat)
    ensures Index(a + b, users, comments, likesCount) == Index(a, users, comments, likesCount) + Index(b, users, comments, likesCount)
  {
    var whole := Index(a + b, users, comments, likesCount);
    var parts := Index(a, users, comments, likesCount) + Index(b, users, comments, likesCount);
    forall i | 0 <= i < |whole| ensures whole[i] == parts[i] {
      if i < |a| {
        assert (a + b)[i] == a[i];
      } else {
        assert (a + b)[i] == b[i - |a|];
      }
    }
  }
}
