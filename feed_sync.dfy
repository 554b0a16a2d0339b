/**
 * How the browser's list stays in step with the server. Each client update
 * applied to the feed of the tables before a server operation gives the feed
 * the tables produce after it, as long as the reply is the one the server
 * sent; the exceptions (the like flag, the freshly built post) are stated as
 * what they are.
 */
module FeedSync {
  import opened Records
  import opened Seqs
  import opened Feed
  import FeedState
  import Interaction
  import Dashboard

  function RowIdIsNot(id: PostId): Post -> bool {
    (p: Post) => p.id != id
  }

  /** The post rows after a caption edit of post `id`. */
  function Recaption(rows: seq<Post>, id: PostId, content: string): (r: seq<Post>)
    ensures |r| == |rows|
    ensures forall i | 0 <= i < |rows| :: r[i] == if rows[i].id == id then rows[i].(content := content) else rows[i]
  {
    if rows == [] then [] else [if rows[0].id == id then rows[0].(content := content) else rows[0]] + Recaption(rows[1..], id, content)
  }

  /** `rows` lists exactly the posts of the table `posts` (keyed by id), each once, in some order. */
  ghost predicate Lists(rows: seq<Post>, posts: map<PostId, Post>) {
    && (forall i | 0 <= i < |rows| :: rows[i].id in posts && posts[rows[i].id] == rows[i])
    && (forall id | id in posts :: posts[id] in rows)
  }

  /**
   * A query listing the posts table before a caption save lists it after the
   * save once the edit is applied to that row: Recaption is the map update of
   * Store.UpdateCaption, seen as rows.
   */
  lemma RecaptionLists(rows: seq<Post>, posts: map<PostId, Post>, id: PostId, content: string)
    requires forall q | q in posts :: posts[q].id == q
    requires Lists(rows, posts) && id in posts
    ensures Lists(Recaption(rows, id, content), posts[id := posts[id].(content := content)])
  {
    var after := posts[id := posts[id].(content := content)];
    var r := Recaption(rows, id, content);
    forall q | q in after ensures after[q] in r {
      var i :| 0 <= i < |rows| && rows[i] == posts[q];
      assert r[i] == after[q];
    }
  }

  /**
   * Likewise for a deletion: dropping the row of post `id` from a listing of
   * the table lists the table of Store.Destroy, the map without `id`.
   */
  lemma DeleteLists(rows: seq<Post>, posts: map<PostId, Post>, id: PostId)
    requires forall q | q in posts :: posts[q].id == q
    requires Lists(rows, posts)
    ensures Lists(Filter(rows, RowIdIsNot(id)), posts - {id})
  {
    var r := Filter(rows, RowIdIsNot(id));
    forall i | 0 <= i < |r| ensures r[i].id in posts - {id} && (posts - {id})[r[i].id] == r[i] {
      assert r[i] in r;
      var j :| 0 <= j < |rows| && rows[j] == r[i];
    }
    forall q | q in posts - {id} ensures (posts - {id})[q] in r {
      var j :| 0 <= j < |rows| && rows[j] == posts[q];
    }
  }

  lemma {:induction false} ProjectCommentsAppend(a: seq<Comment>, b: seq<Comment>, users: map<UserId, User>)
    ensures ProjectComments(a + b, users) == ProjectComments(a, users) + ProjectComments(b, users)
  {
    if a == [] {
      assert a + b == b;
    } else {
      assert (a + b)[1..] == a[1..] + b;
      ProjectCommentsAppend(a[1..], b, users);
    }
  }

  /** Projecting and then dropping a comment id is dropping it and then projecting: ids are copied. */
  lemma {:induction false} ProjectCommentsDrop(cs: seq<Comment>, users: map<UserId, User>, cid: CommentId)
    ensures ProjectComments(Filter(cs, Interaction.CommentIdIsNot(cid)), users)
         == Filter(ProjectComments(cs, users), FeedState.CommentIdIsNot(cid))
  {
    if cs != [] {
      var x := cs[0];
      ProjectCommentsDrop(cs[1..], users, cid);
      var kept := if x.id != cid then [x] else [];
      ProjectCommentsAppend(kept, Filter(cs[1..], Interaction.CommentIdIsNot(cid)), users);
      var vs := ProjectComments(cs, users);
      assert vs == [ProjectComment(x, users)] + ProjectComments(cs[1..], users);
      assert vs[1..] == ProjectComments(cs[1..], users);
    }
  }

  /**
   * Adding a comment on the server and appending the reply in the browser
   * agree: the feed after the insert is the old feed with the server's reply
   * appended to the post's comments.
   */
  lemma CommentAddedInStep(
    posts: seq<Post>, users: map<UserId, User>, comments: seq<Comment>, likesCount: PostId -> nat,
    actor: User, id: CommentId, postId: PostId, text: string)
    requires actor.id in users && users[actor.id] == actor
    ensures Index(posts, users, comments + [Comment(id, postId, actor.id, text)], likesCount)
         == FeedState.AppendComment(Index(posts, users, comments, likesCount), postId,
                                    CommentView(id, actor.name, Some(actor.id), text))
  {
    var c := Comment(id, postId, actor.id, text);
    var reply := CommentView(id, actor.name, Some(actor.id), text);
    assert ProjectComments([c], users) == [reply];
    var after := Index(posts, users, comments + [c], likesCount);
    var before := Index(posts, users, comments, likesCount);
    var client := FeedState.AppendComment(before, postId, reply);
    forall i | 0 <= i < |posts| ensures after[i] == client[i] {
      var q := posts[i].id;
      FilterAppend(comments, [c], OnPost(q));
      ProjectCommentsAppend(CommentsOf(comments, q), Filter([c], OnPost(q)), users);
      if q != postId {
        assert Filter([c], OnPost(q)) == [];
      }
    }
  }

  /**
   * Deleting a comment on the server and filtering it out of its post in the
   * browser agree, provided the browser names the post the comment is on (the
   * server looks the comment up by its id alone).
   */
  lemma CommentDeletedInStep(
    posts: seq<Post>, users: map<UserId, User>, comments: seq<Comment>, likesCount: PostId -> nat,
    postId: PostId, cid: CommentId)
    requires forall c | c in comments && c.id == cid :: c.postId == postId
    ensures Index(posts, users, Filter(comments, Interaction.CommentIdIsNot(cid)), likesCount)
         == FeedState.RemoveComment(Index(posts, users, comments, likesCount), postId, cid)
  {
    var remaining := Filter(comments, Interaction.CommentIdIsNot(cid));
    var after := Index(posts, users, remaining, likesCount);
    var before := Index(posts, users, comments, likesCount);
    var client := FeedState.RemoveComment(before, postId, cid);
    forall i | 0 <= i < |posts| ensures after[i] == client[i] {
      var q := posts[i].id;
      FilterCommute(comments, Interaction.CommentIdIsNot(cid), OnPost(q));
      ProjectCommentsDrop(CommentsOf(comments, q), users, cid);
      if q != postId {
        var cs := CommentsOf(comments, q);
        forall k | 0 <= k < |cs| ensures Interaction.CommentIdIsNot(cid)(cs[k]) {
          assert cs[k] in cs;
        }
        FilterKeepsAll(cs, Interaction.CommentIdIsNot(cid));
      }
    }
  }

  /**
   * A caption edit on the server and the browser's content update agree,
   * for a caption the server stores as sent: one with no leading or trailing
   * white space, which the framework's input trimming leaves alone.
   */
  lemma CaptionEditedInStep(
    posts: seq<Post>, users: map<UserId, User>, comments: seq<Comment>, likesCount: PostId -> nat,
    id: PostId, content: string)
    ensures Index(Recaption(posts, id, content), users, comments, likesCount)
         == FeedState.EditContent(Index(posts, users, comments, likesCount), id, content)
  {
  }

  /** After the cascade, the posts that remain keep exactly their comments. */
  lemma CascadeKeepsOtherComments(comments: seq<Comment>, id: PostId, q: PostId)
    requires q != id
    ensures CommentsOf(Filter(comments, Interaction.NotOnPost(id)), q) == CommentsOf(comments, q)
  {
    FilterCommute(comments, Interaction.NotOnPost(id), OnPost(q));
    var cs := CommentsOf(comments, q);
    forall k | 0 <= k < |cs| ensures Interaction.NotOnPost(id)(cs[k]) {
      assert cs[k] in cs;
    }
    FilterKeepsAll(cs, Interaction.NotOnPost(id));
  }

  /**
   * Deleting a post on the server (with its comments) and removing it from
   * the browser's list agree.
   */
  lemma {:induction false} PostDeletedInStep(
    posts: seq<Post>, users: map<UserId, User>, comments: seq<Comment>, likesCount: PostId -> nat, id: PostId)
    ensures Index(Filter(posts, RowIdIsNot(id)), users, Filter(comments, Interaction.NotOnPost(id)), likesCount)
         == FeedState.RemovePost(Index(posts, users, comments, likesCount), id)
  {
    var remaining := Filter(comments, Interaction.NotOnPost(id));
    if posts != [] {
      var p := posts[0];
      PostDeletedInStep(posts[1..], users, comments, likesCount, id);
      var kept := if p.id != id then [p] else [];
      assert Filter(posts, RowIdIsNot(id)) == kept + Filter(posts[1..], RowIdIsNot(id));
      IndexAppend(kept, Filter(posts[1..], RowIdIsNot(id)), users, remaining, likesCount);
      var feed := Index(posts, users, comments, likesCount);
      assert feed == [ProjectPost(p, users, comments, likesCount)] + Index(posts[1..], users, comments, likesCount);
      FilterAppend([feed[0]], feed[1..], FeedState.PostIdIsNot(id));
      assert feed[1..] == Index(posts[1..], users, comments, likesCount);
      if p.id != id {
        CascadeKeepsOtherComments(comments, id, p.id);
        assert Index(kept, users, remaining, likesCount) == [feed[0]];
      }
    }
  }

  /**
   * The post the browser builds after an upload agrees with the entry a
   * reload would show on id, author, caption, like flag and comments; it
   * differs in the avatar, the absolute image URL, the like count 0 and the
   * owner id, which only the built record carries.
   */
  lemma NewPostMatchesFeed(
    post: Post, actor: User, users: map<UserId, User>, comments: seq<Comment>, likesCount: PostId -> nat, origin: string)
    requires actor.id in users && users[actor.id] == actor && post.userId == actor.id
    requires forall c | c in comments :: c.postId != post.id
    ensures
      var built := FeedState.NewPost(Interaction.StoredPost(post, Some(actor), []), origin);
      var shown := ProjectPost(post, users, comments, likesCount);
      && built.id == shown.id && built.user == shown.user && built.content == shown.content
      && built.liked == shown.liked && built.comments == shown.comments
  {
    forall k | 0 <= k < |comments| ensures !OnPost(post.id)(comments[k]) {
      assert comments[k] in comments;
    }
    FilterKeepsNone(comments, OnPost(post.id));
  }

  /**
   * The dashboard shows a comment's delete button exactly when the server
   * would let the viewer delete it, except that a comment whose author cannot
   * be resolved never shows the button.
   */
  lemma DeleteButtonMatchesServer(c: Comment, users: map<UserId, User>, viewer: User)
    requires UsersKeyed(users)
    ensures Dashboard.DeleteButtonShown(ProjectComment(c, users), viewer.id)
        <==> c.userId in users && IsOwner(viewer, c.userId)
  {
  }
}
