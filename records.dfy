/**
 * The entities of the social feed: the three persisted tables (posts,
 * comments, likes), the users they refer to, and the view records the
 * browser holds (resources/js/types/dashboard.ts).
 */
module Records {

  type UserId = nat
  type PostId = nat
  type CommentId = nat

  datatype Option<+T> = None | Some(value: T)

  /** A user as the identity provider supplies it; read-only here. */
  datatype User = User(id: UserId, name: string)

  /** A row of the posts table; `imageUrl` is the stored path (or any URL a seeder put there). */
  datatype Post = Post(id: PostId, userId: UserId, content: string, imageUrl: Option<string>, createdAt: int)

  /** A row of the comments table. */
  datatype Comment = Comment(id: CommentId, postId: PostId, userId: UserId, text: string)

  /** A row of the likes table: a (post, user) pair. */
  datatype Like = Like(postId: PostId, userId: UserId)

  /** The browser's comment record; `userId` is null when the author cannot be resolved. */
  datatype CommentView = CommentView(id: CommentId, user: string, userId: Option<UserId>, text: string)

  /**
   * The browser's post record. `userId` is only present on posts the
   * browser built itself after a successful upload; the server's feed
   * does not send it.
   */
  datatype PostView = PostView(
    id: PostId,
    user: string,
    avatar: string,
    content: string,
    image: Option<string>,
    likes: nat,
    liked: bool,
    comments: seq<CommentView>,
    userId: Option<UserId>)

  /** The display name used when an author cannot be resolved. */
  const UNKNOWN: string := "Unknown"

  /** The users table is keyed by each user's own id. */
  ghost predicate UsersKeyed(users: map<UserId, User>) {
    forall id | id in users :: users[id].id == id
  }

  /** The single ownership guard every mutating operation applies. */
  function IsOwner(actor: User, ownerId: UserId): (owns: bool)
    ensures owns <==> actor.id == ownerId
  {
    actor.id == ownerId
  }
}
