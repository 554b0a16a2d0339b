# instaApp feed core, modelled in Dafny

instaApp is a small Laravel + React social feed. Users post an image with a
caption, like and unlike posts, comment on them, and delete their own
comments. Owners can also edit the caption of their own posts and delete them.
This project models the three parts of it that carry the rules:

- **The interaction service** (`PostInteractionController`). It is the class
  `Interaction.Store`. Its fields are the users, posts, comments and likes
  tables, the set of files on the public disk, and the two auto-increment
  counters. Each of the six handlers is a method. The method takes the
  authenticated user as an argument and returns either the reply body or
  `NotFound`, `Forbidden` or `ValidationError`. The invariant `Valid` says:
  - every comment and like points at an existing post;
  - comment ids follow insertion order;
  - the likes table has at most one row per (post, user) pair.
  All six handlers keep it.
- **The upload folder** (`posts/<id>-<name>`, in `UploadFolder`). The folder
  name is sanitised byte by byte, because the pattern has no `u` flag. So a
  character outside ASCII becomes two to four underscores. The model proves:
  - the sanitised name uses only `[A-Za-z0-9_-]`;
  - on ASCII names it preserves length;
  - it is idempotent;
  - the folder determines the user id.
- **The like toggle** (`Likes`). This is the table operation `like` runs:
  delete the row if present, insert it otherwise. The model proves:
  - the toggle flips the liked state;
  - it moves the count by exactly one;
  - it leaves every other row alone;
  - two toggles restore the table;
  - the state after `n` toggles follows the parity of `n`.
- **The feed projection** (`DashboardController::index`, in `Feed`). This
  builds one view record per post, in query order. The author name falls
  back to `Unknown`, and `liked` is always false.
- **The browser's copy of the feed** (`use-post.tsx` as `FeedState.PostsHook`,
  `dashboard.tsx` as `Dashboard.DashboardPage` and `Dashboard.CommentForm`).
  The list updates are pure functions: prepend, update by id, filter by id,
  and append a comment. The hook and page classes hold the list and apply an
  update only when the reply succeeded.
- **Keeping client and server in step** (`FeedSync`). Take a server table
  operation and the client update applied to the old feed. The lemmas show
  both give the feed a reload would show, for a query that returns the
  surviving rows in the same relative order. This holds for adding a
  comment, deleting a comment, deleting a post, and editing a caption with
  no leading or trailing white space. Two
  further lemmas connect the row lists these lemmas use to the map updates
  of `Store.UpdateCaption` and `Store.Destroy`. The post built after an
  upload agrees with the reloaded entry on the fields it shares.

Points of the code that the model follows as written:
- `updateCaption` validates only `required|string`, with no length bound.
- `deleteComment` looks the comment up by its id alone and ignores the
  route's post id.
- The feed's `liked` is always false, whoever is viewing.
- The feed is ordered by `latest()`, with no tie-break on the id.
- `store` requires an image, so a post without one is a validation error.

## Model

| member | source | states |
|---|---|---|
| Interaction.Store.StorePost | app/Http/Controllers/PostInteractionController.php:16-45 | An invalid caption (blank, or over 1000 characters) or a missing image is a ValidationError and changes nothing. Otherwise the image is added under `posts/<id>-<sanitised name>/<file>`. A post with a fresh id, the actor as owner, the caption and that path is inserted. It is returned with its author and no comments. The table invariant is kept. |
| Interaction.Store.UpdateCaption | app/Http/Controllers/PostInteractionController.php:47-68 | The checks run in the code's order: blank content is a ValidationError, then a missing post is NotFound, then a non-owner is Forbidden. Each failure leaves the posts unchanged. The owner's edit replaces only `content` of that post. |
| Interaction.Store.Destroy | app/Http/Controllers/PostInteractionController.php:70-89 | A missing post is NotFound and a non-owner is Forbidden, and both change nothing. For the owner, the post is removed with exactly its comments and likes. Its image file is released when the URL is truthy, and no remaining row points at the post. |
| Interaction.Store.ToggleLike | app/Http/Controllers/PostInteractionController.php:91-124 | A missing post is NotFound. Otherwise the table becomes `Toggle` of the (post, actor) row. The reply's `liked` is the negation of the previous state. The reply's `likes` is the new count, exactly one away from the old one. Every other row keeps its multiplicity. |
| Interaction.Store.AddComment | app/Http/Controllers/PostInteractionController.php:126-149 | A missing post is NotFound, then an invalid text is a ValidationError. Otherwise one comment with the next id is appended and echoed with the actor's name and id. |
| Interaction.Store.DeleteComment | app/Http/Controllers/PostInteractionController.php:151-163 | The comment is looked up by id alone. An unknown id is NotFound and a non-author is Forbidden, and both change nothing. For the author, exactly that row is removed (the table with position k cut out). |
| Records.IsOwner | app/Http/Controllers/PostInteractionController.php:56 | The ownership guard of `updateCaption`, `destroy` (line 75) and `deleteComment` (line 156): true exactly when the actor's id equals the owner id. |
| Interaction.CommentIndex | app/Http/Controllers/PostInteractionController.php:153 | Finds the position of a comment with the given id, or reports that no comment has it. |
| Interaction.ReleaseImage | app/Http/Controllers/PostInteractionController.php:79-81 | At most the post's image path leaves the file set. It leaves whenever the URL is truthy, and the set is unchanged when the URL is null or falsy. |
| Interaction.DeleteKeepsTables | app/Http/Controllers/PostInteractionController.php:83 | Deleting a post together with its comments and likes keeps every reference, the comment-id order and like uniqueness intact. No surviving row points at the deleted post. |
| Interaction.ToggleKeepsTables | app/Http/Controllers/PostInteractionController.php:96-110 | Toggling a like on an existing post keeps every like pointing at a post and keeps the likes table free of duplicate pairs. |
| Interaction.DeleteCommentKeepsTables | app/Http/Controllers/PostInteractionController.php:153-160 | Comment ids are distinct, so deleting by the id of the comment at position k removes exactly that row. The tables stay consistent. |
| Interaction.ValidText | app/Http/Controllers/PostInteractionController.php:19 | A caption or comment that passes the `required`, `string` and `max:1000` rules has between 1 and 1000 characters. |
| Interaction.PhpTruthy | app/Http/Controllers/PostInteractionController.php:79 | A truthy image URL is non-empty, and the string "0" is falsy. |
| Interaction.FilterKeepsIdsIncreasing | app/Http/Controllers/PostInteractionController.php:160 | Deleting comment rows keeps comment ids in increasing table order. |
| UploadFolder.SanitizeBytes | app/Http/Controllers/PostInteractionController.php:26 | Each byte maps to itself when it is an ASCII letter, digit, `_` or `-`, and to `_` otherwise. The output has one character per byte. |
| UploadFolder.SanitizeName | app/Http/Controllers/PostInteractionController.php:26 | The sanitised name uses only `[A-Za-z0-9_-]`. It has one character per byte of the name's UTF-8 encoding, so it is at least as long as the name. |
| UploadFolder.Folder | app/Http/Controllers/PostInteractionController.php:27 | The folder starts with `posts/` and has no `/` or `.` after it, so it is a single directory below `posts`. |
| UploadFolder.StoredPath | app/Http/Controllers/PostInteractionController.php:32 | The stored path is the folder, a `/`, then the generated file name, so the file lies directly inside the folder. |
| UploadFolder.SanitizeAscii | app/Http/Controllers/PostInteractionController.php:26 | On an ASCII name the length is preserved. Each character is kept if allowed and replaced by `_` otherwise. |
| UploadFolder.SanitizeNonAscii | app/Http/Controllers/PostInteractionController.php:26 | A non-ASCII character becomes two to four `_`, one per UTF-8 byte. |
| UploadFolder.SanitizeAppend | app/Http/Controllers/PostInteractionController.php:26 | Sanitising a concatenation is concatenating the sanitised parts. |
| UploadFolder.SanitizeIdempotent | app/Http/Controllers/PostInteractionController.php:26 | Sanitising twice is sanitising once. |
| UploadFolder.FolderTail | app/Http/Controllers/PostInteractionController.php:27 | After `posts/` the folder is the user id's digits, a dash and the sanitised name. |
| UploadFolder.FolderDeterminesUser | app/Http/Controllers/PostInteractionController.php:26-27 | Equal folders mean equal user ids: two users never share an upload folder. |
| Text.Decimal | app/Http/Controllers/PostInteractionController.php:27 | The id's string form is a non-empty run of decimal digits. |
| Text.DecimalRoundTrip | app/Http/Controllers/PostInteractionController.php:27 | Reading the decimal form back gives the id. |
| Text.DecimalInjective | app/Http/Controllers/PostInteractionController.php:27 | Distinct ids have distinct decimal forms. |
| Text.Utf8Char | app/Http/Controllers/PostInteractionController.php:26 | An ASCII character is one byte equal to its code. Any other character is two to four bytes, all at or above 0x80. |
| Text.Utf8 | app/Http/Controllers/PostInteractionController.php:26 | The bytes the pattern without the `u` flag scans: one to four per character, so at least as long as the string and at most four times as long. Text.Utf8Append and Text.Utf8Ascii give concatenation and the ASCII case. |
| Text.Utf8Ascii | app/Http/Controllers/PostInteractionController.php:26 | The encoding of an ASCII string is its character codes, one byte each. |
| Text.Utf8Append | app/Http/Controllers/PostInteractionController.php:26 | The encoding distributes over concatenation. |
| Text.Required | app/Http/Controllers/PostInteractionController.php:50 | Laravel's `required` on a string: it fails exactly when every character is one PHP's `trim` strips, so a passing value is non-empty. |
| Likes.CountFor | app/Http/Controllers/PostInteractionController.php:113 | The number of rows for a post is at most the table size. |
| Likes.IndexOf | app/Http/Controllers/PostInteractionController.php:98-100 | Finds the first row equal to the (post, user) pair. |
| Likes.Toggle | app/Http/Controllers/PostInteractionController.php:98-109 | The table after one toggle: one row shorter when the pair was present, one row longer otherwise. The row-level effect is stated by Likes.ToggleRows. |
| Likes.Toggles | app/Http/Controllers/PostInteractionController.php:98-109 | The table after `n` consecutive toggles: its size is within `n` rows of the start. |
| Likes.ToggleRows | app/Http/Controllers/PostInteractionController.php:102-109 | A toggle removes one copy of the row when present and adds one otherwise. As a multiset, nothing else changes. |
| Likes.ToggleMembers | app/Http/Controllers/PostInteractionController.php:102-109 | The only row a toggle can introduce is the toggled one. |
| Likes.ToggleFlips | app/Http/Controllers/PostInteractionController.php:98-109 | The toggle never creates a duplicate (post, user) row. Afterwards the row is present exactly when it was absent before. |
| Likes.ToggleCount | app/Http/Controllers/PostInteractionController.php:113-118 | The toggled post's count rises by one on a like and falls by one on an unlike. Other posts' counts are unchanged. |
| Likes.ToggleTwice | app/Http/Controllers/PostInteractionController.php:102-109 | Two consecutive toggles restore the rows. From "not liked" they restore the table exactly. |
| Likes.TogglesParity | app/Http/Controllers/PostInteractionController.php:102-109 | After `n` toggles the table is still duplicate-free. The user likes the post exactly when that differs from the start by an odd `n`. |
| Likes.LikersMembership | app/Http/Controllers/PostInteractionController.php:118 | A user is among a post's likers exactly when the (post, user) row exists. |
| Likes.CountIsLikers | app/Http/Controllers/PostInteractionController.php:113-118 | With unique rows, the like count equals the number of distinct users liking the post. |
| Likes.FilterUnique | app/Http/Controllers/PostInteractionController.php:83 | Deleting like rows cannot create duplicates. |
| Seqs.Filter | resources/js/hooks/use-post.tsx:91 | The result is no longer than the input. It holds exactly the input's elements that pass the test. |
| Seqs.FilterAppend | resources/js/hooks/use-post.tsx:91 | Filtering a concatenation filters each part, so relative order is kept. |
| Seqs.FilterKeepsAll | resources/js/hooks/use-post.tsx:91 | When every element passes, the filter changes nothing. |
| Seqs.FilterIdempotent | resources/js/hooks/use-post.tsx:91 | Filtering twice with the same test is filtering once. |
| Seqs.FilterDropsOne | app/Http/Controllers/PostInteractionController.php:160 | When exactly one element fails, filtering removes exactly that element and the length drops by one. |
| Seqs.FilterCommute | resources/js/hooks/use-post.tsx:133-137 | Two filters can be applied in either order. |
| Seqs.FilterKeepsNone | app/Http/Controllers/PostInteractionController.php:43 | When no element passes, the filter is empty. |
| Feed.CommentsOf | app/Http/Controllers/DashboardController.php:14 | A post's loaded comments all belong to that post. |
| Feed.AuthorName | app/Http/Controllers/DashboardController.php:20 | The author's name when the user exists, and `Unknown` otherwise. |
| Feed.ProjectComment | app/Http/Controllers/DashboardController.php:27-32 | `id` and `text` are copied. The name and `user_id` are the author's when resolvable, and `Unknown` and null otherwise. |
| Feed.ProjectComments | app/Http/Controllers/DashboardController.php:26-33 | There is one view per comment, in order, with `id` and `text` copied. The name and `user_id` are the author's when resolvable, and `Unknown` and null otherwise. |
| Feed.ProjectPost | app/Http/Controllers/DashboardController.php:18-35 | `id`, `content` and `image` are copied and `likes` is the `likes_count` attribute passed in. `liked` is false, and the comments are the projection of the post's comments. The name is the author's, or `Unknown` when missing. |
| Feed.Index | app/Http/Controllers/DashboardController.php:17-36 | There is one entry per post, and entry i is the projection of post i in query order. |
| Feed.IndexAppend | app/Http/Controllers/DashboardController.php:17 | The projection of a concatenation is the concatenation of the projections. |
| FeedState.UpdateWhere | resources/js/hooks/use-post.tsx:78 | The length is kept. Posts with the id get the update and all others are unchanged. |
| FeedState.NewPost | resources/js/hooks/use-post.tsx:39-49 | The new record starts with 0 likes, not liked and no comments. Its id, content and owner come from the reply. The image is null unless `image_url` is truthy, in which case it is the absolute storage URL. The name falls back to `Unknown`. |
| FeedState.Truthy | resources/js/hooks/use-post.tsx:44 | A truthy `image_url` is present and non-empty. Unlike PHP, JavaScript treats "0" as truthy. |
| FeedState.Prepend | resources/js/hooks/use-post.tsx:51 | Exactly one post is added in front, and the old list follows unchanged. |
| FeedState.EditContent | resources/js/hooks/use-post.tsx:78 | Only `content` of posts with the id changes, and every other post is unchanged. |
| FeedState.SetLike | resources/js/hooks/use-post.tsx:103 | Only `liked` and `likes` of posts with the id change, and every other post is unchanged. |
| FeedState.AppendComment | resources/js/hooks/use-post.tsx:120 | Posts with the id get the comment as their new last element. Every other post is unchanged and the length is kept. |
| FeedState.RemoveComment | resources/js/hooks/use-post.tsx:133-137 | Posts with the id lose exactly their comments with that comment id, and nothing else in them changes. Other posts are unchanged. |
| FeedState.RemovePost | resources/js/hooks/use-post.tsx:91 | Every post with the id is gone, and every other post stays. |
| FeedState.RemovePostKeepsOrder | resources/js/hooks/use-post.tsx:91 | Removal works piece by piece, so the remaining posts keep their relative order. |
| FeedState.RemovePostAbsent | resources/js/hooks/use-post.tsx:91 | Removing an absent id changes nothing, and removing twice is removing once. |
| FeedState.SetLikeLastWins | resources/js/hooks/use-post.tsx:103 | Of two like updates on one post, the later one wins. |
| FeedState.EditContentLastWins | resources/js/hooks/use-post.tsx:78 | Of two caption updates on one post, the later one wins. |
| FeedState.RemoveUndoesAppend | resources/js/hooks/use-post.tsx:107-139 | Deleting a comment just appended, with an id new on that post, restores the list. |
| FeedState.PostsHook.constructor | resources/js/hooks/use-post.tsx:5 | The hook starts with the initial posts. |
| FeedState.PostsHook.CreatePost | resources/js/hooks/use-post.tsx:20-60 | On success the new post is prepended and the result is success with "Posting berhasil dibuat.". On a failure reply the list is unchanged, with the server's message if truthy and else "Gagal membuat posting.". On an exception the list is unchanged with the network-error message. |
| FeedState.PostsHook.EditPost | resources/js/hooks/use-post.tsx:62-80 | No request is sent when the prompt is cancelled or the trimmed answer equals the trimmed old caption. On success the untrimmed answer becomes the content of that post. Otherwise the list is unchanged. |
| FeedState.PostsHook.DeletePost | resources/js/hooks/use-post.tsx:82-93 | Nothing is sent without confirmation. On success the post leaves the list, and otherwise the list is unchanged. |
| FeedState.PostsHook.ToggleLike | resources/js/hooks/use-post.tsx:95-105 | On success the post takes the reply's `liked` and `likes`. Otherwise the list is unchanged. |
| FeedState.PostsHook.AddComment | resources/js/hooks/use-post.tsx:107-122 | Text that is all white space sends nothing. On success the reply's comment is appended to that post, and otherwise the list is unchanged. |
| FeedState.PostsHook.DeleteComment | resources/js/hooks/use-post.tsx:124-139 | Nothing is sent without confirmation. On success the comment leaves that post, and otherwise the list is unchanged. |
| Text.TrimStart | resources/js/hooks/use-post.tsx:65 | The result is a suffix of the input. What it drops is white space, and it does not start with white space. |
| Text.TrimEnd | resources/js/hooks/use-post.tsx:65 | The result is a prefix of the input. What it drops is white space, and it does not end with white space. |
| Text.JsTrim | resources/js/hooks/use-post.tsx:65 | `s.trim()` is no longer than `s` and neither starts nor ends with white space. It is empty (falsy) exactly when every character of `s` is JavaScript white space. |
| Dashboard.Held | resources/js/pages/dashboard.tsx:27 | `prev?.map`: an absent list stays absent, and a present one gets the update. |
| Dashboard.DeleteButtonShown | resources/js/pages/dashboard.tsx:140 | The button shows exactly when the comment carries a `user_id` equal to the viewer's id. A null `user_id` never shows it. |
| Dashboard.DashboardPage.ShowsDelete | resources/js/pages/dashboard.tsx:140 | The page's guard compares with its own viewer id: the button shows exactly when DeleteButtonShown holds for that id, and never for a null `user_id`. |
| Dashboard.DashboardPage.constructor | resources/js/pages/dashboard.tsx:15-16 | The page starts with the posts from its props, which may be absent, and the viewer's id. |
| Dashboard.DashboardPage.ToggleLike | resources/js/pages/dashboard.tsx:18-32 | On success the post with the id takes the reply's `liked` and `likes`, and all other posts are unchanged. A failure or an exception, or an absent list, leaves the list as it was. |
| Dashboard.DashboardPage.AddComment | resources/js/pages/dashboard.tsx:34-53 | The handler returns at once exactly when the text is all white space. On success the reply's comment becomes the last comment of that post. Otherwise the list is unchanged. |
| Dashboard.DashboardPage.DeleteComment | resources/js/pages/dashboard.tsx:55-76 | Nothing is sent without confirmation. On success only that comment id leaves that post, with the length and order of the list kept. Otherwise the list is unchanged. |
| Dashboard.CommentForm.constructor | resources/js/pages/dashboard.tsx:163 | The field starts empty. |
| Dashboard.CommentForm.Change | resources/js/pages/dashboard.tsx:178 | The field takes the typed value. |
| Dashboard.CommentForm.Submit | resources/js/pages/dashboard.tsx:165-169 | The current text is submitted and the field is then reset to the empty string. |
| FeedSync.Recaption | app/Http/Controllers/PostInteractionController.php:60-61 | The post rows after a caption save: only `content` of the row with the id changes. |
| FeedSync.RecaptionLists | app/Http/Controllers/PostInteractionController.php:60-61 | Take a row list holding exactly the posts table. After Recaption it holds exactly the table Store.UpdateCaption leaves. |
| FeedSync.DeleteLists | app/Http/Controllers/PostInteractionController.php:83 | Take a row list holding exactly the posts table. Without the deleted row it holds exactly the table Store.Destroy leaves. |
| FeedSync.ProjectCommentsAppend | app/Http/Controllers/DashboardController.php:26-33 | The comment projection distributes over concatenation. |
| FeedSync.ProjectCommentsDrop | app/Http/Controllers/DashboardController.php:26-33 | Dropping a comment id before projecting equals dropping it after, because ids are copied. |
| FeedSync.CommentAddedInStep | resources/js/hooks/use-post.tsx:119-121 | Take the feed after the server inserts a comment. It equals the old feed with the server's reply appended to that post's comments. |
| FeedSync.CommentDeletedInStep | resources/js/hooks/use-post.tsx:132-137 | Take the feed after the server deletes a comment. When the browser names the post the comment is on, it equals the browser's filtered list. |
| FeedSync.CaptionEditedInStep | resources/js/hooks/use-post.tsx:78 | The feed after a caption save, with the caption stored as sent, equals the browser's content update. |
| FeedSync.CascadeKeepsOtherComments | app/Http/Controllers/PostInteractionController.php:83 | After a post's cascade, every other post keeps exactly its comments, in order. |
| FeedSync.PostDeletedInStep | resources/js/hooks/use-post.tsx:90-92 | The feed after the server deletes a post with its comments equals the browser's list with that post filtered out. |
| FeedSync.NewPostMatchesFeed | resources/js/hooks/use-post.tsx:39-49 | The record built after an upload agrees with the entry a reload shows on id, author name, caption, `liked` and comments. |
| FeedSync.DeleteButtonMatchesServer | resources/js/pages/dashboard.tsx:140 | The delete button shows exactly when the comment's author is resolvable and is the viewer. Then the server's author check would pass too. |

## Left out

- HTTP requests and responses, the CSRF token refresh, the meta-tag handling
  and JSON parsing are I/O. Each browser handler receives the reply the
  server sent as a parameter: an accepted body, a failure body or an
  exception. The server handlers return the reply body or an error.
- The storage disk is modelled as a set of paths. `makeDirectory` is not
  modelled. The file name that `store()` generates is a parameter. The image
  MIME-type and size rules are library validators and are left out.
- Transactions, isolation and concurrent requests are not modelled. Each
  handler, including the like toggle, is one atomic step. The catch branch of
  `like`, which replies 500 on a database exception, is not modelled.
- Interaction.Store.StorePost: the clock is the `now` parameter. The created
  post is the author's and starts with no comments and no likes.
- The `likes_count` attribute of the feed is a function passed to the
  projection. The ORM code that fills it is not part of this model.
- The order of the latest-first query is taken as given: the projection
  receives the posts in query order. `latest()` has no tie-break.
- Interaction.Store.Destroy assumes comments and likes are deleted with the
  post (an ON DELETE CASCADE foreign key); `$post->delete()` itself does not
  show this.
- Feed.CommentsOf: `$post->comments` has no `orderBy`, so the database
  decides the order of a post's comments. The model fixes it to table
  (insertion) order.
- FeedSync.CaptionEditedInStep: the server's input trimming (the
  `TrimStrings` middleware) stores a caption without its leading and
  trailing white space, while the browser keeps the untrimmed answer. For
  an answer such as `"hi "` the browser shows `"hi "` and a reload shows
  `"hi"`. The lemma covers only captions the server stores as sent.
- Framework input trimming (the `TrimStrings` middleware) is not modelled.
  The `required` rule is modelled as "trim leaves a non-empty string", with
  PHP's default trim characters.
- Ownership checks compare user ids as integers. The strict `!==` comparison
  is taken to see two integers.
- The browser's `confirm` and `prompt` dialogs are parameters (`confirmed`,
  `answer`). Rendering, JSX markup, `post-action-menu.tsx`, route wiring, the
  seeder, logging and `Inertia::render` are left out.
- The new-post form markup in `dashboard.tsx` is not wired to any handler
  and is not modelled.
