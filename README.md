# A verified model of the next-blog comment service

This project models, in Dafny, the logic at the heart of a Next.js/Express
blog. It covers the following parts:

- **Comments (backend).** The comment service pages the top-level comments of
  a post newest first, three at a time. It pages the replies to a comment
  oldest first, two at a time. Each top-level comment carries its number of
  replies. Only the author may edit or delete a comment. Deleting a comment
  also deletes its replies.
- **Posts (backend).** The post listing has six posts per page. Create,
  update and delete check slugs and ownership.
- **Frontend.** The slug generator; the state of a comment thread and of the
  comments section of a post; the countdown hook; the onboarding redirect.
- **Small backend pieces.** The error middleware, the upload filter, the
  session and local-login configuration, sign-up, and the authenticated-user
  lookup.

Each source file becomes one module:

| module | file | form |
|---|---|---|
| `Comments` | backend/src/controllers/blog-posts.ts (comment handlers) | pure listings + `class CommentStore` |
| `BlogPosts` | backend/src/controllers/blog-posts.ts (post handlers) | pure listing + `class PostStore` |
| `Slugs` (over `Text`) | frontend/src/utils/utils.ts | pure |
| `CommentThread` (over `ClientComments`) | frontend/src/components/comments/CommentThread/index.tsx | pure list operations + `class Thread` |
| `CommentsSection` | frontend/src/components/comments/BlogCommentsSection/index.tsx | `class Section` |
| `Countdown` | frontend/src/hooks/useCountdown.ts | `class Countdown` |
| `ErrorHandler` | backend/src/middleware/errorHandler.ts | imperative method |
| `ImageUpload` | backend/src/middleware/image-upload.ts | pure |
| `OnboardingRedirect` | frontend/src/hooks/useOnboardingRedirect/index.ts | pure |
| `Passport` | backend/src/config/passport.ts | pure |
| `Users` | backend/src/controllers/users.ts | `class UserStore` |

`Options` and `Errors` hold the shared `Option`, `Error` and `Result` types.

## Modelling choices

- **Stores.** Each database collection is a sequence of records in insertion
  order. Each record gets the next value of a counter as its id, so ids
  increase with creation order. This stands in for ObjectIds, whose order
  follows creation time. Each store class keeps this order as its `Valid()`
  invariant.
- **Reply order.** The reply query has no sort. The model takes the store's
  natural order, which is insertion order and so ascending id. The `gt`
  cursor relies on this order: the order-dependent lemmas (page contents,
  paging to the end) need it.
- **Top-level filter.** The top-level query filters on
  `parentCommentId: undefined`. The model reads this as "has no parent".
- **Unchecked parent.** `createComment` stores any `parentCommentId`. It does
  not check that the parent exists or is itself top-level, and the model
  stores any parent too. `NestingAfterCreate` states exactly when a new record
  keeps the one-level nesting policy. `ReplyToReplyBreaksNesting` shows a
  store that accepts a reply to a reply and so breaks the policy.
  `deleteComment` removes only the direct replies, so the cascade keeps
  the policy only on stores that already keep it (`CascadeKeepsNesting`).
  `CascadeOrphansReplyToReply` shows the reply to a reply that survives
  when its grandparent is deleted, although its parent is gone.
- **Failures.** A missing signed-in user (or a missing uploaded image) fails
  `assertIsDefined`. The model gives `UnexpectedError` for this, which the
  error middleware reports as status 500. An error built with
  `createHttpError(404)` or `(401)` and no message carries the standard reason
  phrase as its message.
- **Async handlers.** React state updates that happen after an `await` are
  split in two:
  - a `Begin…` method for the part before the `await`;
  - a `Complete…` method for the part after it, which takes the request's
    outcome as a parameter.

  `CommentThread`'s completion appends the page to the replies list as it was
  when the request began. That is the value the closure captured.
  Likewise, the create box awaits the request and then calls the
  `handleCommentCreated` of the render in which the form was submitted, so
  `HandleCommentCreated` takes the comments list that render saw.
- **Case-insensitive usernames.** Sign-up's collation is modelled as equality
  after ASCII lower-casing.
- **Foreign calls as parameters.** Password hashing and comparison are
  function parameters: `hash` and `matches`.

## Model

| member | source | states |
|---|---|---|
| Comments.LookaheadPage | backend/src/controllers/blog-posts.ts:266-272 | The end flag holds iff at most `pageSize` rows remain. At the end the page is all remaining rows; otherwise it is exactly the first `pageSize` of them. |
| Comments.PastCursor | backend/src/controllers/blog-posts.ts:262-264 | The exclusive cursor keeps exactly the rows strictly past the cursor in the listing's direction; no cursor keeps all rows. |
| Comments.TopLevelNewestFirst | backend/src/controllers/blog-posts.ts:257-260 | The query returns exactly the stored comments of the post that have no parent. |
| Comments.RepliesInStoreOrder | backend/src/controllers/blog-posts.ts:304 | The query returns exactly the stored comments whose parent is the given id. |
| Comments.CountReplies | backend/src/controllers/blog-posts.ts:276-278 | The reply count equals the length of the reply listing for the same parent, and never exceeds the store's size. |
| Comments.GetCommentsForBlogPost | backend/src/controllers/blog-posts.ts:254-286 | At most 3 comments. Exactly 3 when the end flag is false. The end flag holds iff at most 3 rows remain past the cursor. Each `repliesCount` is the count of the comment's replies. |
| Comments.GetCommentReplies | backend/src/controllers/blog-posts.ts:301-321 | At most 2 replies. Exactly 2 when the end flag is false. The end flag holds iff at most 2 replies remain past the cursor. |
| Comments.TopLevelPageContents | backend/src/controllers/blog-posts.ts:254-272 | A top-level page holds only comments of the post without a parent. Their ids are strictly descending and all below the cursor. The page is a prefix of all matching rows, so nothing is skipped. |
| Comments.CountRepliesIsReplySetSize | backend/src/controllers/blog-posts.ts:276-278 | The count query equals the number of distinct stored comments naming the parent, and the length of the reply listing. |
| Comments.RepliesCountsExact | backend/src/controllers/blog-posts.ts:274-281 | Every `repliesCount` on a page is the size of the set of stored comments whose parent is that comment. |
| Comments.ReplyPageContents | backend/src/controllers/blog-posts.ts:301-316 | A reply page holds only replies to the given comment. Their ids are strictly ascending and all above the cursor. The page is a prefix of the remaining replies. |
| Comments.CursorAtRow | backend/src/controllers/blog-posts.ts:262-264 | Using the id of row k of an ordered listing as cursor leaves exactly the rows after k. |
| Comments.NextCursorSkipsShownRows | backend/src/controllers/blog-posts.ts:262-264 | Applying the last shown id as the next cursor yields exactly the rows not yet shown. |
| Comments.FollowTopLevelPagesFrom | backend/src/controllers/blog-posts.ts:254-272 | Following pages by the last shown id until the end flag is set yields exactly the rows past the starting cursor. |
| Comments.TopLevelPagingIsExhaustive | backend/src/controllers/blog-posts.ts:254-272 | Paging from the start shows every top-level comment of the post exactly once, newest first. |
| Comments.FollowReplyPagesFrom | backend/src/controllers/blog-posts.ts:301-316 | Following reply pages to the end yields exactly the replies past the starting cursor. |
| Comments.ReplyPagingIsExhaustive | backend/src/controllers/blog-posts.ts:301-316 | Paging from the start shows every reply exactly once, oldest first, and as many as the comment's `repliesCount`. |
| Comments.FindComment | backend/src/controllers/blog-posts.ts:366-372 | The lookup finds a record with the id, or reports that none has it. |
| Comments.DeleteById | backend/src/controllers/blog-posts.ts:408 | A record survives iff its id differs from the deleted one. |
| Comments.DeleteReplies | backend/src/controllers/blog-posts.ts:409 | A record survives iff it does not name the given id as parent. |
| Comments.CascadeDelete | backend/src/controllers/blog-posts.ts:408-409 | A record survives the two deletions iff it is not the deleted comment and does not name it as parent. |
| Comments.CascadeDeleteContents | backend/src/controllers/blog-posts.ts:408-409 | After the two deletions, a comment remains iff it was stored, is not the deleted one, and does not name it as parent, whoever wrote it. The store stays ordered. |
| Comments.NoRepliesAfterCascade | backend/src/controllers/blog-posts.ts:408-409 | After the cascade, the deleted comment's reply listing is empty and final. |
| Comments.NestingAfterCreate | backend/src/controllers/blog-posts.ts:339-344 | Adding a record keeps the one-level nesting policy iff the record is top-level or names an existing top-level comment. Nothing in `createComment` ensures this. |
| Comments.ReplyToReplyBreaksNesting | backend/src/controllers/blog-posts.ts:339-344 | A concrete store where storing a reply to a reply, which `createComment` allows, breaks the nesting policy. |
| Comments.CascadeKeepsNesting | backend/src/controllers/blog-posts.ts:398-409 | On a store that keeps the one-level nesting policy, the cascade leaves no reply whose parent is gone. |
| Comments.CascadeOrphansReplyToReply | backend/src/controllers/blog-posts.ts:408-409 | The cascade goes one level deep: on a store holding a reply to a reply, which `createComment` accepts, deleting the top-level comment keeps the reply to the reply while its parent is gone. |
| Comments.CommentStore.CreateComment | backend/src/controllers/blog-posts.ts:336-348 | No user: error 500, store unchanged. Otherwise the comment is stored at the end with the given post, text and unchecked parent, the user as author, and an id above every existing id. The top-level rows behind any cursor at most the new id are unchanged. |
| Comments.CreateKeepsTopLevelRows | backend/src/controllers/blog-posts.ts:257-264 | A comment created while a client pages newest first does not change the rows behind a cursor at most its id: the `lt` filter keeps it out. |
| Comments.CreateAppendsToReplyRows | backend/src/controllers/blog-posts.ts:304-308 | A comment created while a client pages through replies adds itself at the end of the remaining rows iff it replies to that parent and its id is past the cursor; the rows before it are unchanged. |
| Comments.CommentStore.UpdateComment | backend/src/controllers/blog-posts.ts:364-381 | 404 when the id is unknown. Otherwise 401 when the user is not the author. Otherwise only that comment's text changes and the updated comment is returned. The store is unchanged on every error. |
| Comments.CommentStore.DeleteComment | backend/src/controllers/blog-posts.ts:396-411 | The same 404 and 401 checks. Then the store becomes the cascade deletion of the comment and its replies, with status 200. |
| BlogPosts.CeilDiv | backend/src/controllers/blog-posts.ts:57 | `ceil(total / size)`: the least page count that covers every result. |
| BlogPosts.GetBlogPosts | backend/src/controllers/blog-posts.ts:38-63 | At most 6 posts. The requested page number is echoed. `totalPages` is the ceiling of the matching-post count over 6. |
| BlogPosts.PostsNewestFirst | backend/src/controllers/blog-posts.ts:41-44 | The query returns exactly the stored posts that match the optional author filter. |
| BlogPosts.PageShowsSlice | backend/src/controllers/blog-posts.ts:46-57 | Page p shows the listing from position `(p-1)*6`: six rows, or what remains, or none. |
| BlogPosts.GetBlogPostsContents | backend/src/controllers/blog-posts.ts:39-57 | Page p shows listing rows `(p-1)*6` onward. Its length is 6, or what remains, or 0. All its posts match the filter and appear newest first. The page is non-empty iff `p <= totalPages`. |
| BlogPosts.PageInRange | backend/src/controllers/blog-posts.ts:46-57 | A page number p >= 1 skips fewer posts than there are exactly when p is at most `ceil(total / 6)`. |
| BlogPosts.CountPostsIsListed | backend/src/controllers/blog-posts.ts:50 | The count query equals the number of posts the listing query returns. |
| BlogPosts.CountPosts | backend/src/controllers/blog-posts.ts:50 | The count never exceeds the number of stored posts, and without an author filter it is that number. |
| BlogPosts.FindBySlug | backend/src/controllers/blog-posts.ts:111 | The slug lookup finds a post with the slug, or reports that none has it. |
| BlogPosts.FindPost | backend/src/controllers/blog-posts.ts:166 | The lookup by id finds a post with the id, or reports that none has it. |
| BlogPosts.SlugTakenByOther | backend/src/controllers/blog-posts.ts:157-164 | The 409 condition holds only if another post holds the slug; when slugs are unique it holds whenever another post holds it. |
| BlogPosts.PostStore.CreateBlogPost | backend/src/controllers/blog-posts.ts:107-138 | Missing image or user: error 500. An existing slug: 409. Otherwise the post is appended under a fresh id, with the signed-in user as author and the image URL of that id. Slugs stay unique. |
| BlogPosts.PostStore.UpdateBlogPost | backend/src/controllers/blog-posts.ts:154-199 | The 409 for a slug held by another post comes before 404 and 401. On success only that post changes: slug, title, summary and body are replaced, and the image URL is replaced with its update time when an image came. Slugs stay unique. |
| BlogPosts.PostStore.DeleteBlogPost | backend/src/controllers/blog-posts.ts:213-239 | 404, then 401, then exactly that post is removed, with status 204. |
| Slugs.SlugShape | frontend/src/utils/utils.ts:6-12 | The slug contains only `a-z`, `0-9` and `-`. It never starts or ends with `-` and never contains `--`. |
| Slugs.GenerateSlug | frontend/src/utils/utils.ts:6-12 | The slug is never longer than the input. |
| Slugs.DropDisallowed | frontend/src/utils/utils.ts:8 | Only ASCII letters, digits and spaces remain, the result is no longer than the input, and a string made only of such characters is returned unchanged. |
| Slugs.DropDisallowedOfChar | frontend/src/utils/utils.ts:8 | A single ASCII letter, digit or space is kept; any other character is dropped. |
| Slugs.DropDisallowedOfConcat | frontend/src/utils/utils.ts:8 | The filter works character by character: filtering a concatenation is the concatenation of the filtered parts. With the single-character case, the filter keeps exactly the ASCII letters, digits and spaces, in order. |
| Slugs.TrimStart | frontend/src/utils/utils.ts:9 | The result does not start with white space and is no longer than the input. |
| Slugs.TrimEnd | frontend/src/utils/utils.ts:9 | The result does not end with white space and is no longer than the input. |
| Slugs.Trim | frontend/src/utils/utils.ts:9 | The result neither starts nor ends with white space and is no longer than the input. |
| Slugs.WhitespaceToDash | frontend/src/utils/utils.ts:11 | The result has the input's length; `WhitespaceToDashAt` gives it character by character. |
| Slugs.SlugKeepsAlphanumerics | frontend/src/utils/utils.ts:6-12 | Deleting the dashes from the slug gives the input's ASCII letters and digits, lower-cased, in order. |
| Slugs.DegenerateInputGivesEmptySlug | frontend/src/utils/utils.ts:6-12 | Input without an ASCII letter or digit gives the empty slug. |
| Slugs.SlugOfTwoWords | frontend/src/utils/utils.ts:6-12 | `"a b"` becomes `"a-b"`. |
| Slugs.SlugIsNotIdempotent | frontend/src/utils/utils.ts:8 | Feeding a slug back in removes its dashes: `"a-b"` becomes `"ab"`. |
| Slugs.MergeSpaces | frontend/src/utils/utils.ts:10 | The result has no two spaces in a row and keeps the first and last characters. |
| Slugs.MergeSpacesKeepsWords | frontend/src/utils/utils.ts:10 | Merging removes only spaces that follow a space: each run of spaces keeps exactly one, so the words and the gaps between them are unchanged. |
| Slugs.WhitespaceToDashAt | frontend/src/utils/utils.ts:11 | Each white-space character becomes `-` and every other character is kept, position by position. |
| Slugs.TrimStartRemovesLeadingWhitespace | frontend/src/utils/utils.ts:9 | Trimming the front removes a prefix made only of white space and keeps the rest as a suffix. |
| Slugs.TrimEndRemovesTrailingWhitespace | frontend/src/utils/utils.ts:9 | Trimming the end removes a suffix made only of white space and keeps the rest as a prefix. |
| Slugs.TrimKept | frontend/src/utils/utils.ts:9 | On letters, digits and spaces, trimming leaves only such characters, no space at either end, and the same letters and digits in order. |
| Slugs.TrimKeepsWords | frontend/src/utils/utils.ts:9 | On letters, digits and spaces, trimming keeps the words and the gaps between them. |
| Slugs.DashesJoinWords | frontend/src/utils/utils.ts:11 | On words separated by single spaces, replacing white space by `-` gives the words joined by single dashes. |
| Slugs.SlugIsJoinedWords | frontend/src/utils/utils.ts:6-12 | The slug is the input's words, after dropping every character other than an ASCII letter, digit or space, joined by single dashes and lower-cased: dashes go exactly where a run of spaces separates two words, never at an edge. |
| Slugs.WordsOfTitle | frontend/src/utils/utils.ts:9-11 | `"  ab  c "` has the words `ab` and `c`, joined as `"ab-c"`: edge spaces give no dash, two spaces give one. |
| Text.AlphanumericsOfLower | frontend/src/utils/utils.ts:12 | Lower-casing and picking out letters and digits commute. |
| Text.ToLower | frontend/src/utils/utils.ts:12 | Same length; each character is replaced by its ASCII lower-case form. |
| CommentThread.ReplaceById | frontend/src/components/comments/CommentThread/index.tsx:50-55 | Same length and order. Exactly the entries with the edited id are replaced by the edited reply. |
| CommentThread.RemoveById | frontend/src/components/comments/CommentThread/index.tsx:57-60 | An entry survives iff its id differs from the deleted one. |
| CommentThread.RemoveByIdOfConcat | frontend/src/components/comments/CommentThread/index.tsx:57-60 | The filter distributes over concatenation, so the surviving entries keep their relative order. |
| CommentThread.RemoveByIdIdempotent | frontend/src/components/comments/CommentThread/index.tsx:57-60 | Deleting the same reply twice is the same as deleting it once. |
| CommentThread.LoadRepliesButton | frontend/src/components/comments/CommentThread/index.tsx:76-102 | Shown iff `repliesCount` is present and non-zero, no load is running, and the end flag is not true. The label "Show N reply/replies" appears iff no page has been loaded yet. Its noun is "reply" iff N is 1. |
| CommentThread.Thread.Button | frontend/src/components/comments/CommentThread/index.tsx:76-102 | The thread's button is shown iff its comment has a non-zero `repliesCount`, no load is running and the end flag is not true. It shows the count iff no page has been loaded yet. |
| ClientComments.LastId | frontend/src/components/comments/CommentThread/index.tsx:27 | The cursor is absent iff the list is empty, and otherwise is the id of the last entry. |
| CommentThread.Thread.constructor | frontend/src/components/comments/CommentThread/index.tsx:18-24 | No replies, no local replies, not loading, no error, end flag undefined. |
| CommentThread.Thread.BeginRepliesLoad | frontend/src/components/comments/CommentThread/index.tsx:27-30 | The cursor is the id of the last loaded reply, or absent when none is loaded. Loading is set and the error cleared. The current replies are captured for the completion. |
| CommentThread.Thread.CompleteRepliesLoad | frontend/src/components/comments/CommentThread/index.tsx:35-43 | Success: replies become the captured replies followed by the page, the end flag is taken from the response, and local replies are cleared. Failure: the error flag is set and nothing else changes. Loading is off after both. |
| CommentThread.Thread.HandleReplyCreated | frontend/src/components/comments/CommentThread/index.tsx:46-48 | The reply is appended to the local replies only. |
| CommentThread.Thread.HandleRemoteReplyUpdate | frontend/src/components/comments/CommentThread/index.tsx:50-55 | Loaded replies with the edited id are replaced; length, order and all other state are kept. |
| CommentThread.Thread.HandleRemoteReplyDeleted | frontend/src/components/comments/CommentThread/index.tsx:57-60 | Loaded replies with the deleted id are removed and the rest keep their order. |
| CommentThread.Thread.HandleLocalReplyUpdated | frontend/src/components/comments/CommentThread/index.tsx:62-67 | The same replacement, on the local replies. |
| CommentThread.Thread.HandleLocalReplyDeleted | frontend/src/components/comments/CommentThread/index.tsx:69-74 | The same removal, on the local replies. |
| CommentThread.Thread.CompleteRepliesLoadOnCurrent | frontend/src/components/comments/BlogCommentsSection/index.tsx:33-36 | The reply completion with a functional update. The page is appended to the replies present when the answer arrives. |
| CommentThread.DeletedDuringLoadReappears | frontend/src/components/comments/CommentThread/index.tsx:35 | A reply deleted while a page loads is gone after the delete and shown again once the page arrives. |
| CommentThread.DeletedDuringLoadStaysDeleted | frontend/src/components/comments/CommentThread/index.tsx:57-60 | With the functional update, a reply deleted during the load stays deleted unless the page itself holds it. |
| CommentsSection.SectionFooter | frontend/src/components/comments/BlogCommentsSection/index.tsx:69-78 | The empty notice shows iff the end flag is true and the list is empty. "Show more" shows iff no load is running and the end flag is not true. Its cursor is the id of the last comment, or absent for an empty list. The two never show together. |
| CommentsSection.Section.ShownFooter | frontend/src/components/comments/BlogCommentsSection/index.tsx:69-78 | The empty notice implies an empty list and no button. The button implies no load is running, and its cursor is the last comment's id. |
| CommentsSection.Section.constructor | frontend/src/components/comments/BlogCommentsSection/index.tsx:13-17 | Empty list, not loading, no error, end flag undefined. |
| CommentsSection.Section.BeginCommentsLoad | frontend/src/components/comments/BlogCommentsSection/index.tsx:22-23 | Loading is set and the error cleared. |
| CommentsSection.Section.CompleteCommentsLoad | frontend/src/components/comments/BlogCommentsSection/index.tsx:29-44 | Success without a cursor: the page replaces the list. Success with a cursor: the page is appended to the current list. The end flag is taken from the response. Failure: the error flag is set and the list is kept. Loading is off after both. |
| CommentsSection.Section.HandleCommentCreated | frontend/src/components/comments/CreateCommentBox/index.tsx:44-53 | The new comment is put in front of the list captured when the form was submitted, which the handler of that render closes over; loading, error and end flag are kept. |
| CommentsSection.Section.HandleCommentCreatedOnCurrent | frontend/src/components/comments/BlogCommentsSection/index.tsx:33-36 | The handler with a functional update: the new comment is put in front of the list as it is when the create request answers. |
| CommentsSection.LoadedPageLostOnCreate | frontend/src/components/comments/BlogCommentsSection/index.tsx:53-55 | A page loaded while a comment is being created is shown, then dropped when the create request answers. |
| CommentsSection.LoadedPageKeptOnCreate | frontend/src/components/comments/BlogCommentsSection/index.tsx:33-36 | With the functional update, every comment shown before the create request answers, and every comment of a page loaded meanwhile, is still shown after it, behind the new comment. |
| Countdown.AfterSeconds | frontend/src/hooks/useCountdown.ts:6-14 | A non-positive value never changes. A positive value stays between 0 and its start. |
| Countdown.CountsDownByOne | frontend/src/hooks/useCountdown.ts:6-14 | From n >= 0, the value after k seconds is n - k while k <= n, and 0 afterwards. |
| Countdown.ReachesZeroAndStops | frontend/src/hooks/useCountdown.ts:7-11 | After n seconds the value is 0 and no timer is scheduled. |
| Countdown.Countdown.constructor | frontend/src/hooks/useCountdown.ts:4 | The counter starts at 0. |
| Countdown.Countdown.Start | frontend/src/hooks/useCountdown.ts:16-18 | `start(n)` sets the counter to n, replacing any running value. |
| Countdown.Countdown.Tick | frontend/src/hooks/useCountdown.ts:7-11 | A timer exists only for a positive value. When it fires, the counter drops by exactly one and stays non-negative. |
| ErrorHandler.HandleError | backend/src/middleware/errorHandler.ts:4-14 | An HTTP error is answered with its own status and message; any other error with 500 and "An unknown error occured". The body is always `{ error: message }`. The status is set once and `next` is never called. |
| ImageUpload.FileFilter | backend/src/middleware/image-upload.ts:7-14 | Accepts iff the MIME type is exactly `image/png` or `image/jpeg`. Otherwise rejects with "Unaccepted file type". |
| ImageUpload.UploadLimits | backend/src/middleware/image-upload.ts:4-14 | The size limit is 5242880 bytes. `image/jpg` and `IMAGE/PNG` are rejected; `image/png` and `image/jpeg` are accepted. |
| OnboardingRedirect.RedirectTarget | frontend/src/hooks/useOnboardingRedirect/index.ts:9-13 | Redirects iff a user is loaded, its username is absent or empty, and the path is not `/onboarding`. The target is `/onboarding?returnTo=` followed by `asPath`. So no user means no redirect. |
| OnboardingRedirect.PathOf | frontend/src/hooks/useOnboardingRedirect/index.ts:10-11 | The path of a URL is its prefix before the first `?`. |
| OnboardingRedirect.RedirectDoesNotLoop | frontend/src/hooks/useOnboardingRedirect/index.ts:10-11 | The redirect target's path is `/onboarding`, and from there the hook does not redirect again. |
| Passport.SerializeUser | backend/src/config/passport.ts:8-15 | Deserializing the serialized session gives an object whose id is the user's id. |
| Passport.DeserializeUser | backend/src/config/passport.ts:13-15 | The session user carries exactly the id kept in the session, and nothing else. |
| Passport.FindByUsername | backend/src/config/passport.ts:21-23 | The login lookup finds a user whose username is exactly the given one, or reports that none has it. |
| Passport.VerifyLocal | backend/src/config/passport.ts:19-45 | A lookup error is passed on. The login is refused iff the user is unknown, has no password or an empty one (both falsy), or the password does not match. On success the result is the stored user without its password. |
| Passport.LoginAfterSignUp | backend/src/config/passport.ts:19-45 | After a successful sign-up, whose stored hash is never empty, logging in with the same username and password succeeds and yields the new user without password. |
| Passport.LoginIsCaseSensitive | backend/src/config/passport.ts:21 | Unlike sign-up, login compares usernames exactly: "Al" cannot log in as "al". |
| Users.WithoutPassword | backend/src/controllers/users.ts:37-39 | The copy has no password and differs from the record in nothing else. |
| Users.FindUsernameIgnoringCase | backend/src/controllers/users.ts:20-23 | Finds a user whose username equals the given one up to case, or reports that none does. |
| Users.FindUserById | backend/src/controllers/users.ts:55-57 | Finds the user with the id, or reports that none has it. |
| Users.UserStore.SignUp | backend/src/controllers/users.ts:18-43 | A username equal up to case to an existing one: 409 "Username already taken" and nothing is stored. Otherwise the user is stored with the username as display name and the hash of the password, never the password itself. The response has status 201 and omits the password. Usernames stay distinct up to case. |
| Users.UserStore.GetAuthenticatedUser | backend/src/controllers/users.ts:50-59 | No session user: 401. Otherwise the stored user with the session id, without password, or nothing when no user has that id. |

## Left out

- Image processing with `sharp`, writing and deleting files, and the static upload path are file I/O. The model records only whether an image came with the request.
- Multer's own enforcement of the size limit is library code. Only the constant is modelled.
- The revalidation requests to the website after a post update or delete are network I/O.
- The frontend network wrappers are network I/O. A request's outcome is a parameter of the `Complete…` methods.
- `Promise.all` in the post listing and the reply counts is modelled as sequential reads.
- `populate('author')` is left out. The model stores author ids, not author documents.
- Timestamps (`createdAt`, `updatedAt`, the "(Edited)" mark) depend on the clock and are not modelled. The time of an image update is a parameter.
- ObjectId generation and validity are left out. Ids are integers from a counter, and a malformed id is not modelled.
- Bcrypt hashing and comparison are parameters, `hash` and `matches`. A comparison that throws is not modelled.
- The collation used by sign-up is modelled as ASCII case-folding. Its treatment of accents and of non-ASCII letters is not modelled.
- `parseInt` of an absent, invalid or non-positive page number is not modelled. `GetBlogPosts` requires `page >= 1`.
- Store failures and partial failures are not modelled. An example is a `deleteMany` that fails after `deleteOne` succeeded; each handler is modelled as all-or-nothing.
- Unique indexes that the user and post schemas may declare are not modelled. The user and post schemas are not part of this model. That `password` is not selected by default is inferred from the `+password` selections.
- `req.logIn` after sign-up is left out. Only the stored user and the response are modelled.
- `logOut` is not modelled.
- `formatDate`, the email, auth and validation utilities, server start-up, routes and CORS are not modelled.
- All rendering, forms, modals and navigation are not modelled. The redirect is modelled as the target it pushes.
- The first comments page is loaded when the section mounts. The model leaves that call to the caller of `BeginCommentsLoad`.
- The component key that resets the section when the post changes is not modelled.
- `console.error` in the error middleware and in the comment components, and the `alert` of the create box, are console and UI output and are not modelled.
- Comments.CommentStore.CreateComment: the 201 status of the response is not modelled, because the method returns only the stored comment.
- BlogPosts.PostStore.CreateBlogPost: the 201 status of the response is not modelled, because the method returns only the stored post.
- The create box's `if (!text) return` and its form reset are not modelled: validation and the form are UI.

## Findings

| source | as written | input that shows it | evidently intended | confidence | as-written member | corrected member |
|---|---|---|---|---|---|---|
| frontend/src/components/comments/CommentThread/index.tsx:35 | The loaded page is appended to the `replies` value captured when the load began. | Load one reply (id 1). Start loading the next page. Delete reply 1 while that request is in flight. When the page arrives, reply 1 is shown again although it is deleted. | Append the page to the replies as they are when the answer arrives, as `BlogCommentsSection` does with its functional update (index.tsx:33-36). A reply deleted during the load then stays deleted. | low, not executed; no component of this snapshot passes the thread's delete handlers down yet | CommentThread.DeletedDuringLoadReappears | CommentThread.DeletedDuringLoadStaysDeleted |
| frontend/src/components/comments/BlogCommentsSection/index.tsx:54 | `handleCommentCreated` prepends to the `comments` of the render in which the form was submitted; the create box calls it after awaiting the request (CreateCommentBox/index.tsx:48-53). | Load the first page (comment 1). Submit a new comment. While that request is in flight, load the next page (comment 0). When the create request answers, the list becomes the new comment and comment 1: comment 0 is dropped. | Prepend with a functional update, as the page load does (index.tsx:33-36), so a page loaded meanwhile is kept. | medium, not executed | CommentsSection.LoadedPageLostOnCreate | CommentsSection.LoadedPageKeptOnCreate |
