# Blogicum views, modelled in Dafny

Blogicum is a Django blog: users write posts, file them under categories,
comment on them and browse paginated feeds. Its view layer,
`blogicum/blog/views.py`, decides what a viewer may see and who may change a
row:

- the **visibility rule**: a post is public when it is published, has a
  published category, and its publication date is not in the future;
- the **author override**: an author sees their own hidden posts on the detail
  page and on their own profile;
- the **listing shape**: newest first, each post annotated with the count of
  all its comments, ten per page;
- the **mutation guards**: login for creating, authorship for updating and
  deleting, and the detail page a refused request is redirected to.

The model is an in-memory database. The read-only views are functions over a
snapshot `Models.Db` of four tables (users, categories, posts, comments). Each
view takes the viewer (`Option<UserId>`, `None` when anonymous) and the current
time `now` (an integer) as parameters, in place of `request.user` and
`timezone.now()`. The views that write are methods of the class
`Store.BlogStore`. Its fields are the tables; its `Valid()` invariant holds
the database constraints: primary keys (no key at two positions of its table,
so no row is listed twice), unique slugs and usernames, and the
foreign keys from posts to their authors and from comments to their authors
and posts. A post's category and location keys are not constrained: a post
whose category row is missing is simply never visible. Each method states the whole new state.

Modules:

- `Wrappers`: `Option`, and `Response` (a value, or HTTP 404).
- `Models`: the rows, `Visible`, `WellFormed`.
- `Sequences`: queryset operations over sequences. `Filter` is `filter`,
  `First` is a key lookup, `ReplaceWhere` is an update, and `SortBy` is a
  stable `order_by`.
- `Pagination`: `get_page_obj`.
- `Views`: `index`, `category_posts`, `profile`, `post_detail`, and the
  lookup done by `AddCommentView`.
- `Access`: `AuthorRequiredMixin`.
- `Store`: post creation, comment creation, and the update and delete views.

Two points where the model follows the code's literal behaviour rather than
a looser reading of the rules:

- A post with no category is never visible. `category__is_published=True` is
  a join, so such a post fails it; the rule is not "its category, if any, is
  published".
- An anonymous viewer who opens an update or delete view is not sent to
  login. Those views have no login mixin, so `test_func` fails and the viewer
  is redirected to the post's detail page.

Library behaviour the model assumes:

- Page choice follows Django's `Paginator.get_page`. A non-integer page
  selects page 1. An integer below 1 or past the end selects the last page.
  An empty listing still has one page.
- `blogicum/blog/models.py` is not part of this model. From the usual model
  definitions it assumes that:
  - a new post or comment is published (the forms do not set
    `is_published`);
  - a comment's `created_at` is the time it is saved;
  - deleting a post deletes its comments.

## Model

| member | source | states |
|---|---|---|
| Models.Visible | blogicum/blog/views.py:19-22 | a visible post is published, dated no later than now, and has a category whose row exists and is published; a post without a category is never visible |
| Models.VisibleStaysVisible | blogicum/blog/views.py:19-22 | a post visible at one time stays visible at every later time |
| Models.KeysNameOneRow | blogicum/blog/views.py:56-59 | in a well-formed database a user, category, post or comment key names at most one row, so `get_object_or_404` on it is unambiguous |
| Models.AppendCommentKeepsWellFormed | blogicum/blog/views.py:193-203 | saving a comment with a fresh key, an existing author and an existing post keeps every database constraint |
| Sequences.Filter | blogicum/blog/views.py:19-22 | a queryset filter keeps exactly the rows that satisfy the condition, and no more rows than it had |
| Sequences.FilterMultiplicity | blogicum/blog/views.py:19-22 | a filter keeps each satisfying row as often as it occurs and drops the rest |
| Sequences.FilterAppend | blogicum/blog/views.py:19-22 | filtering a concatenation is the concatenation of the filtered parts, so a filter keeps the rows' order |
| Sequences.ReplaceWhere | blogicum/blog/views.py:168-176 | an update overwrites the matching rows with the new row and keeps every other row, at the same length |
| Sequences.ReplaceWhereAt | blogicum/blog/views.py:168-176 | position by position, an update changes exactly the matching positions |
| Sequences.First | blogicum/blog/views.py:56-59 | a lookup finds a row satisfying the condition, and fails exactly when no row does |
| Sequences.SortBy | blogicum/blog/views.py:27 | ordering returns a permutation of its input, sorted by the key |
| Sequences.FilterFilter | blogicum/blog/views.py:109-116 | two chained filters select exactly the rows of the single filter by both conditions, in the same order |
| Sequences.FilterSame | blogicum/blog/views.py:109-116 | two conditions that agree on every row of a table select the same rows |
| Sequences.FilterOfPermutation | blogicum/blog/views.py:109-116 | filtering two reorderings of the same rows keeps the same rows, each as often, so ordering before or after a filter does not change what is kept |
| Sequences.DistinctKeysUnique | blogicum/blog/views.py:56-59 | when no key sits at two positions of a table, two rows with the same key are the same row, so a key lookup names one row |
| Sequences.DistinctKeysFilter | blogicum/blog/views.py:179-186 | deleting rows keeps a table's keys distinct |
| Sequences.DistinctKeysAppend | blogicum/blog/views.py:145-147 | inserting a row with a new key keeps a table's keys distinct |
| Sequences.DistinctKeysReplace | blogicum/blog/views.py:168-176 | overwriting rows by a row with the same key keeps a table's keys distinct |
| Sequences.FilterPreservesSorted | blogicum/blog/views.py:109-116 | filtering an ordered queryset (as profile does after order_by) keeps it ordered |
| Pagination.NumPages | blogicum/blog/views.py:14 | the page count is the fewest pages of 10 that hold the listing, and at least one |
| Pagination.PageNumber | blogicum/blog/views.py:15-16 | the page served is between 1 and the page count; a missing, empty or non-integer parameter gives page 1; an in-range number is served as asked; any other number gives the last page |
| Pagination.GetPageObj | blogicum/blog/views.py:13-16 | a page has at most 10 items and is the contiguous slice for its number; a missing or non-numeric page is page 1; an in-range page is served as asked; an out-of-range page gives the last page; a non-empty listing never gives an empty page |
| Pagination.ItemOnItsPage | blogicum/blog/views.py:13-16 | item i of a listing is item i mod 10 of page i/10+1, so every item can be reached |
| Pagination.PagesCoverListing | blogicum/blog/views.py:13-16 | the pages, concatenated in order, give back the whole listing |
| Views.Annotate | blogicum/blog/views.py:25-26 | each listed post carries comment_count equal to the number of all its comments, and the listing holds exactly the given posts, position by position in their order |
| Views.AnnotateThenFilter | blogicum/blog/views.py:103-116 | filtering an annotated queryset on the post is annotating the filtered posts |
| Views.OrderNewestFirst | blogicum/blog/views.py:27 | the listing is a permutation of its input (same multiset) with pub_date non-increasing |
| Views.IndexPosts | blogicum/blog/views.py:18-27 | the index feed holds exactly the visible posts, each with its comment count, newest first; it is a reordering of those annotated rows, each as often as in the table, so its length is their number |
| Views.Index | blogicum/blog/views.py:18-34 | the page is the requested page of the index feed (so GetPageObj's slice and page-choice facts apply); every post on it is visible and annotated; at most 10 posts, newest first |
| Views.PageOfListing | blogicum/blog/views.py:31 | a page of an ordered listing is ordered and holds only posts of that listing |
| Views.CategoryListing | blogicum/blog/views.py:80-88 | the category feed holds exactly the category's published posts dated no later than now, with comment counts, newest first; it is a reordering of those annotated posts, each exactly once per row of the table, so its length is theirs |
| Views.CategoryPosts | blogicum/blog/views.py:73-97 | not-found exactly when no published category has the slug; otherwise the page is the requested page of that category's CategoryListing, and every listed post is visible, in that category, annotated, at most 10 per page, newest first |
| Views.CategoryFeedIsIndexRestricted | blogicum/blog/views.py:19-22 | a published category's feed holds the same rows as the index feed restricted to that category, each as often (as multisets); only the order of posts with equal dates may differ |
| Views.ProfileListing | blogicum/blog/views.py:103-116 | the owner sees exactly all of their posts, including unpublished and future ones; any other viewer, anonymous included, sees exactly their visible posts; newest first, annotated; it is a reordering of exactly those annotated rows, each as often as in the table, so its length is the number of posts the viewer may see |
| Views.Profile | blogicum/blog/views.py:100-124 | not-found exactly when no user has the username; otherwise the page is the requested page of ProfileListing for that user and viewer (the owner's hidden posts included), and each listed post is the user's, annotated, visible unless the viewer is the owner, at most 10, newest first |
| Views.ProfileOwnerSeesMore | blogicum/blog/views.py:111-116 | whatever another viewer sees on a profile, its owner sees too |
| Views.DetailComments | blogicum/blog/views.py:61-62 | the detail page lists exactly the post's published comments, oldest first, whoever the viewer is; it is a reordering of exactly those rows, each shown once per row, so its length is their number |
| Views.PostDetail | blogicum/blog/views.py:37-70 | succeeds exactly when the post exists and either the signed-in viewer is its author or it is visible; an anonymous viewer only ever gets a visible post |
| Views.PostClosedForOthers | blogicum/blog/views.py:37-59 | a stored post that is not visible is a 404 for every viewer except its signed-in author |
| Views.PostOpensForAllowed | blogicum/blog/views.py:37-59 | a stored post opens at its own detail page, with its published comments, for its signed-in author and, once visible, for every viewer |
| Views.FeedPostsOpenForEveryone | blogicum/blog/views.py:18-59 | every post of the index feed opens at its detail page for every viewer |
| Views.CategoryFeedPostsOpenForEveryone | blogicum/blog/views.py:37-88 | every post of a published category's feed opens at its detail page for every viewer |
| Views.ProfilePostsOpen | blogicum/blog/views.py:37-116 | every post on a profile opens at its detail page for the viewer who saw it there, and for every viewer when that viewer was not the owner |
| Views.DetailQuery | blogicum/blog/views.py:38-54 | both branches of the query select exactly the post with the key whose author is the signed-in viewer or which is visible; for an anonymous viewer only the visible one |
| Views.HiddenPostReachesOnlyItsAuthor | blogicum/blog/views.py:18-116 | a post failing the visibility rule is absent from the index, every category feed, and other viewers' profile and detail views, and present on its author's profile and detail page |
| Views.CommentTarget | blogicum/blog/views.py:194-200 | the comment target is found exactly when a post with that key passes the visibility rule, with no author exception |
| Views.CommentTargetOpensForEveryone | blogicum/blog/views.py:194-200 | a post that accepts comments opens for every viewer at its detail page |
| Views.CommentCountCoversHidden | blogicum/blog/views.py:26 | comment_count is the number of published comments shown plus the unpublished ones hidden |
| Views.CommentCountAfterAppend | blogicum/blog/views.py:201-203 | saving a comment raises its post's comment count by one and leaves every other count unchanged |
| Access.TestFunc | blogicum/blog/views.py:155-157 | the test passes exactly when the viewer is signed in and is the object's author; an anonymous viewer always fails it |
| Access.HandleNoPermission | blogicum/blog/views.py:159-165 | a refused post redirects to its own detail page, a refused comment to its post's detail page, anything else to the index, never to login |
| Access.Authorize | blogicum/blog/views.py:154-165 | the change proceeds exactly when the viewer is signed in and is the author; an anonymous viewer is always refused; a refusal redirects as handle_no_permission says, never to login |
| Access.DenialLandsOnParentPost | blogicum/blog/views.py:159-165 | refusing a stored post or comment redirects to the detail page of an existing post: the post itself or the comment's post |
| Store.EditPost | blogicum/blog/views.py:168-176 | saving a post form changes exactly the form's fields: key, author and is_published stay, and the saved form reads back; re-submitting the pre-filled form changes nothing |
| Store.PostFormOf | blogicum/blog/forms.py:6-20 | the form an update view pre-fills shows the post's own title, text, location, publication date and category |
| Store.PrefilledPostFormChangesNothing | blogicum/blog/views.py:168-176 | saving a post's pre-filled form over it leaves the whole posts table unchanged, given unique keys |
| Store.UnchangedCommentFormChangesNothing | blogicum/blog/views.py:210-218 | saving a comment's unchanged text over it leaves the whole comments table unchanged, given unique keys |
| Store.DeletePostKeepsWellFormed | blogicum/blog/views.py:179-186 | removing a post together with its comments keeps the key and reference constraints |
| Store.DeleteCommentKeepsWellFormed | blogicum/blog/views.py:221-228 | removing a comment keeps the key and reference constraints |
| Store.ReplacePostKeepsWellFormed | blogicum/blog/views.py:168-176 | overwriting a post by a row with the same key and author keeps the tables' key and reference constraints |
| Store.ReplaceCommentKeepsWellFormed | blogicum/blog/views.py:210-218 | overwriting a comment by a row with the same key, author and post keeps the tables' key and reference constraints |
| Store.NewPost | blogicum/blog/views.py:145-147 | a created post carries the form's fields and the viewer as author |
| Store.EditComment | blogicum/blog/views.py:210-218 | saving a comment form changes only the text; re-submitting the unchanged form changes nothing |
| Store.BlogStore.CreatePost | blogicum/blog/views.py:140-151 | an anonymous viewer goes to login and nothing changes; otherwise exactly one post is appended, stamped with the viewer as author, with a redirect to the viewer's profile |
| Store.BlogStore.AddComment | blogicum/blog/views.py:189-207 | anonymous: login, nothing changes; post not visible (even to its author): 404, nothing changes; otherwise exactly one comment is appended with the viewer as author and the target as post, the post's comment count rises by one, and the viewer goes to the post's detail page |
| Store.BlogStore.UpdatePost | blogicum/blog/views.py:168-176 | 404 exactly when no post has the key; a non-author is redirected and nothing changes; the author's form replaces exactly that row, with a redirect to its detail page; re-submitting the pre-filled form leaves the table unchanged |
| Store.BlogStore.DeletePost | blogicum/blog/views.py:179-186 | 404 exactly when no post has the key; a non-author is redirected and nothing changes; for the author the post and its comments are removed, with a redirect to the author's profile |
| Store.BlogStore.UpdateComment | blogicum/blog/views.py:210-218 | 404 exactly when no comment has the key; a non-author is redirected to the comment's post and nothing changes; the author's text replaces exactly that row, with a redirect to the post's detail page; re-submitting the unchanged text leaves the table unchanged |
| Store.BlogStore.DeleteComment | blogicum/blog/views.py:221-228 | 404 exactly when no comment has the key; a non-author is redirected to the comment's post and nothing changes; for the author exactly that comment is removed, with a redirect to the post's detail page |

## Left out

- Template rendering, `select_related`, URL reversal and URL strings. Redirects are the `Access.Redirect` datatype; a profile target names the user whose username the URL carries.
- The login redirect of `LoginRequiredMixin`: it appears only as the `ToLogin` target.
- Form validation (`PostForm` and `CommentForm` are Django `ModelForm`s, whose rules are not in this repository). The methods model the submission of a valid form; an invalid form re-renders and changes nothing. The GET requests that only display a form are not modelled.
- The post image and its upload, and the titles and descriptions of categories and locations, which no view inspects.
- `UserUpdateView` (editing one's own user row) and registration in `blogicum/blogicum/views.py`: these are framework account plumbing with no rule of this repository beyond login.
- Categories and users are only read. The store is built with them and never changes them, because no view in this core writes them.
- Locations have no table in the model: a post carries only its location key, which no view of this core looks up or checks.
- Real datetimes and time zones: `now`, `pub_date` and `created_at` are integers.
- Transactions and concurrency: every method is one atomic step.
- The order of posts with equal `pub_date`, and of a post's comments with equal `created_at` on the detail page (`Views.DetailComments`), which the database leaves open. The model keeps them in table order (a stable sort), and no property depends on it.
- Store.EditPost: the date-only input of the post form (`forms.DateInput` with type `date`) is not modelled. The model's form carries the full `pub_date` timestamp, so the round trip "re-submitting the pre-filled form changes nothing" (and `Store.PrefilledPostFormChangesNothing`, and the matching clause of `Store.BlogStore.UpdatePost`) holds in the model only. A real re-submission resets the time of day to midnight, which can make a post dated later that day visible at once.
