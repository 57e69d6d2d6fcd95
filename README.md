# yatube posts — a verified Dafny model

This project models the `posts` application of yatube, a small blogging site. Users publish posts, optionally in a group. Other users comment on posts and follow authors. Every listing is shown newest first, ten posts to a page. The model covers two files:

- the views of `yatube/posts/views.py`;
- the entities of `yatube/posts/models.py`: their fields, `__str__` methods, default ordering and `on_delete` rules.

Modules:

- `Seqs` (`seqs.dfy`): how a table is read when it is held as a sequence of rows.
  - `Filter` is the ORM's `.filter(...)`: the rows that satisfy a predicate, in table order.
  - `Find` is `.get(...)` / `get_object_or_404`.
  - `Unique` is a uniqueness constraint.
- `Entities` (`entities.dfy`): the records `User`, `Group`, `Post`, `Comment` and `Follow`.
  - The `__str__` truncations.
  - The newest-first orderings and why every sub-listing keeps them.
  - Slug uniqueness.
  - Lookups by slug, username and id.
- `Paginator` (`paginator.dfy`): `paginator_page`, and the `Paginator(...).get_page(...)` behaviour of the web framework that it relies on. That behaviour is framework code, not code in the repository. It is modelled with the framework defaults: no orphans, empty first page allowed.
  - A missing or non-integer page number gives page 1.
  - An integer below 1 or past the end gives the last page.
- `Subscriptions` (`subscriptions.dfy`): the Follow table and its writes.
  - The table is a sequence of rows under the `(user, author)` uniqueness constraint added by `yatube/posts/migrations/0009_auto_20221204_0125.py`.
  - `get_or_create` and the deletion of one row.
  - Follower counts.
- `Forms` (`forms.py` as the views use it): cleaning a post form and a comment form. These rules are not code in the repository. They are the behaviour of the web framework's form fields (version 2.2, the one the migrations were generated with), just as the paginator's are.
  - Text is stripped of surrounding whitespace, must not be blank, and must not hold a NUL character.
  - A chosen group must exist.
  - An unbound form (no submitted data) is invalid.
- `Feeds` (`feeds.dfy`): the read-only views `index`, `group_posts`, `profile`, `post_detail` and `follow_index`. Each is a function from the tables and the request to what the view renders, or to its 404 or login redirect.
- `Store` (`store.dfy`): the database as a class `Store` whose table fields the mutating views change in place.
  - The views `post_create`, `post_edit`, `add_comment`, `profile_follow` and `profile_unfollow`, plus the `on_delete` cascades.
  - `Valid()` is the class invariant: keys are unique, every foreign key points at an existing row, posts and comments are stored newest first, and the id counters and clock are ahead of every stored row.
  - Each method keeps `Valid()` and states its whole new table state (all five tables) in terms of the old one. The helper steps that insert a row (`SavePost`, `SaveComment`) also state how the clock and id counters advance.
  - Each step is backed by a value-level lemma about `Db`, a snapshot of the five tables.

Where the code and its tests disagree, the model follows the code:

- `profile_follow` redirects to the profile (`yatube/posts/views.py:125`), although a test expects `follow_index` (`yatube/posts/tests/test_views.py:235-238`).
- `profile_unfollow` also redirects to the profile (`yatube/posts/views.py:133`), although a test expects `follow_index` (`yatube/posts/tests/test_views.py:247-250`).
- Following oneself is a silent no-op (`yatube/posts/views.py:122`), not an error.

## Model

| member | source | states |
|---|---|---|
| Seqs.Filter | yatube/posts/views.py:110 | the ORM's `.filter(...)`: exactly the rows that satisfy the condition, never more rows than the table |
| Seqs.Find | yatube/posts/views.py:80 | the ORM's `.get(...)` / `get_object_or_404`: a found row is stored and satisfies the condition, and none is found exactly when no row does |
| Entities.Truncate | yatube/posts/models.py:48 | `s[:n]`: a prefix of the text of length `min(n, len)`, and the whole text when it is short enough |
| Entities.PostStr | yatube/posts/models.py:46-48 | `str(post)` is a prefix of the text, 15 characters long or the whole text if shorter |
| Entities.CommentStr | yatube/posts/models.py:73-74 | `str(comment)` is a prefix of the text, 30 characters long or the whole text if shorter |
| Entities.GroupStr | yatube/posts/models.py:14-15 | `str(group)` is the group's title |
| Entities.PostsConsNewestFirst | yatube/posts/models.py:22 | a post dated after every stored post can be put at the head of a newest-first table and the table stays newest first |
| Entities.FilterPostsNewestFirst | yatube/posts/models.py:41-44 | every filtered post listing of a table ordered by `-pub_date` is itself strictly newest first |
| Entities.FilterCommentsNewestFirst | yatube/posts/models.py:70-71 | every filtered comment listing of a table ordered by `-created` is itself strictly newest first |
| Entities.GroupBySlug | yatube/posts/views.py:27 | the lookup finds a group carrying the slug, and finds none exactly when no group carries it |
| Entities.SlugLookupIsExact | yatube/posts/models.py:11 | with unique slugs, looking up a group's slug returns that very group |
| Entities.UserByName | yatube/posts/views.py:39 | the lookup finds a user with that username, and none exactly when no user has it |
| Entities.PostById | yatube/posts/views.py:56 | the lookup finds the post with that id, and none exactly when no post has it |
| Paginator.NumPages | yatube/posts/views.py:12 | at least one page, enough pages to hold every item, and no page left over |
| Paginator.ValidateNumber | yatube/posts/views.py:13-14 | a page number is accepted exactly when it is an integer between 1 and the page count; a missing or non-integer number is rejected as not an integer |
| Paginator.ResolveNumber | yatube/posts/views.py:14 | `get_page`'s choice: a valid number is kept, a missing or non-integer one gives page 1, and one below 1 or past the end gives the last page; always between 1 and the page count |
| Paginator.PageSlice | yatube/posts/views.py:14 | page `k` is the contiguous block that starts after `k-1` full pages; every page but the last is full, the last holds the rest, and it is non-empty when the listing is |
| Paginator.GetPage | yatube/posts/views.py:10-14 | a valid number is served as asked, a missing or non-integer one gives page 1, an out-of-range one gives the last page; at most `per_page` items |
| Paginator.Page.HasNext | yatube/posts/views.py:10-14 | `page.has_next()` of the page object handed to the templates |
| Paginator.HasNextIffItemsRemain | yatube/posts/views.py:10-14 | `has_next()` holds exactly when items of the listing remain after the page served, and `has_previous()` exactly when items come before it |
| Paginator.PagesFromAreSuffix | yatube/posts/views.py:10-14 | the pages from the `k`-th on, laid end to end, are exactly the items after the first `k-1` pages |
| Paginator.PagesReassemble | yatube/posts/views.py:10-14 | the pages taken in order reproduce the listing: nothing dropped, repeated or reordered |
| Paginator.ThirteenItems | yatube/posts/tests/test_views.py:189-202 | thirteen posts: page 1 holds 10 and has a next page, page 2 holds the last 3, and page numbers 0 and 99 give page 2 |
| Feeds.PageNewestFirst | yatube/posts/views.py:10-14 | a page of a newest-first listing is newest first |
| Feeds.PostPage | yatube/posts/views.py:10-14 | the page is exactly the one the paginator serves for the request with `POSTS_PER_PAGE` (10): at most 10 posts, all from the listing, newest first when the listing is |
| Feeds.GroupList | yatube/posts/views.py:28 | `group.posts.all()` holds exactly the posts of that group, newest first |
| Feeds.AuthorList | yatube/posts/views.py:44 | `author.posts.all()` holds exactly that author's posts, newest first |
| Feeds.FollowList | yatube/posts/views.py:110 | the follow feed holds exactly the posts whose author the viewer follows, newest first |
| Feeds.CommentList | yatube/posts/models.py:57-61 | `post.comments.all()` holds exactly that post's comments, newest first |
| Feeds.Index | yatube/posts/views.py:17-22 | the index renders exactly the requested page of all posts, newest first; the first page holds `min(10, count)` posts |
| Feeds.IndexPagesCoverPosts | yatube/posts/views.py:17-22 | every page number in range is served as that block of the listing, and the index's pages taken in order are exactly all posts |
| Feeds.GroupPosts | yatube/posts/views.py:25-34 | 404 exactly when no group has the slug; otherwise the group with that slug and a page of its posts only |
| Feeds.Profile | yatube/posts/views.py:37-51 | 404 exactly when no user has the username; otherwise that author and a page of their posts only; `following` is true exactly when the viewer is signed in and follows the author |
| Feeds.PostDetail | yatube/posts/views.py:54-62 | 404 exactly when no post has the id; otherwise that post and exactly its comments, newest first |
| Feeds.FollowIndex | yatube/posts/views.py:106-116 | a login redirect exactly for anonymous viewers; otherwise a page of posts by followed authors only |
| Feeds.GroupFeedIsExact | yatube/posts/views.py:25-29 | with unique slugs, a group's slug serves that group's feed, and its pages together are exactly the group's posts |
| Feeds.FollowGrowsFeed | yatube/posts/tests/test_views.py:264-289 | following a new author grows the follower's feed by exactly that author's post count and leaves every other viewer's feed unchanged |
| Feeds.NewPostHeadsFeeds | yatube/posts/views.py:17-22 | a newly published post is first on the index's first page and first in the feed of everyone following its author |
| Subscriptions.GetOrCreate | yatube/posts/views.py:124 | afterwards the edge is present, it was added only if missing (one more row), nothing else changes, and the table stays duplicate-free |
| Subscriptions.RemoveEdge | yatube/posts/views.py:131-132 | afterwards the edge is gone, every other row stays, one row fewer in a duplicate-free table, and it stays duplicate-free |
| Subscriptions.FollowerCount | yatube/posts/tests/test_views.py:229 | `author.following.count()`: exactly the number of follow rows whose author is that user (so at most the number of rows, and zero exactly when no row has that author) |
| Subscriptions.FollowAddsOneFollower | yatube/posts/tests/test_views.py:229-240 | following a new author raises their follower count by one and leaves every other author's count unchanged |
| Subscriptions.FollowIsIdempotent | yatube/posts/migrations/0009_auto_20221204_0125.py:101-104 | a second `get_or_create` of the same edge adds no second row |
| Subscriptions.UnfollowUndoesFollow | yatube/posts/tests/test_views.py:226-251 | following a new author and then unfollowing restores the table and every follower count |
| Subscriptions.UnfollowRemovesOneFollower | yatube/posts/views.py:131-132 | unfollowing lowers that author's follower count by one and leaves every other author's count unchanged |
| Forms.Strip | yatube/posts/forms.py:11 | stripped text is blank exactly when the input is all whitespace, and otherwise starts and ends with a non-whitespace character |
| Forms.StripKeepsMiddle | yatube/posts/forms.py:11 | stripping removes only whitespace, only at the ends, and keeps one contiguous piece of the text |
| Forms.StripIsIdempotent | yatube/posts/forms.py:11 | stripping twice is the same as stripping once |
| Forms.NulSurvivesStrip | yatube/posts/forms.py:11 | stripping never removes a NUL character, so the stripped text holds one exactly when the submitted text does |
| Forms.CleanText | yatube/posts/forms.py:11 | a text field accepts exactly the text whose stripped form is non-blank and holds no NUL character, and yields that stripped form |
| Forms.CleanPostForm | yatube/posts/views.py:68-69 | a post form is valid exactly when it is bound, its stripped text is non-blank, its text holds no NUL character and any chosen group exists; the cleaned data is the stripped text, the group and the image |
| Forms.CleanCommentForm | yatube/posts/views.py:97-98 | a comment form is valid exactly when it is bound, its stripped text is non-blank and its text holds no NUL character; the cleaned text is that stripped text |
| Store.Consistent | yatube/posts/models.py:7-87 | the database's guarantees (primary keys and usernames unique, slugs unique (`unique=True`), every foreign key resolving, follow rows unique per `(user, author)`, posts and comments newest first), plus the no-self-follow rule that `profile_follow` keeps but the database does not enforce (see Left out) |
| Store.ConsistentResolves | yatube/posts/models.py:7-87 | in a consistent database every post is found by its id, every user by their username and every group by its slug; every comment's post exists and every follow edge joins two existing users, distinct by the no-self-follow rule |
| Store.Store.Valid | yatube/posts/migrations/0009_auto_20221204_0125.py:101-104 | the class invariant: the tables are consistent (including the `(user, author)` constraint) and the id counters and clock are ahead of every stored row |
| Store.DeleteGroupDb | yatube/posts/models.py:28-34 | deleting a group removes only that group; every post stays in place with its group cleared if it was that group, and nothing else changes |
| Store.DeletePostDb | yatube/posts/models.py:57-61 | deleting a post removes exactly that post and exactly its comments, and nothing else changes |
| Store.DeleteUserDb | yatube/posts/models.py:23-27 | deleting a user removes exactly them, their posts, every comment that was theirs or on their posts, and every follow edge touching them |
| Store.DeleteGroupKeepsConsistent | yatube/posts/models.py:28-34 | after deleting a group, every key is still unique and every foreign key still resolves |
| Store.DeletePostKeepsConsistent | yatube/posts/models.py:57-61 | after deleting a post with its comments, every key is still unique and every foreign key still resolves |
| Store.DeleteUserKeepsConsistent | yatube/posts/models.py:78-87 | after the user cascade, every key is still unique and every foreign key still resolves |
| Store.EditPost | yatube/posts/views.py:83-86 | editing changes only the text, group and image of the post with that id, keeps the old image when none is uploaded, and keeps every id, author, date and other post |
| Store.EditKeepsConsistent | yatube/posts/views.py:83-86 | an edit whose group exists keeps every key unique and every foreign key resolving |
| Store.AddPostKeepsConsistent | yatube/posts/views.py:71-73 | a new post with a fresh id, the latest date, an existing author and an existing or no group keeps the tables consistent and newest first |
| Store.AddCommentKeepsConsistent | yatube/posts/views.py:99-102 | a new comment with a fresh id, the latest date, on an existing post by an existing user keeps the tables consistent and newest first |
| Store.FollowKeepsConsistent | yatube/posts/views.py:122-124 | an edge between two distinct existing users keeps the follow table duplicate-free and consistent |
| Store.UnfollowKeepsConsistent | yatube/posts/views.py:131-132 | removing an edge keeps the tables consistent |
| Store.Store.RegisterUser | yatube/posts/models.py:4 | a new username gets a fresh user appended; a taken username changes nothing |
| Store.Store.CreateGroup | yatube/posts/models.py:11 | a new slug gets a fresh group appended; a taken slug changes nothing |
| Store.Store.PostCreate | yatube/posts/views.py:65-74 | anonymous: login redirect, no change; invalid form: the form page is rendered again, no change; otherwise exactly one post goes to the head of the table, authored by the actor and dated now, and the answer is the actor's profile |
| Store.Store.PostEdit | yatube/posts/views.py:77-89 | anonymous: no change; unknown id: 404; a non-author is redirected to the post with no change; the author's invalid form renders the form page again with the post and changes nothing; a valid one applies `EditPost`; the post count never changes |
| Store.Store.AddComment | yatube/posts/views.py:92-103 | anonymous: no change; unknown post: 404; otherwise redirect to the post, and a valid form adds exactly one comment by the actor on that post, dated now, while an invalid form adds nothing |
| Store.Store.ProfileFollow | yatube/posts/views.py:119-125 | anonymous: no change; same username: no change; unknown username: 404; otherwise the edge is created if missing; the answer is the profile |
| Store.Store.ProfileUnfollow | yatube/posts/views.py:128-133 | anonymous: no change; 404 with no change unless the actor follows that username; otherwise exactly that edge is removed |
| Store.Store.SavePost | yatube/posts/views.py:71-73 | `post.save()`: the post goes to the head of the table and the clock and post counter advance |
| Store.Store.UpdatePost | yatube/posts/views.py:86 | `form.save()` on an existing post replaces the posts table by `EditPost` of it |
| Store.Store.SaveComment | yatube/posts/views.py:99-102 | `comment.save()`: the comment goes to the head of the table and the clock and comment counter advance |
| Store.Store.SaveFollow | yatube/posts/views.py:124 | `get_or_create` on the follow table |
| Store.Store.DeleteFollow | yatube/posts/views.py:132 | `.delete()` of one follow row |
| Store.Store.DeleteGroup | yatube/posts/models.py:28-34 | the new state is `DeleteGroupDb` of the old one, and the invariant holds |
| Store.Store.DeletePost | yatube/posts/models.py:57-61 | the comments go first, then the post; the new state is `DeletePostDb` of the old one |
| Store.Store.DeleteUser | yatube/posts/models.py:62-66 | the cascade runs edges, then comments, then posts, then the user; the new state is `DeleteUserDb` of the old one |

## Left out

- Template rendering, URL routing, HTTP status codes and the whole-page cache. A view answers with a tagged result (`Render`, `NotFound`, `LoginRedirect`, or a redirect target) instead.
- The `?next=` parameter of the login redirect.
- Authentication and user management belong to the framework. `Store.Store.RegisterUser` and `Store.Store.CreateGroup` stand in for them; the model keeps only a user's id and username.
- Python's `int()` parsing of the `page` query parameter. The parameter arrives already classified as missing, not an integer, or an integer.
- Paginator settings other than the ones the views use (orphans, an empty first page disallowed).
- Wall-clock time. `pub_date` and `created` come from a counter that every insert advances, so stored dates are strictly decreasing. Two posts created in the same instant (as `bulk_create` can produce) are not modelled.
- Images: only the stored name is kept, as an optional value. Upload validation, storage and the form's "clear" checkbox are not modelled.
- Forms.Strip: strips only space and tab through carriage return. Python's `str.strip()` also removes the ASCII separators `\x1c` to `\x1f` and the non-ASCII Unicode whitespace, and the model does not. The gap reaches form validity: a text made only of such characters (`\x1c`, or U+00A0) is accepted and saved by `Forms.CleanText`, `Forms.CleanPostForm` and `Forms.CleanCommentForm`, where the framework rejects it as blank.
- Field length limits (`max_length=200` on a group's title) and slug character validation.
- `Feeds.PostDetail`: `post_detail` itself passes only the post and an empty comment form to its template. The comments the page shows are read through the post's `comments` relation; the model returns them directly. The empty form is not modelled.
- `Post.str_author` (`yatube/posts/models.py:50-51`) only returns the author object.
- The no-self-follow rule is a class invariant kept by `profile_follow`, not a database constraint. The database itself would accept such a row.
- Concurrency and transactions: each view runs alone and to completion.
