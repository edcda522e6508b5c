# Yatube posts: a Dafny model of the blog's handlers

Yatube is a small blogging site. Users write posts, may file them under a
group, comment on posts, and follow other authors. A follow feed shows
the posts of the authors a user follows. Every listing is cut into pages
of `POSTS_COUNT` posts.

This project models the domain logic of the posts app's handlers, with
the database replaced by an in-memory store.

- `pagination.dfy` (module `Pagination`) models `paginator_create`. It is
  a pure function that cuts an ordered listing into pages and picks the
  requested one. The lemmas cover the first page, the second page, the
  last page, and the fact that the pages together give back the listing
  in order.
- `models.dfy` (module `Models`) holds the rows of the post, comment and
  follow tables as datatypes. It also holds the queries the handlers run
  over those tables as functions: filters, the follow-feed join, the
  follow-table updates and the primary-key lookup. The lemmas state the
  follow relation's idempotence, the self-follow guard, and that the
  follow feed lists exactly the posts of followed authors.
- `views.dfy` (module `Views`) holds the class `Store`, which stands for
  the database. The read-only handlers (`index`, `group_posts`,
  `profile`, the read path of `post_detail`, `follow_index`) are
  functions over it. The writing handlers (`profile_follow`,
  `profile_unfollow`, `post_create`, `post_edit`, `add_comment`) are
  methods that update its tables in place. Each handler takes the
  requesting user, which is `None` for an anonymous visitor. It answers
  with a `Response`: `Render(context)`, `Redirect(target)`, `NotFound`,
  or `LoginRequired` (the login redirect of `@login_required`). In every
  case that does not write, the store is left unchanged. The frame of
  each method also says that it touches only the one table it writes.
  `UnfollowScenario` and `NewPostScenario` replay the two follow tests
  of the app against the handlers' contracts.

Modelling decisions:

- Users are identified by their unique username, groups by their unique
  slug, and posts by their primary key. Primary keys are given out in
  increasing order from 1.
- Listings are newest first. `posts/models.py` is not part of this model,
  so its default ordering is not either. The store keeps posts newest
  first, so `post_create` puts the new post at the head of the sequence,
  and every listing is a filter of that sequence in store order.
  Comments are kept newest first in the same way: `add_comment` puts the
  new comment at the head of the comment sequence.
- The follow table is a sequence of rows, not a set. This is so that the
  guard in `profile_follow` has something to protect: `Valid()` says that
  no row occurs twice, and every handler keeps that true. This matters
  for `follow_index`. Its query is a join of posts with follow rows
  (`Models.FollowFeed`), which would list a post twice for a duplicated
  row. `Models.FollowFeedIsFilter` proves that it does not.
- Self-follow is blocked. The handler tests `user != author`
  (yatube/posts/views.py:132), so a user never follows themselves.
- Form validation comes from `posts/forms.py`, which is not part of this
  model. A post form is valid when its text is non-empty and its group is
  either empty (`None`) or an existing group. The group check is how a
  model choice field validates. A comment form is valid when its text is
  non-empty. A request without form data is `None`, which is how an
  unbound form behaves: it is never valid.
- Page numbers follow Django's `Paginator.get_page`, which is framework
  code outside the repository. This is an explicit assumption of the
  model. An absent or non-integer `page` gives page 1. An integer naming
  an existing page gives that page. Any other integer gives the last
  page, and that includes zero and negative numbers. An empty listing
  has one empty page. `orphans` is 0.
- `POSTS_COUNT` lives in `posts/constants.py`, which is not part of this
  model. `Pagination.PostsCount` is declared as some positive page size
  with no fixed value, so everything proved holds for any positive page
  size.
- Pagination has no side effects: `Paginate` is a function of the
  listing, so the listing it is given is unchanged.

## Model

| member | source | states |
|---|---|---|
| `Pagination.NumPages` | yatube/posts/utils.py:7 | There is always at least one page, and an empty listing has exactly one. For a non-empty listing, the last page starts before its end and reaches its end. |
| `Pagination.ResolvePage` | yatube/posts/utils.py:8 | The page chosen always exists. It is page 1 without an integer page number, the requested page when that page exists, and the last page for any other integer. |
| `Pagination.BottomBounds` | yatube/posts/utils.py:8 | Every page starts inside the listing. Every page before the last ends strictly before the end of the listing, and the last page reaches the end. |
| `Pagination.PageItems` | yatube/posts/utils.py:7-8 | A page is the contiguous slice of the listing that starts at its offset. It holds at most `size` items. Every page but the last is full, and no page of a non-empty listing is empty. |
| `Pagination.Paginate` | yatube/posts/utils.py:6-8 | The page returned is the one the request selects (as `ResolvePage` chooses it), carries the page count of the listing, and holds that page's slice of the listing. |
| `Pagination.FirstPage` | yatube/posts/views.py:14 | With no page number, page 1 is shown. It holds the first `size` items in order when there are at least `size`, and all of them otherwise. Its first item is the listing's first item. |
| `Pagination.SecondPage` | yatube/posts/tests/test_views.py:246-251 | When `size < N <= 2*size`, page 2 exists and holds the last `N - size` items. |
| `Pagination.LastPage` | yatube/posts/utils.py:7-8 | The last page of a non-empty listing holds `N % size` items, or `size` items when `size` divides `N`. |
| `Pagination.PagesFromSuffix` | yatube/posts/utils.py:7-8 | Pages `k` onwards, laid end to end, are exactly the listing from the start of page `k`. |
| `Pagination.PagesPartition` | yatube/posts/utils.py:6-8 | All pages, read in order, give back the listing exactly: nothing is lost, repeated or reordered. |
| `Models.IsFollowing` | yatube/posts/views.py:33-34 | The check is true exactly when some row of the table has that user and that author. |
| `Models.Following` | yatube/posts/views.py:33-34 | An author is in the set a user follows exactly when the table has the row (user, author). |
| `Models.WithFollow` | yatube/posts/views.py:131-136 | The only row follow can add is (user, author), and it is added only for two different users. Every other row keeps its multiplicity, and a table without duplicates stays without duplicates. |
| `Models.RemoveRow` | yatube/posts/views.py:145 | Deleting a row takes away exactly one occurrence of it, and the table otherwise stays the same multiset of rows. |
| `Models.WithoutFollow` | yatube/posts/views.py:144-145 | Unfollow is a no-op when the row is absent. Every other row keeps its multiplicity. On a table without duplicates, the row is gone afterwards and the table still has no duplicates. |
| `Models.FollowIdempotent` | yatube/posts/views.py:131-136 | Following twice gives the same table as following once, and the table then holds exactly one (user, author) row. |
| `Models.NoSelfFollow` | yatube/posts/views.py:132 | A user's attempt to follow themselves leaves the follow table unchanged. |
| `Models.FollowingAfterFollow` | yatube/posts/views.py:131-136 | After a follow, the follower's set of followed authors gains that author. Every other user's set is unchanged. |
| `Models.FollowingAfterUnfollow` | yatube/posts/views.py:144-145 | After an unfollow, the user's set of followed authors loses that author. Every other user's set is unchanged. |
| `Models.PostsByAuthors` | yatube/posts/views.py:31 | The result holds exactly the posts by the given authors, and it is no longer than the input. |
| `Models.PostsInGroup` | yatube/posts/views.py:21 | The result holds exactly the posts of the group, and it is no longer than the input. |
| `Models.CommentsOn` | yatube/posts/views.py:55 | The result holds exactly the comments whose parent is the post. |
| `Models.Copies` | yatube/posts/views.py:120 | `n` copies of a post: exactly `n` items, all that post. |
| `Models.FollowFeed` | yatube/posts/views.py:120 | The join yields exactly the posts whose author the user follows. |
| `Models.FollowFeedCount` | yatube/posts/views.py:120 | The join lists each post as many times as it occurs in the posts times the number of matching follow rows. |
| `Models.PostsByAuthorsAppend` | yatube/posts/views.py:31 | Filtering by author distributes over concatenation, so the filter keeps the posts' order. |
| `Models.PostsInGroupAppend` | yatube/posts/views.py:21 | Filtering by group distributes over concatenation, so the filter keeps the posts' order. |
| `Models.CommentsOnAppend` | yatube/posts/views.py:55 | Filtering comments by post distributes over concatenation, so the filter keeps the comments' order. |
| `Models.FollowFeedAppend` | yatube/posts/views.py:120 | The follow-feed join distributes over concatenation, so it keeps the posts' order. |
| `Models.FollowFeedIsFilter` | yatube/posts/views.py:120 | When the table has no duplicates, the join is the order-preserving filter of the posts by followed authors, each post listed once. |
| `Models.NewPostInFeed` | yatube/posts/tests/test_views.py:331-353 | A new post at the head of the post list heads the feed of every follower of its author. It leaves the feed of every other user unchanged. |
| `Models.FindPost` | yatube/posts/views.py:44 | The lookup finds a post with the requested key, or reports that no post has that key. |
| `Models.FindPostUnique` | yatube/posts/views.py:83 | When keys are unique, the lookup finds the one post with that key. |
| `Views.Store.ValidPostForm` | yatube/posts/views.py:71 | A valid form has non-empty text. A form naming a group that does not exist is invalid. Non-empty text with no group, or with an existing group, is valid. A request without form data is invalid. `post_edit` uses the same check. |
| `Views.Store.ValidCommentForm` | yatube/posts/views.py:109 | A missing or empty text is invalid, and any non-empty text is valid. |
| `Views.Store.Index` | yatube/posts/views.py:11-16 | The index shows the page the request selects, out of the pages of all posts, and its items are that page's slice of the store's posts. It holds at most `POSTS_COUNT` posts. |
| `Views.Store.GroupPosts` | yatube/posts/views.py:19-26 | An unknown slug gives `NotFound`. Otherwise the page is the one the request selects, out of the pages of the group's posts, and its items are that page's slice of the group's posts. |
| `Views.Store.Profile` | yatube/posts/views.py:29-40 | An unknown username gives `NotFound`. Otherwise the page is the one the request selects, and its items are that page's slice of the author's posts. `following` is false for an anonymous viewer, and otherwise is true exactly when the (viewer, author) row exists. |
| `Views.Store.PostDetail` | yatube/posts/views.py:43-61 | An unknown key gives `NotFound`. Otherwise the page shows the post with that key and exactly the comments on it, newest first. |
| `Views.Store.NewestCommentFirst` | yatube/posts/tests/test_forms.py:171-176 | The newest comment on an existing post is the first comment its page shows. |
| `Views.Store.FollowIndex` | yatube/posts/views.py:117-124 | An anonymous viewer gets `LoginRequired`. A signed-in user gets the page the request selects of the follow-feed join, so it holds only posts whose author they follow. |
| `Views.Store.ProfileFollow` | yatube/posts/views.py:127-137 | An anonymous viewer gets `LoginRequired` and an unknown author gets `NotFound`; neither changes anything. Otherwise the table becomes `WithFollow` of the old one and the answer is a redirect to the author's profile. Only the follow table changes, and it keeps no duplicate rows. |
| `Views.Store.ProfileUnfollow` | yatube/posts/views.py:140-146 | An anonymous viewer gets `LoginRequired` and an unknown author gets `NotFound`; neither changes anything. Otherwise the table becomes `WithoutFollow` of the old one and the answer is a redirect to the author's profile. Only the follow table changes. |
| `Views.Store.PostCreate` | yatube/posts/views.py:64-78 | A valid form by a signed-in user adds exactly one post, with a fresh key, that user as author and the form's text and group. The post is added as the newest, and the answer is a redirect to the user's profile. An invalid form adds nothing and renders the form again. Keys stay unique. |
| `Views.Store.PostEdit` | yatube/posts/views.py:81-102 | Every post keeps its key, its author and its place. An unknown key gives `NotFound`. A non-author is redirected to the post's page and nothing changes. A valid form by the author replaces only that post's text and group (an empty group becomes none) and redirects to the post's page. An invalid form changes nothing and renders the form again. |
| `Views.Store.AddComment` | yatube/posts/views.py:105-114 | An anonymous viewer gets `LoginRequired` and an unknown post gets `NotFound`; neither changes anything. On an existing post, a valid text adds exactly one comment, as the newest, with the viewer as author and the post as parent, and an invalid text adds nothing. The answer is a redirect to the post's page in both cases. |
| `Views.Store.IndexPageCounts` | yatube/posts/tests/test_views.py:246-251 | Index page 1 holds `POSTS_COUNT` posts when there are at least that many. Page 2 holds `N - POSTS_COUNT` when `POSTS_COUNT < N <= 2*POSTS_COUNT`. |
| `Views.Store.GroupPageCounts` | yatube/posts/views.py:24 | The same two page sizes hold for a group's listing. |
| `Views.Store.ProfilePageCounts` | yatube/posts/views.py:37 | The same two page sizes hold for an author's profile listing. |
| `Views.Store.FollowIndexIsFilter` | yatube/posts/views.py:120-122 | In a valid store, the follow feed's page is that page of the order-preserving filter of the posts by followed authors. |
| `Views.Store.NewestPostInFollowIndex` | yatube/posts/tests/test_views.py:331-353 | The newest post is the first item of page 1 of the follow feed of every follower of its author. It is on no page of the follow feed of anyone else. |
| `Views.FollowTestStore` | yatube/posts/tests/test_views.py:272-287 | The follow tests' store: four users, a post by `first_auth` and then one by `second_auth`, and no follow rows. |
| `Views.BothFollowedStore` | yatube/posts/tests/test_views.py:297-302 | After `user_1` follows both authors, the table holds exactly those two rows. |
| `Views.UnfollowScenario` | yatube/posts/tests/test_views.py:296-329 | While `user_1` follows both authors, page 1 of their feed starts with `second_auth`'s post. After the unfollow, it starts with a post by `first_auth`, which is a different post. |
| `Views.NewPostTestStore` | yatube/posts/tests/test_views.py:331-344 | After the three follows and the new post by `second_auth`, the tables hold exactly those rows and the new post is the newest. |
| `Views.NewPostScenario` | yatube/posts/tests/test_views.py:331-353 | The new post heads `user_1`'s feed. `user_2`'s feed starts with a post by `first_auth` whose text is not the new one. |

## Left out

- HTTP, templates and context dictionaries. Responses are tags, and
  redirect targets are the profile or post page they name.
- The `?next=` parameter of the login redirect. An anonymous visitor to
  a protected handler gets `LoginRequired`, and nothing changes.
- The `@cache_page(20, key_prefix='index_page')` response cache on
  `index`. It is a wall-clock, framework-level cache. The model's `index`
  always reflects the current store.
- Image upload and file storage (`request.FILES`). Posts have no image
  field in the model.
- Form internals from `posts/forms.py`, which is not part of this model:
  whitespace stripping, length limits and field types. Validity is
  reduced to the rules described above.
- Timestamps. Creation order is the position in the store's sequence.
- The comment-saving branch of `post_detail` (yatube/posts/views.py:47-52).
  It redirects to a template path and takes the author from a possibly
  anonymous user, so its behaviour is not well defined. Only the read
  path of `post_detail` is modelled.
- Parsing of the `page` string. The request's page number arrives
  already classified as absent, not an integer, or an integer.
- Pagination metadata beyond the page number and the page count (the
  previous/next links, item ranges), which the templates derive from
  these two.
- Concurrent requests. Every handler runs to completion on its own.
- Users, groups and their creation (authentication, sign-up, group
  administration). The store is built with fixed sets of users and
  groups.
- The post texts of the follow tests. The scenarios use the short texts
  `first`, `second` and `new` in their place, since the tests only rely
  on the texts being different.
- `Views.Store.PostDetail`: the default ordering of comments is set in
  `posts/models.py`, which is not part of this model. The model assumes
  newest first, as for posts, which is what the comment form's test reads
  (yatube/posts/tests/test_forms.py:174).
