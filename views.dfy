/**
 * The request handlers of the posts app (yatube/posts/views.py) over an
 * in-memory store that stands for the database. Each handler takes the
 * requesting user (None for an anonymous visitor) and the request's
 * parameters, and answers with a response tag; the handlers that write
 * change the store in place.
 */
module Views {
  import opened Models
  import opened Pagination

  /** Where a redirect leads: an author's profile or a post's detail page. */
  datatype Target = ProfilePage(username: UserName) | DetailPage(id: nat)

  /** What a handler answers: a rendered page with its context, a
      redirect, the not-found page, or the login redirect that
      `@login_required` issues for an anonymous visitor. */
  datatype Response<T> = Render(context: T) | Redirect(to: Target) | NotFound | LoginRequired

  /** The submitted post form: its text and its group choice (None for
      the empty choice). */
  datatype PostForm = PostForm(text: string, group: Option<Slug>)

  /** The context of the profile page. */
  datatype ProfileContext = ProfileContext(author: UserName, page: Page<Post>, following: bool)

  /** The context of the post detail page. */
  datatype DetailContext = DetailContext(post: Post, comments: seq<Comment>)

  /** The database: users, groups, and the post, comment and follow
      tables. Posts are kept newest first, the order every listing shows. */
  class Store {
    var users: set<UserName>
    var groups: set<Slug>
    var posts: seq<Post>
    var comments: seq<Comment>
    var follows: seq<Follow>
    var nextId: nat

    /** Primary keys are unique and below the next one to be given out,
        and no follow row is stored twice. */
    ghost predicate Valid()
      reads this
    {
      && Unique(follows)
      && UniqueIds(posts)
      && (forall p :: p in posts ==> p.id < nextId)
    }

    /** A store with the given users and groups and empty tables. */
    constructor (users: set<UserName>, groups: set<Slug>)
      ensures Valid()
      ensures this.users == users && this.groups == groups
      ensures posts == [] && comments == [] && follows == [] && nextId == 1
    {
      this.users := users;
      this.groups := groups;
      posts := [];
      comments := [];
      follows := [];
      nextId := 1;
    }

    /** A post form validates when the text is non-empty and the group,
        if chosen, exists. `None` is a request without form data. */
    predicate ValidPostForm(form: Option<PostForm>): (ok: bool)
      reads this
      ensures ok ==> form.Some? && |form.value.text| > 0
      ensures form.Some? && form.value.group.Some? && form.value.group.value !in groups ==> !ok
      ensures form.Some? && |form.value.text| > 0 && form.value.group.None? ==> ok
      ensures form.Some? && |form.value.text| > 0 && form.value.group.Some? && form.value.group.value in groups ==> ok
    {
      form.Some? && |form.value.text| > 0 && (form.value.group.Some? ==> form.value.group.value in groups)
    }

    /** A comment form validates when its text is non-empty. */
    static predicate ValidCommentForm(text: Option<string>): (ok: bool)
      ensures text.None? || text == Some([]) ==> !ok
      ensures text.Some? && text.value != [] ==> ok
    {
      text.Some? && |text.value| > 0
    }

    // ----- listings -----

    /** `index`: one page of all posts. */
    function Index(req: PageRequest): (r: Page<Post>)
      reads this
      ensures r.numPages == NumPages(|posts|, PostsCount)
      ensures r.number == ResolvePage(|posts|, PostsCount, req)
      ensures r.items == PageItems(posts, PostsCount, r.number)
      ensures |r.items| <= PostsCount
      ensures forall p :: p in r.items ==> p in posts
    {
      Paginate(posts, PostsCount, req)
    }

    /** `group_posts`: one page of the posts of an existing group. */
    function GroupPosts(slug: Slug, req: PageRequest): (r: Response<Page<Post>>)
      reads this
      ensures r.Render? <==> slug in groups
      ensures !r.Render? ==> r == NotFound
      ensures r.Render? ==> r.context.numPages == NumPages(|PostsInGroup(posts, slug)|, PostsCount)
      ensures r.Render? ==> r.context.number == ResolvePage(|PostsInGroup(posts, slug)|, PostsCount, req)
      ensures r.Render? ==> r.context.items == PageItems(PostsInGroup(posts, slug), PostsCount, r.context.number)
      ensures r.Render? ==> forall p :: p in r.context.items ==> p in posts && p.group == Some(slug)
    {
      if slug !in groups then NotFound
      else Render(Paginate(PostsInGroup(posts, slug), PostsCount, req))
    }

    /** `profile`: one page of an existing author's posts, and whether the
        viewer follows that author (never, for an anonymous viewer). */
    function Profile(viewer: Option<UserName>, username: UserName, req: PageRequest): (r: Response<ProfileContext>)
      reads this
      ensures r.Render? <==> username in users
      ensures !r.Render? ==> r == NotFound
      ensures r.Render? ==> r.context.author == username
      ensures r.Render? ==> (r.context.following <==> viewer.Some? && IsFollowing(follows, viewer.value, username))
      ensures r.Render? ==> r.context.page.numPages == NumPages(|PostsByAuthors(posts, {username})|, PostsCount)
      ensures r.Render? ==> r.context.page.number == ResolvePage(|PostsByAuthors(posts, {username})|, PostsCount, req)
      ensures r.Render? ==> r.context.page.items == PageItems(PostsByAuthors(posts, {username}), PostsCount, r.context.page.number)
      ensures r.Render? ==> forall p :: p in r.context.page.items ==> p in posts && p.author == username
    {
      if username !in users then NotFound
      else
        var following := viewer.Some? && IsFollowing(follows, viewer.value, username);
        Render(ProfileContext(username, Paginate(PostsByAuthors(posts, {username}), PostsCount, req), following))
    }

    /** The read path of `post_detail`: an existing post and its comments,
        newest first. */
    function PostDetail(id: nat): (r: Response<DetailContext>)
      reads this
      ensures r.Render? <==> exists p :: p in posts && p.id == id
      ensures !r.Render? ==> r == NotFound
      ensures r.Render? ==> r.context.post in posts && r.context.post.id == id
      ensures r.Render? ==> forall c :: c in r.context.comments <==> c in comments && c.post == id
      ensures r.Render? ==> r.context.comments == CommentsOn(comments, id)
    {
      match FindPost(posts, id)
      case None => NotFound
      case Some(i) => Render(DetailContext(posts[i], CommentsOn(comments, id)))
    }

    /** `follow_index`: for a signed-in user, one page of the posts of the
        authors they follow. */
    function FollowIndex(viewer: Option<UserName>, req: PageRequest): (r: Response<Page<Post>>)
      reads this
      ensures viewer.None? <==> r == LoginRequired
      ensures viewer.Some? ==> r.Render?
      ensures r.Render? ==> r.context.number == ResolvePage(|FollowFeed(posts, follows, viewer.value)|, PostsCount, req)
      ensures r.Render? ==> r.context.items == PageItems(FollowFeed(posts, follows, viewer.value), PostsCount, r.context.number)
      ensures r.Render? ==> forall p :: p in r.context.items ==> p in posts && IsFollowing(follows, viewer.value, p.author)
    {
      if viewer.None? then LoginRequired
      else Render(Paginate(FollowFeed(posts, follows, viewer.value), PostsCount, req))
    }

    // ----- handlers that write -----

    /** `profile_follow`: a signed-in user starts following an existing
        author unless it is themselves or they already do; the answer is
        always the author's profile. */
    method ProfileFollow(viewer: Option<UserName>, username: UserName) returns (r: Response<()>)
      requires Valid()
      modifies this`follows
      ensures Valid()
      ensures viewer.None? ==> r == LoginRequired && follows == old(follows)
      ensures viewer.Some? && username !in users ==> r == NotFound && follows == old(follows)
      ensures viewer.Some? && username in users ==>
        r == Redirect(ProfilePage(username)) && follows == WithFollow(old(follows), viewer.value, username)
    {
      if viewer.None? {
        return LoginRequired;
      }
      if username !in users {
        return NotFound;
      }
      var user := viewer.value;
      if user != username && !IsFollowing(follows, user, username) {
        follows := follows + [Follow(user, username)];
      }
      r := Redirect(ProfilePage(username));
    }

    /** `profile_unfollow`: a signed-in user stops following an existing
        author if they did; the answer is always the author's profile. */
    method ProfileUnfollow(viewer: Option<UserName>, username: UserName) returns (r: Response<()>)
      requires Valid()
      modifies this`follows
      ensures Valid()
      ensures viewer.None? ==> r == LoginRequired && follows == old(follows)
      ensures viewer.Some? && username !in users ==> r == NotFound && follows == old(follows)
      ensures viewer.Some? && username in users ==>
        r == Redirect(ProfilePage(username)) && follows == WithoutFollow(old(follows), viewer.value, username)
    {
      if viewer.None? {
        return LoginRequired;
      }
      if username !in users {
        return NotFound;
      }
      var user := viewer.value;
      if IsFollowing(follows, user, username) {
        follows := RemoveRow(follows, Follow(user, username));
      }
      r := Redirect(ProfilePage(username));
    }

    /** `post_create`: a valid form by a signed-in user adds one post by
        that user, newest of all, and leads to their profile; an invalid
        form adds nothing and shows the form again. */
    method PostCreate(viewer: Option<UserName>, form: Option<PostForm>) returns (r: Response<()>)
      requires Valid()
      modifies this`posts, this`nextId
      ensures Valid()
      ensures viewer.None? ==> r == LoginRequired && posts == old(posts) && nextId == old(nextId)
      ensures viewer.Some? && !ValidPostForm(form) ==> r == Render(()) && posts == old(posts) && nextId == old(nextId)
      ensures viewer.Some? && ValidPostForm(form) ==>
        && r == Redirect(ProfilePage(viewer.value))
        && posts == [Post(old(nextId), viewer.value, form.value.text, form.value.group)] + old(posts)
        && nextId == old(nextId) + 1
    {
      if viewer.None? {
        return LoginRequired;
      }
      if !ValidPostForm(form) {
        return Render(());
      }
      var post := Post(nextId, viewer.value, form.value.text, form.value.group);
      posts := [post] + posts;
      nextId := nextId + 1;
      r := Redirect(ProfilePage(viewer.value));
    }

    /** `post_edit`: only the author of an existing post may change it.
        Anyone else is sent to the post's page and nothing changes. A valid
        form by the author rewrites the text and group of the same post,
        keeping its key, its author and its place, and leads to the post's
        page; an invalid form shows the form again. */
    method PostEdit(viewer: Option<UserName>, id: nat, form: Option<PostForm>) returns (r: Response<()>)
      requires Valid()
      modifies this`posts
      ensures Valid()
      ensures |posts| == |old(posts)|
      ensures forall j :: 0 <= j < |posts| ==> posts[j].id == old(posts)[j].id && posts[j].author == old(posts)[j].author
      ensures viewer.None? ==> r == LoginRequired && posts == old(posts)
      ensures viewer.Some? && FindPost(old(posts), id).None? ==> r == NotFound && posts == old(posts)
      ensures viewer.Some? && FindPost(old(posts), id).Some? ==>
        var i := FindPost(old(posts), id).value;
        if old(posts)[i].author != viewer.value then
          r == Redirect(DetailPage(id)) && posts == old(posts)
        else if ValidPostForm(form) then
          r == Redirect(DetailPage(id)) &&
          posts == old(posts)[i := Post(id, viewer.value, form.value.text, form.value.group)]
        else
          r == Render(()) && posts == old(posts)
    {
      if viewer.None? {
        return LoginRequired;
      }
      var found := FindPost(posts, id);
      if found.None? {
        return NotFound;
      }
      var i := found.value;
      if posts[i].author != viewer.value {
        return Redirect(DetailPage(id));
      }
      if ValidPostForm(form) {
        posts := posts[i := posts[i].(text := form.value.text, group := form.value.group)];
        return Redirect(DetailPage(id));
      }
      r := Render(());
    }

    /** `add_comment`: on an existing post, a valid comment by a signed-in
        user is stored, newest of all, with that user as author and the
        post as parent; valid or not, the answer is the post's page. */
    method AddComment(viewer: Option<UserName>, id: nat, text: Option<string>) returns (r: Response<()>)
      requires Valid()
      modifies this`comments
      ensures Valid()
      ensures viewer.None? ==> r == LoginRequired && comments == old(comments)
      ensures viewer.Some? && FindPost(posts, id).None? ==> r == NotFound && comments == old(comments)
      ensures viewer.Some? && FindPost(posts, id).Some? ==>
        && r == Redirect(DetailPage(id))
        && comments == (if ValidCommentForm(text) then [Comment(id, viewer.value, text.value)] else []) + old(comments)
    {
      if viewer.None? {
        return LoginRequired;
      }
      if FindPost(posts, id).None? {
        return NotFound;
      }
      if ValidCommentForm(text) {
        comments := [Comment(id, viewer.value, text.value)] + comments;
      }
      r := Redirect(DetailPage(id));
    }

    // ----- properties of the listings -----

    /** The newest comment, when it is on an existing post, is the first
        comment that post's page shows. */
    lemma NewestCommentFirst(id: nat)
      requires FindPost(posts, id).Some? && |comments| > 0 && comments[0].post == id
      ensures PostDetail(id).Render?
      ensures PostDetail(id).context.comments[0] == comments[0]
    {
      assert comments == [comments[0]] + comments[1..];
    }

    /** Page 1 of the index is full when there are enough posts, and
        page 2 holds the rest when they fit on two pages. */
    lemma IndexPageCounts()
      ensures |posts| >= PostsCount ==> |Index(NoPage).items| == PostsCount
      ensures PostsCount < |posts| <= 2 * PostsCount ==> |Index(Number(2)).items| == |posts| - PostsCount
    {
      FirstPage(posts, PostsCount, NoPage);
      if PostsCount < |posts| <= 2 * PostsCount {
        SecondPage(posts, PostsCount);
      }
    }

    /** The same page sizes hold for a group's listing. */
    lemma GroupPageCounts(slug: Slug)
      requires slug in groups
      ensures var n := |PostsInGroup(posts, slug)|;
        && (n >= PostsCount ==> |GroupPosts(slug, NoPage).context.items| == PostsCount)
        && (PostsCount < n <= 2 * PostsCount ==> |GroupPosts(slug, Number(2)).context.items| == n - PostsCount)
    {
      var listing := PostsInGroup(posts, slug);
      FirstPage(listing, PostsCount, NoPage);
      if PostsCount < |listing| <= 2 * PostsCount {
        SecondPage(listing, PostsCount);
      }
    }

    /** The same page sizes hold for an author's profile listing. */
    lemma ProfilePageCounts(viewer: Option<UserName>, username: UserName)
      requires username in users
      ensures var n := |PostsByAuthors(posts, {username})|;
        && (n >= PostsCount ==> |Profile(viewer, username, NoPage).context.page.items| == PostsCount)
        && (PostsCount < n <= 2 * PostsCount ==> |Profile(viewer, username, Number(2)).context.page.items| == n - PostsCount)
    {
      var listing := PostsByAuthors(posts, {username});
      FirstPage(listing, PostsCount, NoPage);
      if PostsCount < |listing| <= 2 * PostsCount {
        SecondPage(listing, PostsCount);
      }
    }

    /** In a valid store the follow feed lists each post of a followed
        author once, in the store's order. */
    lemma FollowIndexIsFilter(user: UserName, req: PageRequest)
      requires Valid()
      ensures FollowIndex(Some(user), req) == Render(Paginate(PostsByAuthors(posts, Following(follows, user)), PostsCount, req))
    {
      FollowFeedIsFilter(posts, follows, user);
    }

    /** The newest post heads the first page of the follow feed of each
        follower of its author, and is on no page of the feed of anyone
        else. */
    lemma NewestPostInFollowIndex(user: UserName, req: PageRequest)
      requires Valid() && |posts| > 0
      ensures IsFollowing(follows, user, posts[0].author) ==> FollowIndex(Some(user), NoPage).context.items[0] == posts[0]
      ensures !IsFollowing(follows, user, posts[0].author) ==> posts[0] !in FollowIndex(Some(user), req).context.items
    {
      var newest := posts[0];
      if IsFollowing(follows, user, newest.author) {
        NewPostInFeed(posts[1..], follows, newest, user);
        assert [newest] + posts[1..] == posts;
        FirstPage(FollowFeed(posts, follows, user), PostsCount, NoPage);
      }
    }
  }

  /** The store of the app's follow tests: four users, a post by
      `first_auth` and then one by `second_auth`, and no follow rows. */
  method FollowTestStore() returns (store: Store)
    ensures fresh(store) && store.Valid()
    ensures store.users == {"first_auth", "second_auth", "user_1", "user_2"}
    ensures store.posts == [Post(2, "second_auth", "second", None), Post(1, "first_auth", "first", None)]
    ensures store.follows == [] && store.nextId == 3
  {
    store := new Store({"first_auth", "second_auth", "user_1", "user_2"}, {});
    var r := store.PostCreate(Some("first_auth"), Some(PostForm("first", None)));
    r := store.PostCreate(Some("second_auth"), Some(PostForm("second", None)));
  }

  /** The store of the follow tests once `user_1` follows both authors. */
  method BothFollowedStore() returns (store: Store)
    ensures fresh(store) && store.Valid()
    ensures store.users == {"first_auth", "second_auth", "user_1", "user_2"}
    ensures store.posts == [Post(2, "second_auth", "second", None), Post(1, "first_auth", "first", None)]
    ensures store.follows == [Follow("user_1", "first_auth"), Follow("user_1", "second_auth")]
    ensures store.nextId == 3
  {
    store := FollowTestStore();
    var r := store.ProfileFollow(Some("user_1"), "first_auth");
    assert store.follows == [Follow("user_1", "first_auth")];
    r := store.ProfileFollow(Some("user_1"), "second_auth");
  }

  /** The unfollow test: while `user_1` follows both authors, the newest
      post of `second_auth` heads their feed; once they unfollow
      `second_auth`, the head of the feed is no longer that post. */
  method UnfollowScenario() returns (before: Post, after: Post)
    ensures before == Post(2, "second_auth", "second", None)
    ensures after != before && after.author == "first_auth"
  {
    var store := BothFollowedStore();
    assert IsFollowing(store.follows, "user_1", "second_auth");
    store.NewestPostInFollowIndex("user_1", NoPage);
    before := store.FollowIndex(Some("user_1"), NoPage).context.items[0];

    var r := store.ProfileUnfollow(Some("user_1"), "second_auth");
    assert store.follows == [Follow("user_1", "first_auth")];
    var feed := FollowFeed(store.posts, store.follows, "user_1");
    assert store.posts[1] in feed;
    var page := store.FollowIndex(Some("user_1"), NoPage).context.items;
    assert page == PageItems(feed, PostsCount, 1) && |page| > 0;
    assert page[0] in page;
    after := page[0];
  }

  /** The follows of the new-post test, `user_1` following both authors
      and `user_2` following `first_auth`, and then a new post by
      `second_auth`. */
  method NewPostTestStore() returns (store: Store)
    ensures fresh(store) && store.Valid()
    ensures store.follows == [Follow("user_1", "first_auth"), Follow("user_1", "second_auth"), Follow("user_2", "first_auth")]
    ensures store.posts == [Post(3, "second_auth", "new", None), Post(2, "second_auth", "second", None), Post(1, "first_auth", "first", None)]
  {
    store := BothFollowedStore();
    assert "user_1" != "user_2";
    var r := store.ProfileFollow(Some("user_2"), "first_auth");
    r := store.PostCreate(Some("second_auth"), Some(PostForm("new", None)));
  }

  /** The new-post test: `user_1` follows both authors and `user_2` only
      `first_auth`; a new post by `second_auth` heads the feed of
      `user_1`, and the feed of `user_2` is headed by another post. */
  method NewPostScenario() returns (first1: Post, first2: Post)
    ensures first1.text == "new" && first1.author == "second_auth"
    ensures first2.text != "new" && first2.author == "first_auth"
  {
    var store := NewPostTestStore();
    assert IsFollowing(store.follows, "user_1", "second_auth");
    assert "user_1" != "user_2";
    assert !IsFollowing(store.follows, "user_2", "second_auth");

    store.NewestPostInFollowIndex("user_1", NoPage);
    first1 := store.FollowIndex(Some("user_1"), NoPage).context.items[0];

    var feed := FollowFeed(store.posts, store.follows, "user_2");
    assert store.posts[2] in feed;
    var page := store.FollowIndex(Some("user_2"), NoPage).context.items;
    assert page == PageItems(feed, PostsCount, 1) && |page| > 0;
    assert page[0] in page;
    first2 := page[0];
  }
}
