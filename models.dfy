/**
 * The tables of the posts app (Post, Comment, Follow) as values, and the
 * queries the handlers run over them. The model classes themselves live
 * in posts/models.py, which is not part of this model; their fields are
 * taken from what the handlers and their tests use.
 */
module Models {
  import Pagination

  datatype Option<T> = None | Some(value: T)

  /** Users are identified by their unique username, groups by their
      unique slug. */
  type UserName = string
  type Slug = string

  /** A post row: primary key, author, text and optional group. */
  datatype Post = Post(id: nat, author: UserName, text: string, group: Option<Slug>)

  /** A comment row: the post it belongs to, its author and its text. */
  datatype Comment = Comment(post: nat, author: UserName, text: string)

  /** A follow row: `user` follows `author`. */
  datatype Follow = Follow(user: UserName, author: UserName)

  // ----- the follow table -----

  /** No follow row occurs twice. */
  ghost predicate Unique(rows: seq<Follow>)
  {
    forall f :: multiset(rows)[f] <= 1
  }

  /** `Follow.objects.filter(user=user, author=author).exists()`. */
  predicate IsFollowing(rows: seq<Follow>, user: UserName, author: UserName): (b: bool)
    ensures b <==> exists i :: 0 <= i < |rows| && rows[i].user == user && rows[i].author == author
  {
    Follow(user, author) in rows
  }

  /** The authors `user` follows. */
  function Following(rows: seq<Follow>, user: UserName): (authors: set<UserName>)
    ensures forall a :: a in authors <==> IsFollowing(rows, user, a)
  {
    var authors := set f | f in rows && f.user == user :: f.author;
    assert forall a :: IsFollowing(rows, user, a) ==> a in authors by {
      forall a | IsFollowing(rows, user, a) ensures a in authors {
        var f := Follow(user, a);
        assert f in rows && f.user == user;
      }
    }
    authors
  }

  /** The follow table after `profile_follow`: the row (user, author) is
      added when the two differ and the row is absent; otherwise the
      table is left as it is. */
  function WithFollow(rows: seq<Follow>, user: UserName, author: UserName): (r: seq<Follow>)
    ensures forall f :: f in r <==> f in rows || (user != author && f == Follow(user, author))
    ensures forall f :: f != Follow(user, author) ==> multiset(r)[f] == multiset(rows)[f]
    ensures Unique(rows) ==> Unique(r)
  {
    if user != author && !IsFollowing(rows, user, author) then rows + [Follow(user, author)]
    else rows
  }

  /** The table with one row equal to `f` deleted, as
      `Follow.objects.get(...).delete()` deletes the one row it finds. */
  function RemoveRow(rows: seq<Follow>, f: Follow): (r: seq<Follow>)
    ensures multiset(r) == multiset(rows) - multiset{f}
  {
    if rows == [] then []
    else
      assert rows == [rows[0]] + rows[1..];
      if rows[0] == f then rows[1..]
      else [rows[0]] + RemoveRow(rows[1..], f)
  }

  /** The follow table after `profile_unfollow`: the row (user, author) is
      deleted when present; otherwise the table is left as it is. */
  function WithoutFollow(rows: seq<Follow>, user: UserName, author: UserName): (r: seq<Follow>)
    ensures forall f :: f != Follow(user, author) ==> multiset(r)[f] == multiset(rows)[f]
    ensures Unique(rows) ==> Unique(r) && !IsFollowing(r, user, author)
    ensures !IsFollowing(rows, user, author) ==> r == rows
  {
    if IsFollowing(rows, user, author) then RemoveRow(rows, Follow(user, author))
    else rows
  }

  /** Following twice leaves exactly one row for the pair, and a second
      follow changes nothing. */
  lemma FollowIdempotent(rows: seq<Follow>, user: UserName, author: UserName)
    requires Unique(rows) && user != author
    ensures WithFollow(WithFollow(rows, user, author), user, author) == WithFollow(rows, user, author)
    ensures multiset(WithFollow(rows, user, author))[Follow(user, author)] == 1
  {
    var once := WithFollow(rows, user, author);
    assert Follow(user, author) in once;
  }

  /** A user never comes to follow themselves. */
  lemma NoSelfFollow(rows: seq<Follow>, user: UserName)
    ensures WithFollow(rows, user, user) == rows
  {
  }

  /** After a follow by another user the author is among those the user
      follows, and nobody else's follows change. */
  lemma FollowingAfterFollow(rows: seq<Follow>, user: UserName, author: UserName, u: UserName)
    requires user != author
    ensures Following(WithFollow(rows, user, author), u) ==
              if u == user then Following(rows, u) + {author} else Following(rows, u)
  {
    var after := WithFollow(rows, user, author);
    var expected := if u == user then Following(rows, u) + {author} else Following(rows, u);
    forall a ensures a in Following(after, u) <==> a in expected {
      assert Follow(u, a) in after <==> Follow(u, a) in rows || Follow(u, a) == Follow(user, author);
    }
  }

  /** After an unfollow the author is no longer among those the user
      follows, and nobody else's follows change. */
  lemma FollowingAfterUnfollow(rows: seq<Follow>, user: UserName, author: UserName, u: UserName)
    requires Unique(rows)
    ensures Following(WithoutFollow(rows, user, author), u) ==
              if u == user then Following(rows, u) - {author} else Following(rows, u)
  {
    var after := WithoutFollow(rows, user, author);
    var expected := if u == user then Following(rows, u) - {author} else Following(rows, u);
    forall a ensures a in Following(after, u) <==> a in expected {
      var f := Follow(u, a);
      if f != Follow(user, author) {
        assert multiset(after)[f] == multiset(rows)[f];
      }
    }
  }

  // ----- post listings -----

  /** The posts whose author is in `authors`, in their original order:
      `author.posts.all()` for one author. */
  function PostsByAuthors(posts: seq<Post>, authors: set<UserName>): (r: seq<Post>)
    ensures |r| <= |posts|
    ensures forall p :: p in r <==> p in posts && p.author in authors
  {
    if posts == [] then []
    else
      assert posts == [posts[0]] + posts[1..];
      (if posts[0].author in authors then [posts[0]] else []) + PostsByAuthors(posts[1..], authors)
  }

  /** The posts of one group, in their original order: `group.posts.all()`. */
  function PostsInGroup(posts: seq<Post>, slug: Slug): (r: seq<Post>)
    ensures |r| <= |posts|
    ensures forall p :: p in r <==> p in posts && p.group == Some(slug)
  {
    if posts == [] then []
    else
      assert posts == [posts[0]] + posts[1..];
      (if posts[0].group == Some(slug) then [posts[0]] else []) + PostsInGroup(posts[1..], slug)
  }

  /** The comments on one post, in their original order: `post.comments.all()`. */
  function CommentsOn(comments: seq<Comment>, id: nat): (r: seq<Comment>)
    ensures |r| <= |comments|
    ensures forall c :: c in r <==> c in comments && c.post == id
  {
    if comments == [] then []
    else
      assert comments == [comments[0]] + comments[1..];
      (if comments[0].post == id then [comments[0]] else []) + CommentsOn(comments[1..], id)
  }

  /** `n` copies of one post, as a join yields a post once per matching row. */
  function Copies(p: Post, n: nat): (r: seq<Post>)
    ensures |r| == n
    ensures forall q :: q in r <==> q == p && n > 0
    ensures multiset(r)[p] == n
    ensures forall q :: q != p ==> multiset(r)[q] == 0
  {
    if n == 0 then [] else [p] + Copies(p, n - 1)
  }

  /** `Post.objects.filter(author__following__user=user)`: the join of
      the posts with the follow rows whose user is `user` and whose author
      wrote the post. A post appears once for every matching row, and the
      posts keep their order. */
  function FollowFeed(posts: seq<Post>, rows: seq<Follow>, user: UserName): (r: seq<Post>)
    ensures forall p :: p in r <==> p in posts && IsFollowing(rows, user, p.author)
  {
    if posts == [] then []
    else
      var p := posts[0];
      var copies := Copies(p, multiset(rows)[Follow(user, p.author)]);
      assert posts == [p] + posts[1..];
      copies + FollowFeed(posts[1..], rows, user)
  }

  /** One step of the join's row counts, for one post `q`: putting `n`
      copies of `p` before `rest` adds `n` to the count of `p` alone. */
  lemma FeedCountStep(p: Post, n: nat, tail: seq<Post>, rest: seq<Post>, q: Post, m: nat)
    requires q == p ==> m == n
    requires multiset(rest)[q] == multiset(tail)[q] * m
    ensures multiset(Copies(p, n) + rest)[q] == multiset([p] + tail)[q] * m
  {
    var before := multiset(tail)[q];
    assert multiset([p] + tail) == multiset{p} + multiset(tail);
    if q == p {
      Pagination.MulSucc(before, m);
    }
  }

  /** The join lists a post as many times as it occurs in the listing
      times the number of follow rows that match its author. */
  lemma {:induction false} FollowFeedCount(posts: seq<Post>, rows: seq<Follow>, user: UserName, q: Post)
    ensures multiset(FollowFeed(posts, rows, user))[q] == multiset(posts)[q] * multiset(rows)[Follow(user, q.author)]
  {
    if posts != [] {
      var p := posts[0];
      var n := multiset(rows)[Follow(user, p.author)];
      var rest := FollowFeed(posts[1..], rows, user);
      assert FollowFeed(posts, rows, user) == Copies(p, n) + rest by {
        assert posts == [p] + posts[1..];
      }
      FollowFeedCount(posts[1..], rows, user, q);
      assert posts == [p] + posts[1..];
      FeedCountStep(p, n, posts[1..], rest, q, multiset(rows)[Follow(user, q.author)]);
    }
  }

  /** Since the follow table has no duplicate rows, the join yields each
      post of a followed author exactly once: the follow feed is the
      posts of the authors the user follows. */
  lemma {:induction false} FollowFeedIsFilter(posts: seq<Post>, rows: seq<Follow>, user: UserName)
    requires Unique(rows)
    ensures FollowFeed(posts, rows, user) == PostsByAuthors(posts, Following(rows, user))
  {
    if posts != [] {
      var p := posts[0];
      FollowFeedIsFilter(posts[1..], rows, user);
      var n := multiset(rows)[Follow(user, p.author)];
      if IsFollowing(rows, user, p.author) {
        assert n == 1;
        assert Copies(p, n) == [p];
      }
    }
  }

  /** A new post, put at the head of the newest-first post list, heads
      the follow feed of every user who follows its author, and changes
      nothing in the feed of a user who does not. */
  lemma NewPostInFeed(posts: seq<Post>, rows: seq<Follow>, p: Post, user: UserName)
    requires Unique(rows)
    ensures IsFollowing(rows, user, p.author) ==> FollowFeed([p] + posts, rows, user) == [p] + FollowFeed(posts, rows, user)
    ensures !IsFollowing(rows, user, p.author) ==> FollowFeed([p] + posts, rows, user) == FollowFeed(posts, rows, user)
  {
    var all := [p] + posts;
    assert all[0] == p && all[1..] == posts;
    var n := multiset(rows)[Follow(user, p.author)];
    if IsFollowing(rows, user, p.author) {
      assert Copies(p, n) == [p];
    }
  }

  /** Each filter distributes over concatenation: filtering a listing
      made of two parts filters each part in turn, so the filters keep
      the order of the listing and neither drop nor add posts. */
  lemma {:induction false} PostsByAuthorsAppend(a: seq<Post>, b: seq<Post>, authors: set<UserName>)
    ensures PostsByAuthors(a + b, authors) == PostsByAuthors(a, authors) + PostsByAuthors(b, authors)
  {
    if a == [] {
      assert a + b == b;
    } else {
      var ab, tail := a + b, a[1..];
      var head := if a[0].author in authors then [a[0]] else [];
      assert ab[0] == a[0] && ab[1..] == tail + b;
      assert PostsByAuthors(ab, authors) == head + PostsByAuthors(tail + b, authors);
      assert PostsByAuthors(a, authors) == head + PostsByAuthors(tail, authors);
      PostsByAuthorsAppend(tail, b, authors);
    }
  }

  /** The same holds for the group filter, */
  lemma {:induction false} PostsInGroupAppend(a: seq<Post>, b: seq<Post>, slug: Slug)
    ensures PostsInGroup(a + b, slug) == PostsInGroup(a, slug) + PostsInGroup(b, slug)
  {
    if a == [] {
      assert a + b == b;
    } else {
      var ab, tail := a + b, a[1..];
      var head := if a[0].group == Some(slug) then [a[0]] else [];
      assert ab[0] == a[0] && ab[1..] == tail + b;
      assert PostsInGroup(ab, slug) == head + PostsInGroup(tail + b, slug);
      assert PostsInGroup(a, slug) == head + PostsInGroup(tail, slug);
      PostsInGroupAppend(tail, b, slug);
    }
  }

  /** the comment filter, */
  lemma {:induction false} CommentsOnAppend(a: seq<Comment>, b: seq<Comment>, id: nat)
    ensures CommentsOn(a + b, id) == CommentsOn(a, id) + CommentsOn(b, id)
  {
    if a == [] {
      assert a + b == b;
    } else {
      var ab, tail := a + b, a[1..];
      var head := if a[0].post == id then [a[0]] else [];
      assert ab[0] == a[0] && ab[1..] == tail + b;
      assert CommentsOn(ab, id) == head + CommentsOn(tail + b, id);
      assert CommentsOn(a, id) == head + CommentsOn(tail, id);
      CommentsOnAppend(tail, b, id);
    }
  }

  /** and the follow-feed join. */
  lemma {:induction false} FollowFeedAppend(a: seq<Post>, b: seq<Post>, rows: seq<Follow>, user: UserName)
    ensures FollowFeed(a + b, rows, user) == FollowFeed(a, rows, user) + FollowFeed(b, rows, user)
  {
    if a == [] {
      assert a + b == b;
    } else {
      var ab, tail := a + b, a[1..];
      var head := Copies(a[0], multiset(rows)[Follow(user, a[0].author)]);
      assert ab[0] == a[0] && ab[1..] == tail + b;
      assert FollowFeed(ab, rows, user) == head + FollowFeed(tail + b, rows, user);
      assert FollowFeed(a, rows, user) == head + FollowFeed(tail, rows, user);
      FollowFeedAppend(tail, b, rows, user);
    }
  }

  // ----- post lookup -----

  /** No two posts share a primary key. */
  ghost predicate UniqueIds(posts: seq<Post>)
  {
    forall i, j :: 0 <= i < j < |posts| ==> posts[i].id != posts[j].id
  }

  /** `get_object_or_404(Post, pk=id)`: the position of the post with
      primary key `id`, or None when there is none. */
  function FindPost(posts: seq<Post>, id: nat): (r: Option<nat>)
    ensures r.Some? ==> r.value < |posts| && posts[r.value].id == id
    ensures r.None? <==> forall p :: p in posts ==> p.id != id
  {
    if posts == [] then None
    else if posts[0].id == id then Some(0)
    else
      match FindPost(posts[1..], id)
      case None =>
        assert forall p :: p in posts ==> p == posts[0] || p in posts[1..];
        None
      case Some(i) => Some(i + 1)
  }

  /** With unique primary keys the post found is the only one with that key. */
  lemma FindPostUnique(posts: seq<Post>, id: nat, j: nat)
    requires UniqueIds(posts) && j < |posts| && posts[j].id == id
    ensures FindPost(posts, id) == Some(j)
  {
    var r := FindPost(posts, id);
    assert posts[j] in posts;
  }
}
