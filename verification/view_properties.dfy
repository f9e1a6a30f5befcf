/** What the request handlers promise across calls: follow round trips
    and idempotence, the integrity constraints every handler keeps, and
    where a new post lands in each timeline. */
module ViewProperties {
  import opened Wrappers
  import opened Seqs
  import opened Models
  import opened FollowGraph
  import opened Database
  import opened Pagination
  import opened Timelines
  import opened Views

  /** A signed-in viewer names an existing user. */
  predicate KnownViewer(db: Db, viewer: Viewer)
  {
    viewer.Some? ==> viewer.value in db.users
  }

  /** Following twice is following once. */
  lemma FollowIdempotent(db: Db, viewer: Viewer, username: Username)
    requires ProfileFollow(db, viewer, username).Ok?
    ensures ProfileFollow(ProfileFollow(db, viewer, username).value, viewer, username) == ProfileFollow(db, viewer, username)
  {
  }

  /** Unfollowing twice is unfollowing once. */
  lemma UnfollowIdempotent(db: Db, viewer: Viewer, username: Username)
    requires ProfileUnfollow(db, viewer, username).Ok?
    ensures ProfileUnfollow(ProfileUnfollow(db, viewer, username).value, viewer, username) == ProfileUnfollow(db, viewer, username)
  {
  }

  /** Following a new author and then unfollowing them restores the follow
      table row for row; only the primary-key counter has moved on. In
      between, the follow check answers true; afterwards, false. */
  lemma FollowThenUnfollow(db: Db, u: Username, a: Username)
    requires u in db.users && a in db.users && u != a
    requires !HasEdge(db.follows, u, a)
    ensures ProfileFollow(db, Some(u), a).Ok?
    ensures HasEdge(ProfileFollow(db, Some(u), a).value.follows, u, a)
    ensures ProfileUnfollow(ProfileFollow(db, Some(u), a).value, Some(u), a)
            == Ok(db.(nextFollowId := db.nextFollowId + 1))
  {
    var f := Follow(db.nextFollowId, u, a);
    var mid := ProfileFollow(db, Some(u), a).value;
    assert mid.follows == db.follows + [f];
    var keep := (g: Follow) => !(g.user == u && g.author == a);
    FilterAppend(db.follows, f, keep);
    assert RemoveEdge(mid.follows, u, a) == Filter(db.follows, keep);
  }

  /** Publishing keeps every integrity constraint. */
  lemma NewPostValid(db: Db, viewer: Viewer, form: PostForm)
    requires Valid(db) && KnownViewer(db, viewer)
    ensures NewPost(db, viewer, form).Ok? ==> Valid(NewPost(db, viewer, form).value)
  {
  }

  /** Saving an edit keeps every integrity constraint. */
  lemma PostEditValid(db: Db, viewer: Viewer, username: Username, postId: nat, form: PostForm)
    requires Valid(db)
    ensures PostEdit(db, viewer, username, postId, form).Ok? ==> Valid(PostEdit(db, viewer, username, postId, form).value)
  {
  }

  /** Commenting keeps every integrity constraint. */
  lemma AddCommentValid(db: Db, viewer: Viewer, username: Username, postId: nat, form: CommentForm)
    requires Valid(db) && KnownViewer(db, viewer)
    ensures AddComment(db, viewer, username, postId, form).Ok? ==> Valid(AddComment(db, viewer, username, postId, form).value)
  {
  }

  /** Following keeps every integrity constraint, unique pairs among them. */
  lemma ProfileFollowValid(db: Db, viewer: Viewer, username: Username)
    requires Valid(db)
    ensures ProfileFollow(db, viewer, username).Ok? ==> Valid(ProfileFollow(db, viewer, username).value)
  {
  }

  /** Unfollowing keeps every integrity constraint. */
  lemma ProfileUnfollowValid(db: Db, viewer: Viewer, username: Username)
    requires Valid(db)
    ensures ProfileUnfollow(db, viewer, username).Ok? ==> Valid(ProfileUnfollow(db, viewer, username).value)
  {
    if viewer.Some? && username in db.users {
      var u := viewer.value;
      FilterPairwise(db.follows, (f: Follow) => !(f.user == u && f.author == username), DistinctFollowIds);
    }
  }

  /** A new post is newer than every stored post, and it heads every
      timeline that selects it, ahead of that timeline's earlier content:
      the main page, its group's page, its author's profile, and the
      follow feed of each of the author's followers. */
  lemma NewPostComesFirst(db: Db, u: Username, form: PostForm)
    requires Valid(db)
    requires PostFormAccepted(db, form)
    ensures NewPost(db, Some(u), form).Ok?
    ensures var after := NewPost(db, Some(u), form).value;
      var p := after.posts[0];
      && p.author == u
      && after.posts == [p] + db.posts
      && (forall q | q in db.posts :: Newer(p, q))
      && (forall g | p.group == Some(g) :: GroupTimeline(after.posts, g) == [p] + GroupTimeline(db.posts, g))
      && AuthorTimeline(after.posts, u) == [p] + AuthorTimeline(db.posts, u)
      && (forall f | HasEdge(db.follows, f, u) ::
            FollowTimeline(after.posts, after.follows, f) == [p] + FollowTimeline(db.posts, db.follows, f))
  {
    var after := NewPost(db, Some(u), form).value;
    var p := after.posts[0];
    assert after.posts == [p] + db.posts;
    forall g | p.group == Some(g) ensures GroupTimeline(after.posts, g) == [p] + GroupTimeline(db.posts, g) {
      FilterCons(p, db.posts, (q: Post) => q.group == Some(g));
    }
    FilterCons(p, db.posts, (q: Post) => q.author == u);
    forall f | HasEdge(db.follows, f, u)
      ensures FollowTimeline(after.posts, after.follows, f) == [p] + FollowTimeline(db.posts, db.follows, f)
    {
      EdgeCountAtMostOne(db.follows, f, u);
      assert seq(1, _ => p) == [p];
    }
  }

  /** The follow feed page is the page of the followed posts, listed in
      the global newest-first order. */
  lemma FollowIndexShowsFollowedPosts(db: Db, u: Username, requested: Option<int>)
    requires Valid(db)
    ensures FollowIndex(db, Some(u), requested)
            == Ok(GetPage(FollowedPosts(db.posts, db.follows, u), requested))
    ensures NewestFirst(FollowedPosts(db.posts, db.follows, u))
  {
    FollowTimelineIsFollowedPosts(db.posts, db.follows, u);
  }
}
