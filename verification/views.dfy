/** The request handlers, each a pure function of the database state and
    the request: read handlers return what the page shows, write handlers
    return the next state. */
module Views {
  import opened Wrappers
  import opened Seqs
  import opened Models
  import opened FollowGraph
  import opened Database
  import opened Pagination
  import opened Timelines

  /** The requesting user; `None` is an anonymous visitor. */
  type Viewer = Option<Username>

  /** The image part of a submitted post form: no new file (the stored
      image stays), the "clear" box ticked, or a new upload. */
  datatype ImageInput = NoUpload | Clear | Upload(path: string)

  /** A submitted post form. It carries only text, group and image: the
      author and the date are never taken from the client. `valid` stands
      for the checks outside this model (image decoding and the like). */
  datatype PostForm = PostForm(valid: bool, text: string, group: Option<nat>, image: ImageInput)

  /** A submitted comment form: only the text. */
  datatype CommentForm = CommentForm(valid: bool, text: string)

  /** What a profile and a post page report about an author's follow graph. */
  datatype FollowStats = FollowStats(following: bool, followers: nat, follows: nat)

  datatype GroupPage = GroupPage(group: Group, page: seq<Post>, postsQuantity: nat)

  datatype ProfilePage = ProfilePage(author: Username, page: seq<Post>, postsQuantity: nat, stats: FollowStats)

  datatype PostPage = PostPage(post: Post, comments: seq<Comment>, postsQuantity: nat, stats: FollowStats)

  /** A post form passes validation: the opaque checks, a non-empty text
      (the field is required), and a group choice that names an existing
      group or is left empty. */
  predicate PostFormAccepted(db: Db, form: PostForm)
  {
    form.valid && |form.text| > 0 && GroupRefOk(db.groups, form.group)
  }

  /** A comment form passes validation: the opaque checks and a non-empty text. */
  predicate CommentFormAccepted(form: CommentForm)
  {
    form.valid && |form.text| > 0
  }

  /** The image a post holds after a form with `input` is saved over one
      holding `current`. */
  function NewImage(current: Option<string>, input: ImageInput): Option<string>
  {
    match input
    case NoUpload => current
    case Clear => None
    case Upload(path) => Some(path)
  }

  /** Follow figures of author `a` as seen by `viewer`. */
  function Stats(db: Db, viewer: Viewer, a: Username): (s: FollowStats)
    ensures s.following <==> viewer.Some? && HasEdge(db.follows, viewer.value, a)
    ensures UniquePairs(db.follows) ==> s.followers == |Followers(db.follows, a)|
    ensures UniquePairs(db.follows) ==> s.follows == |Followees(db.follows, a)|
  {
    assert UniquePairs(db.follows) ==>
      FollowerCount(db.follows, a) == |Followers(db.follows, a)| &&
      FollowingCount(db.follows, a) == |Followees(db.follows, a)| by {
      if UniquePairs(db.follows) {
        FollowerCountIsFollowers(db.follows, a);
        FollowingCountIsFollowees(db.follows, a);
      }
    }
    var following := if viewer.Some? then HasEdge(db.follows, viewer.value, a) else false;
    FollowStats(following, FollowerCount(db.follows, a), FollowingCount(db.follows, a))
  }

  /** The main page: a page of all posts, newest first. */
  function Index(db: Db, requested: Option<int>): (r: seq<Post>)
    ensures |r| <= PostsPerPage
    ensures forall p | p in r :: p in db.posts
    ensures var k := PageNumber(|db.posts|, requested);
      && |r| == Min(PostsPerPage, |db.posts| - (k - 1) * PostsPerPage)
      && forall i | 0 <= i < |r| :: r[i] == db.posts[(k - 1) * PostsPerPage + i]
  {
    GetPage(db.posts, requested)
  }

  /** A group's page, addressed by slug. */
  function GroupPosts(db: Db, slug: string, requested: Option<int>): (r: Result<GroupPage, Error>)
    ensures r.Err? <==> forall g | g in db.groups :: g.slug != slug
    ensures r.Err? ==> r.error == NotFound
    ensures r.Ok? ==> r.value.group in db.groups && r.value.group.slug == slug
    ensures r.Ok? ==> |r.value.page| <= PostsPerPage
    ensures r.Ok? ==> forall p | p in r.value.page :: p in db.posts && p.group == Some(r.value.group.id)
    ensures r.Ok? ==> r.value.page == GetPage(GroupTimeline(db.posts, r.value.group.id), requested)
    ensures r.Ok? ==> r.value.postsQuantity == |GroupTimeline(db.posts, r.value.group.id)|
  {
    match GroupBySlug(db.groups, slug)
    case None => Err(NotFound)
    case Some(g) =>
      var posts := GroupTimeline(db.posts, g.id);
      Ok(GroupPage(g, GetPage(posts, requested), |posts|))
  }

  /** A user's profile page. */
  function Profile(db: Db, viewer: Viewer, username: Username, requested: Option<int>): (r: Result<ProfilePage, Error>)
    ensures r.Err? <==> username !in db.users
    ensures r.Err? ==> r.error == NotFound
    ensures r.Ok? ==> r.value.author == username && r.value.stats == Stats(db, viewer, username)
    ensures r.Ok? ==> |r.value.page| <= PostsPerPage
    ensures r.Ok? ==> forall p | p in r.value.page :: p in db.posts && p.author == username
    ensures r.Ok? ==> r.value.page == GetPage(AuthorTimeline(db.posts, username), requested)
    ensures r.Ok? ==> r.value.postsQuantity == |AuthorTimeline(db.posts, username)|
  {
    if username !in db.users then Err(NotFound)
    else
      var posts := AuthorTimeline(db.posts, username);
      Ok(ProfilePage(username, GetPage(posts, requested), |posts|, Stats(db, viewer, username)))
  }

  /** A single post with its comments, addressed by author and id. */
  function PostView(db: Db, viewer: Viewer, username: Username, postId: nat): (r: Result<PostPage, Error>)
    ensures r.Err? <==> forall p | p in db.posts :: !(p.id == postId && p.author == username)
    ensures r.Err? ==> r.error == NotFound
    ensures r.Ok? ==> r.value.post in db.posts && r.value.post.id == postId && r.value.post.author == username
    ensures r.Ok? ==> forall c :: c in r.value.comments <==> c in db.comments && c.post == Some(postId)
    ensures r.Ok? ==> r.value.stats == Stats(db, viewer, username)
  {
    match FindPost(db.posts, postId, username)
    case None => Err(NotFound)
    case Some(k) =>
      var post := db.posts[k];
      var comments := Filter(db.comments, (c: Comment) => c.post == Some(postId));
      Ok(PostPage(post, comments, |AuthorTimeline(db.posts, post.author)|, Stats(db, viewer, post.author)))
  }

  /** Publishing a post. The author is the requesting user and the date
      is the next clock tick; a rejected form changes nothing. */
  function NewPost(db: Db, viewer: Viewer, form: PostForm): (r: Result<Db, Error>)
    ensures r.Err? <==> viewer.None?
    ensures r.Err? ==> r.error == LoginRequired
    ensures r.Ok? && !PostFormAccepted(db, form) ==> r.value == db
    ensures r.Ok? && PostFormAccepted(db, form) ==>
      && |r.value.posts| == |db.posts| + 1
      && r.value.posts[1..] == db.posts
      && r.value.posts[0].author == viewer.value
      && r.value.posts[0].id == db.nextPostId
      && r.value.posts[0].text == form.text
      && r.value.posts[0].group == form.group
      && r.value.posts[0].image == NewImage(None, form.image)
      && r.value.posts[0].pubDate > db.clock
      && r.value.(posts := db.posts, clock := db.clock, nextPostId := db.nextPostId) == db
  {
    if viewer.None? then Err(LoginRequired)
    else if !PostFormAccepted(db, form) then Ok(db)
    else
      var p := Post(db.nextPostId, form.text, db.clock + 1, viewer.value, form.group, NewImage(None, form.image));
      Ok(db.(posts := [p] + db.posts, clock := db.clock + 1, nextPostId := db.nextPostId + 1))
  }

  /** Editing a post. Only its author may save; anyone else is sent away
      with nothing changed. A save replaces text, group and image and
      keeps id, author and date. */
  function PostEdit(db: Db, viewer: Viewer, username: Username, postId: nat, form: PostForm): (r: Result<Db, Error>)
    ensures viewer.None? ==> r == Err(LoginRequired)
    ensures viewer.Some? ==> (r.Err? <==> forall p | p in db.posts :: !(p.id == postId && p.author == username))
    ensures r.Err? ==> r.error in {LoginRequired, NotFound}
    ensures r.Ok? && (viewer != Some(username) || !PostFormAccepted(db, form)) ==> r.value == db
    ensures r.Ok? ==> r.value.(posts := db.posts) == db && |r.value.posts| == |db.posts|
    ensures r.Ok? ==> forall j | 0 <= j < |db.posts| ::
      r.value.posts[j] == db.posts[j].(text := r.value.posts[j].text, group := r.value.posts[j].group,
                                       image := r.value.posts[j].image)
    ensures r.Ok? ==> forall j | 0 <= j < |db.posts| && !(db.posts[j].id == postId && db.posts[j].author == username) ::
      r.value.posts[j] == db.posts[j]
    ensures r.Ok? && viewer == Some(username) && PostFormAccepted(db, form) ==>
      exists j | 0 <= j < |db.posts| && db.posts[j].id == postId && db.posts[j].author == username ::
        && r.value.posts[j].text == form.text
        && r.value.posts[j].group == form.group
        && r.value.posts[j].image == NewImage(db.posts[j].image, form.image)
  {
    if viewer.None? then Err(LoginRequired)
    else match FindPost(db.posts, postId, username)
      case None => Err(NotFound)
      case Some(k) =>
        var post := db.posts[k];
        if viewer.value != post.author || !PostFormAccepted(db, form) then Ok(db)
        else
          var edited := post.(text := form.text, group := form.group, image := NewImage(post.image, form.image));
          Ok(db.(posts := db.posts[k := edited]))
  }

  /** Commenting on a post. Author and post come from the request, never
      from the form; a rejected form changes nothing. */
  function AddComment(db: Db, viewer: Viewer, username: Username, postId: nat, form: CommentForm): (r: Result<Db, Error>)
    ensures viewer.None? ==> r == Err(LoginRequired)
    ensures viewer.Some? ==> (r.Err? <==> forall p | p in db.posts :: !(p.id == postId && p.author == username))
    ensures r.Err? ==> r.error in {LoginRequired, NotFound}
    ensures r.Ok? && !CommentFormAccepted(form) ==> r.value == db
    ensures r.Ok? && CommentFormAccepted(form) ==>
      && |r.value.comments| == |db.comments| + 1
      && r.value.comments[..|db.comments|] == db.comments
      && r.value.comments[|db.comments|].author == viewer.value
      && r.value.comments[|db.comments|].post == Some(postId)
      && r.value.comments[|db.comments|].text == form.text
      && r.value.comments[|db.comments|].id == db.nextCommentId
      && r.value.(comments := db.comments, clock := db.clock, nextCommentId := db.nextCommentId) == db
  {
    if viewer.None? then Err(LoginRequired)
    else match FindPost(db.posts, postId, username)
      case None => Err(NotFound)
      case Some(_) =>
        if !CommentFormAccepted(form) then Ok(db)
        else
          var c := Comment(db.nextCommentId, Some(postId), viewer.value, form.text, db.clock + 1);
          Ok(db.(comments := db.comments + [c], clock := db.clock + 1, nextCommentId := db.nextCommentId + 1))
  }

  /** The follow feed: a page of the posts of the authors the viewer follows. */
  function FollowIndex(db: Db, viewer: Viewer, requested: Option<int>): (r: Result<seq<Post>, Error>)
    ensures r.Err? <==> viewer.None?
    ensures r.Err? ==> r.error == LoginRequired
    ensures r.Ok? ==> |r.value| <= PostsPerPage
    ensures r.Ok? ==> forall p | p in r.value :: p in db.posts && HasEdge(db.follows, viewer.value, p.author)
  {
    if viewer.None? then Err(LoginRequired)
    else Ok(GetPage(FollowTimeline(db.posts, db.follows, viewer.value), requested))
  }

  /** Following an author: a row is added only for a new pair of two
      different users; a self-follow or a repeated follow changes nothing. */
  function ProfileFollow(db: Db, viewer: Viewer, username: Username): (r: Result<Db, Error>)
    ensures viewer.None? ==> r == Err(LoginRequired)
    ensures viewer.Some? && username !in db.users ==> r == Err(NotFound)
    ensures viewer.Some? && viewer.value in db.users && username in db.users ==> r.Ok?
    ensures r.Ok? ==> (HasEdge(r.value.follows, viewer.value, username) <==>
                         HasEdge(db.follows, viewer.value, username) || viewer.value != username)
    ensures r.Ok? ==> forall x, y | x != viewer.value || y != username ::
      HasEdge(r.value.follows, x, y) <==> HasEdge(db.follows, x, y)
    ensures r.Ok? && (viewer.value == username || HasEdge(db.follows, viewer.value, username)) ==> r.value == db
    ensures r.Ok? ==> r.value.(follows := db.follows, nextFollowId := db.nextFollowId) == db
  {
    if viewer.None? then Err(LoginRequired)
    else if username !in db.users then Err(NotFound)
    else if viewer.value != username && !HasEdge(db.follows, viewer.value, username) then
      FollowCreate(db, viewer.value, username)
    else Ok(db)
  }

  /** Unfollowing an author: deletes the pair's row, if there is one. */
  function ProfileUnfollow(db: Db, viewer: Viewer, username: Username): (r: Result<Db, Error>)
    ensures viewer.None? ==> r == Err(LoginRequired)
    ensures viewer.Some? ==> (r.Err? <==> username !in db.users)
    ensures r.Err? ==> r.error in {LoginRequired, NotFound}
    ensures r.Ok? ==> !HasEdge(r.value.follows, viewer.value, username)
    ensures r.Ok? ==> forall x, y | x != viewer.value || y != username ::
      HasEdge(r.value.follows, x, y) <==> HasEdge(db.follows, x, y)
    ensures r.Ok? && !HasEdge(db.follows, viewer.value, username) ==> r.value == db
    ensures r.Ok? ==> r.value.(follows := db.follows) == db
  {
    if viewer.None? then Err(LoginRequired)
    else if username !in db.users then Err(NotFound)
    else Ok(db.(follows := RemoveEdge(db.follows, viewer.value, username)))
  }
}
