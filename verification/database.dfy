/** The database state, its integrity constraints, and the storage-level
    operations: row creation under the unique constraints, and the
    `on_delete` rules of every foreign key. */
module Database {
  import opened Wrappers
  import opened Seqs
  import opened Models
  import opened FollowGraph

  /** Why a request or a storage operation produced no new state. */
  datatype Error =
    | LoginRequired   // anonymous caller of a login-only handler
    | NotFound        // unknown slug, username or post id (a 404 page)
    | IntegrityError  // a row the storage constraints refuse

  /** All tables. Posts are kept newest first, the order every query
      returns them in; the clock is the last timestamp handed out and the
      counters are the next primary key of each table. */
  datatype Db = Db(
    users: set<Username>,
    groups: seq<Group>,
    posts: seq<Post>,
    comments: seq<Comment>,
    follows: seq<Follow>,
    clock: int,
    nextGroupId: nat,
    nextPostId: nat,
    nextCommentId: nat,
    nextFollowId: nat)

  /** A fresh database: no rows, primary keys start at 1. */
  const Empty := Db({}, [], [], [], [], 0, 1, 1, 1, 1)

  predicate GroupExists(groups: seq<Group>, id: nat)
  {
    exists g :: g in groups && g.id == id
  }

  predicate PostExists(posts: seq<Post>, id: nat)
  {
    exists p :: p in posts && p.id == id
  }

  /** A nullable foreign key to a group is null or names an existing group. */
  predicate GroupRefOk(groups: seq<Group>, ref: Option<nat>)
  {
    ref.None? || GroupExists(groups, ref.value)
  }

  /** A nullable foreign key to a post is null or names an existing post. */
  predicate PostRefOk(posts: seq<Post>, ref: Option<nat>)
  {
    ref.None? || PostExists(posts, ref.value)
  }

  /** Primary keys and slugs are unique among groups. */
  predicate DistinctGroups(g: Group, h: Group)
  {
    g.id != h.id && g.slug != h.slug
  }

  predicate DistinctPostIds(p: Post, q: Post)
  {
    p.id != q.id
  }

  predicate DistinctCommentIds(c: Comment, d: Comment)
  {
    c.id != d.id
  }

  predicate DistinctFollowIds(f: Follow, g: Follow)
  {
    f.id != g.id
  }

  ghost predicate GroupsValid(db: Db)
  {
    && Pairwise(db.groups, DistinctGroups)
    && forall g | g in db.groups :: g.id < db.nextGroupId
  }

  ghost predicate PostsValid(db: Db)
  {
    && Pairwise(db.posts, Newer)
    && Pairwise(db.posts, DistinctPostIds)
    && forall p | p in db.posts ::
         && p.id < db.nextPostId
         && p.pubDate <= db.clock
         && p.author in db.users
         && GroupRefOk(db.groups, p.group)
  }

  ghost predicate CommentsValid(db: Db)
  {
    && Pairwise(db.comments, DistinctCommentIds)
    && forall c | c in db.comments ::
         && c.id < db.nextCommentId
         && c.created <= db.clock
         && c.author in db.users
         && PostRefOk(db.posts, c.post)
  }

  ghost predicate FollowsValid(db: Db)
  {
    && UniquePairs(db.follows)
    && Pairwise(db.follows, DistinctFollowIds)
    && forall f | f in db.follows :: f.id < db.nextFollowId && f.user in db.users && f.author in db.users
  }

  /** Every integrity constraint of the schema, plus the newest-first
      order of the post table. */
  ghost predicate Valid(db: Db)
  {
    GroupsValid(db) && PostsValid(db) && CommentsValid(db) && FollowsValid(db)
  }

  /** The group a slug addresses. */
  function GroupBySlug(groups: seq<Group>, slug: string): (r: Option<Group>)
    ensures r.Some? ==> r.value in groups && r.value.slug == slug
    ensures r.None? ==> forall g | g in groups :: g.slug != slug
  {
    if groups == [] then None
    else if groups[0].slug == slug then Some(groups[0])
    else GroupBySlug(groups[1..], slug)
  }

  /** Slugs are unique, so a slug names at most one group and the lookup
      finds exactly that one. */
  lemma SlugIdentifiesGroup(db: Db, g: Group)
    requires GroupsValid(db)
    requires g in db.groups
    ensures forall h | h in db.groups && h.slug == g.slug :: h == g
    ensures GroupBySlug(db.groups, g.slug) == Some(g)
  {
  }

  /** Position of the post with this id written by this author. */
  function FindPost(posts: seq<Post>, id: nat, author: Username): (r: Option<nat>)
    ensures r.Some? ==> r.value < |posts| && posts[r.value].id == id && posts[r.value].author == author
    ensures r.None? ==> forall p | p in posts :: !(p.id == id && p.author == author)
  {
    if posts == [] then None
    else if posts[0].id == id && posts[0].author == author then Some(0)
    else match FindPost(posts[1..], id, author)
      case None => None
      case Some(k) => Some(k + 1)
  }

  /** Inserts a group; the unique index on `slug` refuses a second group
      with the same slug. */
  function GroupCreate(db: Db, title: string, slug: string, description: string): (r: Result<Db, Error>)
    ensures r.Err? <==> exists g :: g in db.groups && g.slug == slug
    ensures r.Err? ==> r.error == IntegrityError
    ensures r.Ok? ==> GroupBySlug(r.value.groups, slug) == Some(Group(db.nextGroupId, title, slug, description))
    ensures r.Ok? ==> forall g | g in db.groups :: g in r.value.groups
    ensures r.Ok? ==> |r.value.groups| == |db.groups| + 1
    ensures r.Ok? ==> forall g | g in r.value.groups ::
      g in db.groups || g == Group(db.nextGroupId, title, slug, description)
    ensures r.Ok? ==> r.value.(groups := db.groups, nextGroupId := db.nextGroupId) == db
  {
    if GroupBySlug(db.groups, slug).Some? then Err(IntegrityError)
    else
      var g := Group(db.nextGroupId, title, slug, description);
      var groups := db.groups + [g];
      assert GroupBySlug(groups, slug) == Some(g) by {
        GroupBySlugAppend(db.groups, g);
      }
      Ok(db.(groups := groups, nextGroupId := db.nextGroupId + 1))
  }

  lemma {:induction false} GroupBySlugAppend(groups: seq<Group>, g: Group)
    requires forall h | h in groups :: h.slug != g.slug
    ensures GroupBySlug(groups + [g], g.slug) == Some(g)
  {
  }

  /** Inserts a follow row. The foreign keys require both users to exist
      and `unique_together` refuses a second row for the same pair; a
      self-follow is not refused at this level. */
  function FollowCreate(db: Db, u: Username, a: Username): (r: Result<Db, Error>)
    ensures r.Ok? <==> u in db.users && a in db.users && !HasEdge(db.follows, u, a)
    ensures r.Err? ==> r.error == IntegrityError
    ensures r.Ok? ==> HasEdge(r.value.follows, u, a)
    ensures r.Ok? ==> forall x, y | x != u || y != a :: HasEdge(r.value.follows, x, y) <==> HasEdge(db.follows, x, y)
    ensures r.Ok? ==> r.value.(follows := db.follows, nextFollowId := db.nextFollowId) == db
  {
    if u !in db.users || a !in db.users || HasEdge(db.follows, u, a) then Err(IntegrityError)
    else
      var f := Follow(db.nextFollowId, u, a);
      assert f in db.follows + [f];
      Ok(db.(follows := db.follows + [f], nextFollowId := db.nextFollowId + 1))
  }

  /** A post with its group reference nulled if it pointed at `gid`. */
  function Ungroup(p: Post, gid: nat): Post
  {
    if p.group == Some(gid) then p.(group := None) else p
  }

  /** A comment with its post reference nulled if it pointed at a deleted post. */
  function Unlink(c: Comment, gone: set<nat>): Comment
  {
    if c.post.Some? && c.post.value in gone then c.(post := None) else c
  }

  /** Every comment of the table, with its post nulled if it was deleted. */
  function UnlinkAll(comments: seq<Comment>, gone: set<nat>): (r: seq<Comment>)
    ensures forall c | c in r :: exists d | d in comments :: c == Unlink(d, gone)
  {
    seq(|comments|, i requires 0 <= i < |comments| => Unlink(comments[i], gone))
  }

  /** Deletes a group; `on_delete=SET_NULL` nulls the group of its posts,
      and no post is removed. */
  function DeleteGroup(db: Db, gid: nat): (r: Db)
    ensures !GroupExists(r.groups, gid)
    ensures forall x | x != gid :: GroupExists(r.groups, x) <==> GroupExists(db.groups, x)
    ensures forall g | g in r.groups :: g in db.groups
    ensures |r.posts| == |db.posts|
    ensures forall i | 0 <= i < |r.posts| :: r.posts[i] == db.posts[i].(group := r.posts[i].group)
    ensures forall i | 0 <= i < |r.posts| :: r.posts[i].group != Some(gid)
    ensures forall i | 0 <= i < |r.posts| && db.posts[i].group == Some(gid) :: r.posts[i].group == None
    ensures forall i | 0 <= i < |r.posts| && db.posts[i].group != Some(gid) :: r.posts[i] == db.posts[i]
    ensures r.(groups := db.groups, posts := db.posts) == db
  {
    var groups := Filter(db.groups, (g: Group) => g.id != gid);
    var posts := seq(|db.posts|, i requires 0 <= i < |db.posts| => Ungroup(db.posts[i], gid));
    db.(groups := groups, posts := posts)
  }

  /** Deletes a post; `on_delete=SET_NULL` keeps its comments and nulls
      their post. */
  function DeletePost(db: Db, pid: nat): (r: Db)
    ensures !PostExists(r.posts, pid)
    ensures forall p :: p in r.posts <==> p in db.posts && p.id != pid
    ensures |r.comments| == |db.comments|
    ensures forall i | 0 <= i < |r.comments| :: r.comments[i] == db.comments[i].(post := r.comments[i].post)
    ensures forall i | 0 <= i < |r.comments| :: r.comments[i].post != Some(pid)
    ensures forall i | 0 <= i < |r.comments| && db.comments[i].post == Some(pid) :: r.comments[i].post == None
    ensures forall i | 0 <= i < |r.comments| && db.comments[i].post != Some(pid) :: r.comments[i] == db.comments[i]
    ensures r.(posts := db.posts, comments := db.comments) == db
  {
    db.(posts := Filter(db.posts, (p: Post) => p.id != pid), comments := UnlinkAll(db.comments, {pid}))
  }

  /** The ids of the posts written by `u`. */
  function PostIdsBy(posts: seq<Post>, u: Username): set<nat>
  {
    set p | p in posts && p.author == u :: p.id
  }

  /** The comment table once user `u` and the posts `gone` are deleted:
      the user's comments disappear, and the others that pointed at a
      deleted post lose their post. */
  function CascadeComments(comments: seq<Comment>, u: Username, gone: set<nat>): (r: seq<Comment>)
    ensures forall c | c in r :: c.author != u
    ensures forall c | c in r && c.post.Some? :: c.post.value !in gone
    ensures forall c | c in comments && c.author != u :: Unlink(c, gone) in r
    ensures forall c | c in r :: exists d | d in comments && d.author != u :: c == Unlink(d, gone)
  {
    var kept := Filter(comments, (c: Comment) => c.author != u);
    var r := UnlinkAll(kept, gone);
    assert forall i | 0 <= i < |r| :: r[i].author == kept[i].author && kept[i] in kept;
    assert forall c | c in comments && c.author != u :: Unlink(c, gone) in r by {
      forall c | c in comments && c.author != u ensures Unlink(c, gone) in r {
        assert c in kept;
        var i :| 0 <= i < |kept| && kept[i] == c;
        assert r[i] == Unlink(c, gone);
      }
    }
    r
  }

  /** Deletes a user. `on_delete=CASCADE` removes their posts, their
      comments and every follow row naming them on either side; the
      comments other users left on the removed posts lose their post. */
  function DeleteUser(db: Db, u: Username): (r: Db)
    ensures r.users == db.users - {u}
    ensures forall p :: p in r.posts <==> p in db.posts && p.author != u
    ensures forall c | c in r.comments :: c.author != u
    ensures forall c | c in r.comments && c.post.Some? :: c.post.value !in PostIdsBy(db.posts, u)
    ensures forall c | c in db.comments && c.author != u :: Unlink(c, PostIdsBy(db.posts, u)) in r.comments
    ensures forall c | c in r.comments :: exists d | d in db.comments && d.author != u :: c == Unlink(d, PostIdsBy(db.posts, u))
    ensures forall f :: f in r.follows <==> f in db.follows && f.user != u && f.author != u
    ensures r.groups == db.groups
    ensures r.(users := db.users, posts := db.posts, comments := db.comments, follows := db.follows) == db
  {
    db.(users := db.users - {u},
        posts := Filter(db.posts, (p: Post) => p.author != u),
        comments := CascadeComments(db.comments, u, PostIdsBy(db.posts, u)),
        follows := Filter(db.follows, (f: Follow) => f.user != u && f.author != u))
  }
}
