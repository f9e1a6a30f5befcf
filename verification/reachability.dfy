/** Every state the site can reach from an empty database satisfies the
    integrity constraints: in particular no two follow rows share a
    (user, author) pair and no two groups share a slug. */
module Reachability {
  import opened Wrappers
  import opened Models
  import opened FollowGraph
  import opened Database
  import opened Integrity
  import opened Views
  import opened ViewProperties

  /** One thing that can happen to the database. Account creation belongs
      to the authentication framework and only adds a username here. */
  datatype Step =
    | Register(name: Username)
    | CreateGroup(title: string, slug: string, description: string)
    | RemoveGroup(gid: nat)
    | RemovePost(pid: nat)
    | RemoveUser(name: Username)
    | CreateFollowRow(user: Username, author: Username)
    | Publish(viewer: Viewer, postForm: PostForm)
    | Edit(viewer: Viewer, username: Username, postId: nat, postForm: PostForm)
    | Reply(viewer: Viewer, username: Username, postId: nat, commentForm: CommentForm)
    | FollowAuthor(viewer: Viewer, username: Username)
    | UnfollowAuthor(viewer: Viewer, username: Username)

  /** The state after a refused operation is the state before it. */
  function Settle(db: Db, r: Result<Db, Error>): Db
  {
    if r.Ok? then r.value else db
  }

  /** The state after one step. A request whose session names no existing
      user is refused by the authentication layer and changes nothing. */
  function Apply(db: Db, step: Step): Db
  {
    match step
    case Register(name) => db.(users := db.users + {name})
    case CreateGroup(title, slug, description) => Settle(db, GroupCreate(db, title, slug, description))
    case RemoveGroup(gid) => DeleteGroup(db, gid)
    case RemovePost(pid) => DeletePost(db, pid)
    case RemoveUser(name) => DeleteUser(db, name)
    case CreateFollowRow(user, author) => Settle(db, FollowCreate(db, user, author))
    case Publish(viewer, form) =>
      if !KnownViewer(db, viewer) then db
      else Settle(db, NewPost(db, viewer, form))
    case Edit(viewer, username, postId, form) =>
      if !KnownViewer(db, viewer) then db
      else Settle(db, PostEdit(db, viewer, username, postId, form))
    case Reply(viewer, username, postId, form) =>
      if !KnownViewer(db, viewer) then db
      else Settle(db, AddComment(db, viewer, username, postId, form))
    case FollowAuthor(viewer, username) =>
      if !KnownViewer(db, viewer) then db
      else Settle(db, ProfileFollow(db, viewer, username))
    case UnfollowAuthor(viewer, username) =>
      if !KnownViewer(db, viewer) then db
      else Settle(db, ProfileUnfollow(db, viewer, username))
  }

  /** Every step, whether a request handler or a storage operation, keeps
      the integrity constraints. */
  lemma ApplyKeepsValid(db: Db, step: Step)
    requires Valid(db)
    ensures Valid(Apply(db, step))
  {
    match step
    case Register(_) =>
    case CreateGroup(title, slug, description) => GroupCreateValid(db, title, slug, description);
    case RemoveGroup(gid) => DeleteGroupValid(db, gid);
    case RemovePost(pid) => DeletePostValid(db, pid);
    case RemoveUser(name) => DeleteUserValid(db, name);
    case CreateFollowRow(user, author) => FollowCreateValid(db, user, author);
    case Publish(viewer, form) =>
      if KnownViewer(db, viewer) { NewPostValid(db, viewer, form); }
    case Edit(viewer, username, postId, form) => PostEditValid(db, viewer, username, postId, form);
    case Reply(viewer, username, postId, form) =>
      if KnownViewer(db, viewer) { AddCommentValid(db, viewer, username, postId, form); }
    case FollowAuthor(viewer, username) => ProfileFollowValid(db, viewer, username);
    case UnfollowAuthor(viewer, username) => ProfileUnfollowValid(db, viewer, username);
  }

  /** The state after a sequence of steps. */
  function Run(db: Db, steps: seq<Step>): Db
    decreases |steps|
  {
    if steps == [] then db else Run(Apply(db, steps[0]), steps[1..])
  }

  /** Every reachable state satisfies the integrity constraints. */
  lemma {:induction false} RunKeepsValid(db: Db, steps: seq<Step>)
    requires Valid(db)
    ensures Valid(Run(db, steps))
    decreases |steps|
  {
    if steps != [] {
      ApplyKeepsValid(db, steps[0]);
      RunKeepsValid(Apply(db, steps[0]), steps[1..]);
    }
  }

  /** No reachable state holds two follow rows for one pair, two groups
      with one slug, or a reference to a missing row. */
  lemma ReachableStatesValid(steps: seq<Step>)
    ensures Valid(Run(Empty, steps))
    ensures UniquePairs(Run(Empty, steps).follows)
    ensures forall g, h | g in Run(Empty, steps).groups && h in Run(Empty, steps).groups && g.slug == h.slug :: g == h
  {
    EmptyValid();
    RunKeepsValid(Empty, steps);
    var db := Run(Empty, steps);
    forall g, h | g in db.groups && h in db.groups && g.slug == h.slug ensures g == h {
      SlugIdentifiesGroup(db, g);
    }
  }
}
