/** Every storage operation keeps the schema's integrity constraints. */
module Integrity {
  import opened Seqs
  import opened Models
  import opened FollowGraph
  import opened Database

  lemma EmptyValid()
    ensures Valid(Empty)
  {
  }

  /** A group with a fresh slug keeps ids and slugs unique. */
  lemma GroupCreateValid(db: Db, title: string, slug: string, description: string)
    requires Valid(db)
    ensures GroupCreate(db, title, slug, description).Ok? ==> Valid(GroupCreate(db, title, slug, description).value)
  {
  }

  /** A follow row the storage accepts keeps pairs and ids unique. */
  lemma FollowCreateValid(db: Db, u: Username, a: Username)
    requires Valid(db)
    ensures FollowCreate(db, u, a).Ok? ==> Valid(FollowCreate(db, u, a).value)
  {
  }

  /** Nulling the group of its posts leaves no dangling group reference. */
  lemma DeleteGroupValid(db: Db, gid: nat)
    requires Valid(db)
    ensures Valid(DeleteGroup(db, gid))
  {
    var r := DeleteGroup(db, gid);
    FilterPairwise(db.groups, (g: Group) => g.id != gid, DistinctGroups);
    forall i, j | 0 <= i < j < |r.posts| ensures Newer(r.posts[i], r.posts[j]) && DistinctPostIds(r.posts[i], r.posts[j]) {
      assert Newer(db.posts[i], db.posts[j]) && DistinctPostIds(db.posts[i], db.posts[j]);
    }
    forall p | p in r.posts
      ensures p.id < r.nextPostId && p.pubDate <= r.clock && p.author in r.users && GroupRefOk(r.groups, p.group)
    {
      var i :| 0 <= i < |r.posts| && r.posts[i] == p;
      assert db.posts[i] in db.posts;
    }
    forall c | c in r.comments ensures PostRefOk(r.posts, c.post) {
      if c.post.Some? {
        var p :| p in db.posts && p.id == c.post.value;
        var i :| 0 <= i < |db.posts| && db.posts[i] == p;
        assert r.posts[i] in r.posts;
      }
    }
  }

  /** Nulling the post of its comments leaves no dangling post reference. */
  lemma DeletePostValid(db: Db, pid: nat)
    requires Valid(db)
    ensures Valid(DeletePost(db, pid))
  {
    var r := DeletePost(db, pid);
    FilterPairwise(db.posts, (p: Post) => p.id != pid, Newer);
    FilterPairwise(db.posts, (p: Post) => p.id != pid, DistinctPostIds);
    forall i, j | 0 <= i < j < |r.comments| ensures DistinctCommentIds(r.comments[i], r.comments[j]) {
      assert DistinctCommentIds(db.comments[i], db.comments[j]);
    }
    forall c | c in r.comments
      ensures c.id < r.nextCommentId && c.created <= r.clock && c.author in r.users && PostRefOk(r.posts, c.post)
    {
      var i :| 0 <= i < |r.comments| && r.comments[i] == c;
      assert db.comments[i] in db.comments;
      if c.post.Some? {
        var p :| p in db.posts && p.id == c.post.value;
        assert p in r.posts;
      }
    }
  }

  /** After the cascade no row names the deleted user, and the comments
      left behind point only at surviving posts. */
  lemma DeleteUserValid(db: Db, u: Username)
    requires Valid(db)
    ensures Valid(DeleteUser(db, u))
  {
    var r := DeleteUser(db, u);
    FilterPairwise(db.posts, (p: Post) => p.author != u, Newer);
    FilterPairwise(db.posts, (p: Post) => p.author != u, DistinctPostIds);
    assert PostsValid(r);
    DeleteUserFollowsValid(db, u);
    DeleteUserCommentsValid(db, u);
  }

  lemma DeleteUserFollowsValid(db: Db, u: Username)
    requires Valid(db)
    ensures FollowsValid(DeleteUser(db, u))
  {
    FilterPairwise(db.follows, (f: Follow) => f.user != u && f.author != u, DistinctPair);
    FilterPairwise(db.follows, (f: Follow) => f.user != u && f.author != u, DistinctFollowIds);
  }

  lemma DeleteUserCommentsValid(db: Db, u: Username)
    requires Valid(db)
    ensures CommentsValid(DeleteUser(db, u))
  {
    var r := DeleteUser(db, u);
    var gone := PostIdsBy(db.posts, u);
    var keptC := (c: Comment) => c.author != u;
    var kept := Filter(db.comments, keptC);
    assert r.comments == CascadeComments(db.comments, u, gone) == UnlinkAll(kept, gone);
    FilterPairwise(db.comments, keptC, DistinctCommentIds);
    forall p | p in db.posts && p.id !in gone ensures p in r.posts {
    }
    UnlinkKeepsRows(kept, gone, r.posts, db.posts, r.nextCommentId, r.clock, r.users);
  }

  /** Nulling the references to deleted posts keeps every other column of
      the comment rows, and leaves references only to surviving posts. */
  lemma UnlinkKeepsRows(kept: seq<Comment>, gone: set<nat>, posts': seq<Post>, posts: seq<Post>,
                        next: nat, clock: int, users: set<Username>)
    requires Pairwise(kept, DistinctCommentIds)
    requires forall c | c in kept :: c.id < next && c.created <= clock && c.author in users && PostRefOk(posts, c.post)
    requires forall p | p in posts && p.id !in gone :: p in posts'
    ensures Pairwise(UnlinkAll(kept, gone), DistinctCommentIds)
    ensures forall c | c in UnlinkAll(kept, gone) ::
      c.id < next && c.created <= clock && c.author in users && PostRefOk(posts', c.post)
  {
  }
}
