/** The four post lists the site shows — all posts, a group's posts, an
    author's posts, and the posts of the authors a user follows — all in
    the posts' newest-first order. */
module Timelines {
  import opened Wrappers
  import opened Seqs
  import opened Models
  import opened FollowGraph

  /** The `-pub_date` ordering: strictly newest first. */
  ghost predicate NewestFirst(posts: seq<Post>)
  {
    Pairwise(posts, Newer)
  }

  /** The posts of one group. */
  function GroupTimeline(posts: seq<Post>, gid: nat): (r: seq<Post>)
    ensures forall p :: p in r <==> p in posts && p.group == Some(gid)
    ensures NewestFirst(posts) ==> NewestFirst(r)
  {
    var keep := (p: Post) => p.group == Some(gid);
    FilterKeepsOrder(posts, keep);
    Filter(posts, keep)
  }

  /** The posts of one author. */
  function AuthorTimeline(posts: seq<Post>, a: Username): (r: seq<Post>)
    ensures forall p :: p in r <==> p in posts && p.author == a
    ensures NewestFirst(posts) ==> NewestFirst(r)
  {
    var keep := (p: Post) => p.author == a;
    FilterKeepsOrder(posts, keep);
    Filter(posts, keep)
  }

  /** Reference definition of the follow feed: the posts whose author `u`
      follows. */
  function FollowedPosts(posts: seq<Post>, follows: seq<Follow>, u: Username): (r: seq<Post>)
    ensures forall p :: p in r <==> p in posts && HasEdge(follows, u, p.author)
    ensures NewestFirst(posts) ==> NewestFirst(r)
  {
    var keep := (p: Post) => HasEdge(follows, u, p.author);
    FilterKeepsOrder(posts, keep);
    Filter(posts, keep)
  }

  lemma FilterKeepsOrder(posts: seq<Post>, keep: Post -> bool)
    ensures NewestFirst(posts) ==> NewestFirst(Filter(posts, keep))
  {
    if NewestFirst(posts) {
      FilterPairwise(posts, keep, Newer);
    }
  }

  /** Number of follow rows holding the pair (u, a). */
  function EdgeCount(follows: seq<Follow>, u: Username, a: Username): (r: nat)
    ensures r > 0 <==> HasEdge(follows, u, a)
    ensures r <= |follows|
  {
    if follows == [] then 0
    else
      assert follows == [follows[0]] + follows[1..];
      (if follows[0].user == u && follows[0].author == a then 1 else 0) + EdgeCount(follows[1..], u, a)
  }

  /** The follow feed as the database computes it: the join of posts with
      the follow rows whose author is the post's author and whose user is
      `u`, one output row per matching follow row, in post order. */
  function FollowTimeline(posts: seq<Post>, follows: seq<Follow>, u: Username): (r: seq<Post>)
    ensures forall p :: p in r <==> p in posts && HasEdge(follows, u, p.author)
  {
    if posts == [] then []
    else
      var n := EdgeCount(follows, u, posts[0].author);
      var copies := seq(n, _ => posts[0]);
      assert forall p :: p in copies <==> n > 0 && p == posts[0] by {
        if n > 0 { assert copies[0] == posts[0]; }
      }
      assert posts == [posts[0]] + posts[1..];
      copies + FollowTimeline(posts[1..], follows, u)
  }

  /** Unique pairs allow at most one matching row per pair. */
  lemma {:induction false} EdgeCountAtMostOne(follows: seq<Follow>, u: Username, a: Username)
    requires UniquePairs(follows)
    ensures EdgeCount(follows, u, a) == if HasEdge(follows, u, a) then 1 else 0
  {
    if follows != [] {
      UniqueTail(follows);
      EdgeCountAtMostOne(follows[1..], u, a);
    }
  }

  /** Because the follow table holds each pair at most once, the join
      returns every followed post exactly once: it equals the filter. */
  lemma {:induction false} FollowTimelineIsFollowedPosts(posts: seq<Post>, follows: seq<Follow>, u: Username)
    requires UniquePairs(follows)
    ensures FollowTimeline(posts, follows, u) == FollowedPosts(posts, follows, u)
  {
    if posts != [] {
      var p := posts[0];
      EdgeCountAtMostOne(follows, u, p.author);
      FollowTimelineIsFollowedPosts(posts[1..], follows, u);
      if HasEdge(follows, u, p.author) {
        assert seq(1, _ => p) == [p];
      } else {
        assert seq(0, _ => p) == [];
      }
    }
  }

  /** The head of a newest-first list is newer than everything after it. */
  lemma HeadIsNewest(a: seq<Post>)
    requires NewestFirst(a) && a != []
    ensures forall p | p in a :: p == a[0] || Newer(a[0], p)
    ensures NewestFirst(a[1..])
    ensures forall p :: p in a[1..] <==> p in a && p != a[0]
  {
  }

  /** A newest-first list is determined by its elements: two such lists
      holding the same posts are equal. So each timeline is THE
      newest-first listing of the posts it selects. */
  lemma {:induction false} NewestFirstDetermined(a: seq<Post>, b: seq<Post>)
    requires NewestFirst(a) && NewestFirst(b)
    requires forall p :: p in a <==> p in b
    ensures a == b
    decreases |a|
  {
    assert a == [] <==> b == [] by {
      if a != [] {
        assert a[0] in b;
      }
      if b != [] {
        assert b[0] in a;
      }
    }
    if a != [] {
      HeadIsNewest(a);
      HeadIsNewest(b);
      assert a[0] in b && b[0] in a;
      assert a[0] == b[0];
      NewestFirstDetermined(a[1..], b[1..]);
      assert a == [a[0]] + a[1..] && b == [b[0]] + b[1..];
    }
  }

  /** The follow feed lists the followed posts in the global order. */
  lemma FollowTimelineNewestFirst(posts: seq<Post>, follows: seq<Follow>, u: Username)
    requires UniquePairs(follows) && NewestFirst(posts)
    ensures NewestFirst(FollowTimeline(posts, follows, u))
  {
    FollowTimelineIsFollowedPosts(posts, follows, u);
  }
}
