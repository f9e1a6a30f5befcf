/** The follow relation: rows of the Follow table, their uniqueness
    constraint, and the existence and count queries the profile and post
    pages make. */
module FollowGraph {
  import opened Models
  import opened Seqs

  /** The two rows do not repeat one (user, author) pair. */
  predicate DistinctPair(f: Follow, g: Follow)
  {
    !(f.user == g.user && f.author == g.author)
  }

  /** The table's `unique_together = (user, author)` constraint. */
  ghost predicate UniquePairs(follows: seq<Follow>)
  {
    Pairwise(follows, DistinctPair)
  }

  /** `u` follows `a`: some row holds the pair. */
  predicate HasEdge(follows: seq<Follow>, u: Username, a: Username)
  {
    exists f :: f in follows && f.user == u && f.author == a
  }

  /** Inserting a row for a pair that is absent keeps the pairs unique. */
  lemma AddEdgeKeepsUnique(follows: seq<Follow>, f: Follow)
    requires UniquePairs(follows)
    requires !HasEdge(follows, f.user, f.author)
    ensures UniquePairs(follows + [f])
  {
  }

  /** Deletes every row holding the pair (u, a). */
  function RemoveEdge(follows: seq<Follow>, u: Username, a: Username): (r: seq<Follow>)
    ensures !HasEdge(r, u, a)
    ensures forall x, y | x != u || y != a :: HasEdge(r, x, y) <==> HasEdge(follows, x, y)
    ensures !HasEdge(follows, u, a) ==> r == follows
    ensures forall f | f in r :: f in follows
    ensures UniquePairs(follows) ==> UniquePairs(r)
  {
    var keep := (f: Follow) => !(f.user == u && f.author == a);
    var r := Filter(follows, keep);
    assert UniquePairs(follows) ==> UniquePairs(r) by {
      if UniquePairs(follows) {
        FilterPairwise(follows, keep, DistinctPair);
      }
    }
    r
  }

  /** Number of rows whose author is `a` (the "followers" figure). */
  function FollowerCount(follows: seq<Follow>, a: Username): nat
  {
    if follows == [] then 0
    else (if follows[0].author == a then 1 else 0) + FollowerCount(follows[1..], a)
  }

  /** Number of rows whose user is `u` (the "follows" figure). */
  function FollowingCount(follows: seq<Follow>, u: Username): nat
  {
    if follows == [] then 0
    else (if follows[0].user == u then 1 else 0) + FollowingCount(follows[1..], u)
  }

  /** The users who follow `a`. */
  function Followers(follows: seq<Follow>, a: Username): set<Username>
  {
    set f | f in follows && f.author == a :: f.user
  }

  /** The authors `u` follows. */
  function Followees(follows: seq<Follow>, u: Username): set<Username>
  {
    set f | f in follows && f.user == u :: f.author
  }

  lemma UniqueTail(follows: seq<Follow>)
    requires follows != [] && UniquePairs(follows)
    ensures UniquePairs(follows[1..])
    ensures !HasEdge(follows[1..], follows[0].user, follows[0].author)
  {
  }

  /** With unique pairs, the followers count is the number of distinct
      followers. */
  lemma {:induction false} FollowerCountIsFollowers(follows: seq<Follow>, a: Username)
    requires UniquePairs(follows)
    ensures FollowerCount(follows, a) == |Followers(follows, a)|
  {
    if follows == [] {
      assert Followers(follows, a) == {};
    } else {
      var f, t := follows[0], follows[1..];
      UniqueTail(follows);
      FollowerCountIsFollowers(t, a);
      assert follows == [f] + t;
      if f.author == a {
        assert Followers(follows, a) == {f.user} + Followers(t, a);
        assert f.user !in Followers(t, a);
      } else {
        assert Followers(follows, a) == Followers(t, a);
      }
    }
  }

  /** With unique pairs, the follows count is the number of distinct
      followed authors. */
  lemma {:induction false} FollowingCountIsFollowees(follows: seq<Follow>, u: Username)
    requires UniquePairs(follows)
    ensures FollowingCount(follows, u) == |Followees(follows, u)|
  {
    if follows == [] {
      assert Followees(follows, u) == {};
    } else {
      var f, t := follows[0], follows[1..];
      UniqueTail(follows);
      FollowingCountIsFollowees(t, u);
      assert follows == [f] + t;
      if f.user == u {
        assert Followees(follows, u) == {f.author} + Followees(t, u);
        assert f.author !in Followees(t, u);
      } else {
        assert Followees(follows, u) == Followees(t, u);
      }
    }
  }
}
