/**
 `GitRepo.find_first_accessible_commits_from_head` (valvetraces): which of the queried commits are
 met first when walking down from HEAD. libgit2's walker is given by what it yields.
 */
module CommitFrontier {
  type Oid = string

  /** Every commit of the repository with its parents. */
  type Graph = map<Oid, seq<Oid>>

  ghost predicate Closed(g: Graph) {
    forall c, p :: c in g && p in g[c] ==> p in g
  }

  /** `b` is reached from `a` by going to a parent `n` times. */
  ghost predicate ReachesIn(g: Graph, a: Oid, b: Oid, n: nat)
    decreases n
  {
    a in g && if n == 0 then a == b else exists p :: p in g[a] && ReachesIn(g, p, b, n - 1)
  }

  /** `b` is `a` or one of its ancestors. */
  ghost predicate Reaches(g: Graph, a: Oid, b: Oid) {
    exists n: nat :: ReachesIn(g, a, b, n)
  }

  ghost predicate ProperAncestor(g: Graph, b: Oid, a: Oid) {
    exists n: nat :: n > 0 && ReachesIn(g, a, b, n)
  }

  ghost predicate Acyclic(g: Graph) {
    forall c :: !ProperAncestor(g, c, c)
  }

  /** Hiding a commit from the walker hides its ancestors too; unknown commits hide nothing. */
  ghost predicate Hidden(g: Graph, queried: set<Oid>, c: Oid) {
    exists q :: q in queried && Reaches(g, q, c)
  }

  ghost predicate Visible(g: Graph, head: Oid, queried: set<Oid>, c: Oid) {
    Reaches(g, head, c) && !Hidden(g, queried, c)
  }

  /** What the walker yields, in whatever order. */
  ghost predicate IsWalk(g: Graph, head: Oid, queried: set<Oid>, walk: seq<Oid>) {
    forall c :: c in walk <==> Visible(g, head, queried, c)
  }

  ghost predicate OnFrontier(g: Graph, head: Oid, queried: set<Oid>, c: Oid) {
    c in queried &&
    if head in queried then c == head
    else exists child :: child in g && Visible(g, head, queried, child) && c in g[child]
  }

  method FindFirstAccessible(g: Graph, head: Oid, queried: set<Oid>, walk: seq<Oid>) returns (top: set<Oid>)
    requires Closed(g) && head in g && IsWalk(g, head, queried, walk)
    ensures forall c :: c in top <==> OnFrontier(g, head, queried, c)
  {
    if head in queried {
      return {head};
    }
    top := {};
    for i := 0 to |walk|
      invariant forall c :: c in top <==> c in queried && exists k :: 0 <= k < i && walk[k] in g && c in g[walk[k]]
    {
      assert walk[i] in walk;
      ReachesKnown(g, head, walk[i]);
      var parents := g[walk[i]];
      ghost var before := top;
      for j := 0 to |parents|
        invariant forall c :: c in top <==> c in before || (c in queried && c in parents[..j])
      {
        if parents[j] in queried {
          top := top + {parents[j]};
        }
      }
    }
    forall c
      ensures c in top <==> OnFrontier(g, head, queried, c)
    {
      if c in top {
        var k :| 0 <= k < |walk| && walk[k] in g && c in g[walk[k]];
        assert walk[k] in walk;
      }
      if OnFrontier(g, head, queried, c) {
        var child :| child in g && Visible(g, head, queried, child) && c in g[child];
        assert child in walk;
      }
    }
  }

  // ---------------------------------------------------------------------------
  // Reachability

  lemma {:induction false} ReachesInKnown(g: Graph, a: Oid, b: Oid, n: nat)
    requires Closed(g) && ReachesIn(g, a, b, n)
    ensures b in g
    decreases n
  {
    if n > 0 {
      var p :| p in g[a] && ReachesIn(g, p, b, n - 1);
      ReachesInKnown(g, p, b, n - 1);
    }
  }

  lemma ReachesKnown(g: Graph, a: Oid, b: Oid)
    requires Closed(g) && Reaches(g, a, b)
    ensures b in g
  {
    var n: nat :| ReachesIn(g, a, b, n);
    ReachesInKnown(g, a, b, n);
  }

  lemma {:induction false} ReachesInTransitive(g: Graph, a: Oid, b: Oid, c: Oid, n: nat, m: nat)
    requires ReachesIn(g, a, b, n) && ReachesIn(g, b, c, m)
    ensures ReachesIn(g, a, c, n + m)
    decreases n
  {
    if n > 0 {
      var p :| p in g[a] && ReachesIn(g, p, b, n - 1);
      ReachesInTransitive(g, p, b, c, n - 1, m);
      assert p in g[a] && ReachesIn(g, p, c, n + m - 1);
    }
  }

  lemma ReachesTransitive(g: Graph, a: Oid, b: Oid, c: Oid)
    requires Reaches(g, a, b) && Reaches(g, b, c)
    ensures Reaches(g, a, c)
  {
    var n: nat :| ReachesIn(g, a, b, n);
    var m: nat :| ReachesIn(g, b, c, m);
    ReachesInTransitive(g, a, b, c, n, m);
  }

  /** One step to a parent. */
  lemma ReachesParent(g: Graph, a: Oid, x: Oid, p: Oid)
    requires Closed(g) && Reaches(g, a, x) && x in g && p in g[x]
    ensures ProperAncestor(g, p, a) && Reaches(g, a, p)
  {
    var n: nat :| ReachesIn(g, a, x, n);
    assert p in g[x] && ReachesIn(g, p, p, 0);
    assert ReachesIn(g, x, p, 1);
    ReachesInTransitive(g, a, x, p, n, 1);
  }

  /** The last step of a path. */
  lemma {:induction false} LastStep(g: Graph, a: Oid, b: Oid, n: nat) returns (x: Oid)
    requires Closed(g) && n > 0 && ReachesIn(g, a, b, n)
    ensures ReachesIn(g, a, x, n - 1) && x in g && b in g[x]
    decreases n
  {
    var p :| p in g[a] && ReachesIn(g, p, b, n - 1);
    if n == 1 {
      x := a;
    } else {
      x := LastStep(g, p, b, n - 1);
      assert p in g[a] && ReachesIn(g, p, x, n - 2);
    }
  }

  // ---------------------------------------------------------------------------
  // What the frontier is

  /** Everything returned was asked for and is in HEAD's history. */
  lemma FrontierIsAccessible(g: Graph, head: Oid, queried: set<Oid>, c: Oid)
    requires Closed(g) && head in g && OnFrontier(g, head, queried, c)
    ensures c in queried && Reaches(g, head, c)
  {
    if head in queried {
      assert ReachesIn(g, head, head, 0);
    } else {
      var child :| child in g && Visible(g, head, queried, child) && c in g[child];
      ReachesParent(g, head, child, c);
    }
  }

  /** Every queried commit of HEAD's history that no other queried commit descends from is returned. */
  lemma TopmostIsReturned(g: Graph, head: Oid, queried: set<Oid>, c: Oid)
    requires Closed(g) && Acyclic(g) && head in g && c in queried && Reaches(g, head, c)
    requires forall q :: q in queried && q != c ==> !ProperAncestor(g, c, q)
    ensures OnFrontier(g, head, queried, c)
  {
    var n: nat :| ReachesIn(g, head, c, n);
    if head in queried {
      if c != head {
        assert ProperAncestor(g, c, head);
      }
    } else {
      assert n > 0;
      var child := LastStep(g, head, c, n);
      assert Reaches(g, head, child);
      if Hidden(g, queried, child) {
        var q :| q in queried && Reaches(g, q, child);
        ReachesParent(g, q, child, c);
      }
    }
  }

  // ---------------------------------------------------------------------------
  // When something is returned

  ghost function Ancestors(g: Graph, c: Oid): set<Oid> {
    set x | x in g && Reaches(g, c, x)
  }

  lemma ProperSubsetIsSmaller(a: set<Oid>, b: set<Oid>)
    requires a < b
    ensures |a| < |b|
  {
    assert b == a + (b - a);
  }

  lemma AncestorHasFewerAncestors(g: Graph, a: Oid, b: Oid)
    requires Closed(g) && Acyclic(g) && ProperAncestor(g, b, a)
    ensures |Ancestors(g, b)| < |Ancestors(g, a)|
  {
    var n: nat :| n > 0 && ReachesIn(g, a, b, n);
    assert Reaches(g, a, b);
    forall x | x in Ancestors(g, b)
      ensures x in Ancestors(g, a)
    {
      ReachesTransitive(g, a, b, x);
    }
    assert a in Ancestors(g, a) by {
      assert ReachesIn(g, a, a, 0);
    }
    if Reaches(g, b, a) {
      var m: nat :| ReachesIn(g, b, a, m);
      ReachesInTransitive(g, a, b, a, n, m);
      assert ProperAncestor(g, a, a);
    }
    ProperSubsetIsSmaller(Ancestors(g, b), Ancestors(g, a));
  }

  lemma {:induction false} WithMostAncestors(g: Graph, s: set<Oid>) returns (c: Oid)
    requires s != {}
    ensures c in s && forall q :: q in s ==> |Ancestors(g, q)| <= |Ancestors(g, c)|
    decreases |s|
  {
    c :| c in s;
    var others := s - {c};
    if others != {} {
      var d := WithMostAncestors(g, others);
      assert forall q :: q in s ==> q == c || q in others;
      if |Ancestors(g, c)| < |Ancestors(g, d)| {
        c := d;
      }
    }
  }

  /** A queried commit outside HEAD's history hides `x`. */
  ghost predicate HiddenFromAside(g: Graph, head: Oid, queried: set<Oid>, x: Oid) {
    exists s :: s in queried && !Reaches(g, head, s) && Reaches(g, s, x)
  }

  /** A commit of HEAD's history that is not hidden from aside has a queried parent. */
  ghost predicate HasQueriedParent(g: Graph, head: Oid, queried: set<Oid>, x: Oid) {
    && x in g && Reaches(g, head, x) && !HiddenFromAside(g, head, queried, x)
    && exists q :: q in queried && q in g[x]
  }

  /** The queried commits of HEAD's history that `x` is, or is an ancestor of. */
  ghost function Above(g: Graph, head: Oid, queried: set<Oid>, x: Oid): set<Oid> {
    set s | s in queried && Reaches(g, head, s) && Reaches(g, s, x)
  }

  /** A queried commit of HEAD's history that no other queried commit above `x` descends from is returned. */
  lemma TopmostAboveIsReturned(g: Graph, head: Oid, queried: set<Oid>, x: Oid, c: Oid)
    requires Closed(g) && Acyclic(g) && head in g && head !in queried
    requires !HiddenFromAside(g, head, queried, x) && c in Above(g, head, queried, x)
    requires forall s :: s in Above(g, head, queried, x) ==> |Ancestors(g, s)| <= |Ancestors(g, c)|
    ensures OnFrontier(g, head, queried, c)
  {
    var n: nat :| ReachesIn(g, head, c, n);
    assert n > 0;
    var child := LastStep(g, head, c, n);
    assert Reaches(g, head, child);
    if Hidden(g, queried, child) {
      var s :| s in queried && Reaches(g, s, child);
      ReachesParent(g, s, child, c);
      ReachesTransitive(g, s, c, x);
      assert s in Above(g, head, queried, x);
      AncestorHasFewerAncestors(g, s, c);
    }
  }

  /**
   When exactly something is returned: HEAD was queried, or some commit of its history has a queried
   parent and is not hidden by a queried commit outside of this history.
   */
  lemma SomethingIsReturned(g: Graph, head: Oid, queried: set<Oid>)
    requires Closed(g) && Acyclic(g) && head in g
    ensures (exists c :: OnFrontier(g, head, queried, c))
       <==> head in queried || exists x :: HasQueriedParent(g, head, queried, x)
  {
    if head in queried {
      assert OnFrontier(g, head, queried, head);
    } else {
      if x :| HasQueriedParent(g, head, queried, x) {
        var q :| q in queried && q in g[x];
        if Hidden(g, queried, x) {
          var s :| s in queried && Reaches(g, s, x);
          assert s in Above(g, head, queried, x);
          var c := WithMostAncestors(g, Above(g, head, queried, x));
          TopmostAboveIsReturned(g, head, queried, x, c);
        } else {
          assert OnFrontier(g, head, queried, q);
        }
      }
      if c :| OnFrontier(g, head, queried, c) {
        var child :| child in g && Visible(g, head, queried, child) && c in g[child];
        assert HasQueriedParent(g, head, queried, child);
      }
    }
  }

  /** If the queried commits that exist are all in HEAD's history, one is returned exactly when there is one. */
  lemma AllInHistory(g: Graph, head: Oid, queried: set<Oid>)
    requires Closed(g) && Acyclic(g) && head in g
    requires forall q :: q in queried && q in g ==> Reaches(g, head, q)
    ensures (exists c :: OnFrontier(g, head, queried, c)) <==> exists q :: q in queried && q in g
  {
    SomethingIsReturned(g, head, queried);
    if q :| q in queried && q in g && head !in queried {
      var n: nat :| ReachesIn(g, head, q, n);
      var x := LastStep(g, head, q, n);
      assert Reaches(g, head, x);
      assert HasQueriedParent(g, head, queried, x);
    }
    if c :| OnFrontier(g, head, queried, c) {
      FrontierIsAccessible(g, head, queried, c);
      ReachesKnown(g, head, c);
    }
  }

  /** But when HEAD is an ancestor of a queried commit, everything is hidden and nothing is returned. */
  lemma NewerCommitHidesAll(g: Graph, head: Oid, queried: set<Oid>, c: Oid)
    requires Closed(g) && head in g && head !in queried && Hidden(g, queried, head)
    ensures !OnFrontier(g, head, queried, c)
  {
    if OnFrontier(g, head, queried, c) {
      var child :| child in g && Visible(g, head, queried, child) && c in g[child];
      var q :| q in queried && Reaches(g, q, head);
      ReachesTransitive(g, q, head, child);
    }
  }

  /** An instance: `old` was queried and is HEAD's parent, but querying the newer `tip` too hides it. */
  lemma NewerCommitHidesParent()
    ensures var g: Graph := map["tip" := ["head"], "head" := ["old"], "old" := []];
            Closed(g) && Reaches(g, "head", "old") && forall c :: !OnFrontier(g, "head", {"tip", "old"}, c)
  {
    var g: Graph := map["tip" := ["head"], "head" := ["old"], "old" := []];
    assert "old" in g["head"] && ReachesIn(g, "old", "old", 0);
    assert ReachesIn(g, "head", "old", 1);
    assert "head" in g["tip"] && ReachesIn(g, "head", "head", 0);
    assert ReachesIn(g, "tip", "head", 1);
    forall c
      ensures !OnFrontier(g, "head", {"tip", "old"}, c)
    {
      NewerCommitHidesAll(g, "head", {"tip", "old"}, c);
    }
  }

  /** Parents rank below their children. */
  ghost predicate Ranked(g: Graph, rank: map<Oid, nat>) {
    forall c, p :: c in g && p in g[c] ==> c in rank && p in rank && rank[p] < rank[c]
  }

  /** One rank below the other, so that no commit is its own ancestor. */
  lemma {:induction false} RankFalls(g: Graph, rank: map<Oid, nat>, a: Oid, b: Oid, n: nat)
    requires Ranked(g, rank)
    requires n > 0 && ReachesIn(g, a, b, n)
    ensures a in rank && b in rank && rank[b] < rank[a]
    decreases n
  {
    var p :| p in g[a] && ReachesIn(g, p, b, n - 1);
    if n > 1 {
      RankFalls(g, rank, p, b, n - 1);
    }
  }

  const FORKED: Graph := map["head" := ["mid"], "stray" := ["mid"], "mid" := ["old"], "old" := []]

  lemma ForkedRank(a: Oid, b: Oid, n: nat)
    requires n > 0 && ReachesIn(FORKED, a, b, n)
    ensures a != b && b != "head"
  {
    RankFalls(FORKED, map["head" := 2, "stray" := 2, "mid" := 1, "old" := 0], a, b, n);
  }

  lemma ForkedReaches()
    ensures Reaches(FORKED, "head", "old") && Reaches(FORKED, "stray", "mid")
  {
    assert "old" in FORKED["mid"] && ReachesIn(FORKED, "old", "old", 0);
    assert "mid" in FORKED["head"] && ReachesIn(FORKED, "mid", "old", 1);
    assert ReachesIn(FORKED, "head", "old", 2);
    assert "mid" in FORKED["stray"] && ReachesIn(FORKED, "mid", "mid", 0);
    assert ReachesIn(FORKED, "stray", "mid", 1);
  }

  /**
   Another instance: HEAD is not hidden, and `old` was queried and is in its history, but the queried
   side branch `stray` hides the commit between them, and nothing is returned.
   */
  lemma SideBranchHides(c: Oid)
    ensures Closed(FORKED) && Acyclic(FORKED) && Reaches(FORKED, "head", "old")
    ensures !Hidden(FORKED, {"stray", "old"}, "head") && !OnFrontier(FORKED, "head", {"stray", "old"}, c)
  {
    ForkedReaches();
    forall a, b, n: nat | n > 0 && ReachesIn(FORKED, a, b, n)
      ensures a != b && b != "head"
    {
      ForkedRank(a, b, n);
    }
    assert Hidden(FORKED, {"stray", "old"}, "mid");
  }
}
