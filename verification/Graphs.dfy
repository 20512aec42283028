/** Name-level graphs: the common specification language of both routers and of the
    announcement generator. Distances are counted in edges. */
module Graphs {
  type Name = string

  // The neighbour list of every known node; a missing key is a node without neighbours.
  type Graph = map<Name, seq<Name>>

  function Out(g: Graph, n: Name): seq<Name> {
    if n in g then g[n] else []
  }

  function Elements(names: seq<Name>): set<Name> {
    set n | n in names
  }

  // Every name that occurs in some neighbour list.
  function Targets(g: Graph): set<Name> {
    set n, x | n in g && x in g[n] :: x
  }

  lemma SmallerSet<T>(a: set<T>, b: set<T>)
    requires a < b
    ensures |a| < |b|
  {
    var x :| x in b && x !in a;
    assert b == a + {x} + (b - a - {x});
  }

  // dst can be reached from src over at most k edges.
  ghost predicate Within(g: Graph, src: Name, dst: Name, k: nat)
    decreases k
  {
    if k == 0 then
      src == dst
    else
      Within(g, src, dst, k - 1) || exists p :: Within(g, src, p, k - 1) && dst in Out(g, p)
  }

  // The only three facts about Within that inductions over paths need.
  lemma WithinZero(g: Graph, src: Name, dst: Name)
    ensures Within(g, src, dst, 0) <==> src == dst
  {
  }

  lemma WithinStep(g: Graph, src: Name, p: Name, dst: Name, k: nat)
    requires Within(g, src, p, k) && dst in Out(g, p)
    ensures Within(g, src, dst, k + 1)
  {
  }

  lemma WithinBack(g: Graph, src: Name, dst: Name, k: nat) returns (p: Name)
    requires 0 < k && Within(g, src, dst, k) && !Within(g, src, dst, k - 1)
    ensures Within(g, src, p, k - 1) && dst in Out(g, p)
  {
    p :| Within(g, src, p, k - 1) && dst in Out(g, p);
  }

  ghost predicate IsDist(g: Graph, src: Name, dst: Name, k: nat) {
    Within(g, src, dst, k) && forall j: nat | j < k :: !Within(g, src, dst, j)
  }

  ghost predicate Reaches(g: Graph, src: Name, dst: Name) {
    exists k: nat :: Within(g, src, dst, k)
  }

  // No goal is fewer than k edges away.
  ghost predicate FartherThan(g: Graph, goals: set<Name>, src: Name, k: nat) {
    forall t, j: nat | t in goals && j < k :: !Within(g, src, t, j)
  }

  // s is one of the goals, and no goal is fewer edges away from src than s.
  ghost predicate Nearest(g: Graph, goals: set<Name>, src: Name, s: Name) {
    && s in goals
    && exists k: nat :: Within(g, src, s, k) && FartherThan(g, goals, src, k)
  }

  // The reference notion behind Within: an explicit walk.
  ghost predicate IsWalk(g: Graph, w: seq<Name>, src: Name, dst: Name) {
    && 0 < |w|
    && w[0] == src
    && w[|w| - 1] == dst
    && forall i | 0 <= i < |w| - 1 :: IsHop(g, w, i)
  }

  ghost predicate IsHop(g: Graph, w: seq<Name>, i: nat)
    requires i + 1 < |w|
  {
    w[i + 1] in Out(g, w[i])
  }

  lemma {:induction false} WithinGivesWalk(g: Graph, src: Name, dst: Name, k: nat) returns (w: seq<Name>)
    requires Within(g, src, dst, k)
    ensures IsWalk(g, w, src, dst) && |w| <= k + 1
    decreases k
  {
    hide Within;
    if k == 0 {
      WithinZero(g, src, dst);
      w := [src];
    } else if Within(g, src, dst, k - 1) {
      w := WithinGivesWalk(g, src, dst, k - 1);
    } else {
      var p := WithinBack(g, src, dst, k);
      var v := WithinGivesWalk(g, src, p, k - 1);
      w := v + [dst];
      forall i | 0 <= i < |w| - 1
        ensures IsHop(g, w, i)
      {
        assert i < |v| - 1 ==> IsHop(g, v, i);
      }
    }
  }

  lemma {:induction false} WalkGivesWithin(g: Graph, src: Name, dst: Name, w: seq<Name>)
    requires IsWalk(g, w, src, dst)
    ensures Within(g, src, dst, |w| - 1)
    decreases |w|
  {
    hide Within;
    if |w| == 1 {
      WithinZero(g, src, dst);
    } else {
      var v := w[..|w| - 1];
      forall i | 0 <= i < |v| - 1
        ensures IsHop(g, v, i)
      {
        assert IsHop(g, w, i);
      }
      assert IsHop(g, w, |w| - 2);
      WalkGivesWithin(g, src, v[|v| - 1], v);
      WithinStep(g, src, v[|v| - 1], dst, |v| - 1);
    }
  }

  lemma WithinIffWalk(g: Graph, src: Name, dst: Name, k: nat)
    ensures Within(g, src, dst, k) <==> exists w :: IsWalk(g, w, src, dst) && |w| <= k + 1
  {
    hide Within;
    if Within(g, src, dst, k) {
      var w := WithinGivesWalk(g, src, dst, k);
    }
    forall w | IsWalk(g, w, src, dst) && |w| <= k + 1
      ensures Within(g, src, dst, k)
    {
      WalkGivesWithin(g, src, dst, w);
      WithinMonotone(g, src, dst, |w| - 1, k);
    }
  }

  lemma {:induction false} WithinMonotone(g: Graph, src: Name, dst: Name, j: nat, k: nat)
    requires j <= k && Within(g, src, dst, j)
    ensures Within(g, src, dst, k)
    decreases k
  {
    if j < k {
      WithinMonotone(g, src, dst, j, k - 1);
    }
  }

  lemma {:induction false} WithinTransitive(g: Graph, src: Name, mid: Name, dst: Name, j: nat, k: nat)
    requires Within(g, src, mid, j) && Within(g, mid, dst, k)
    ensures Within(g, src, dst, j + k)
    decreases k
  {
    hide Within;
    if k == 0 {
      WithinZero(g, mid, dst);
    } else if Within(g, mid, dst, k - 1) {
      WithinTransitive(g, src, mid, dst, j, k - 1);
      WithinMonotone(g, src, dst, j + k - 1, j + k);
    } else {
      var p := WithinBack(g, mid, dst, k);
      WithinTransitive(g, src, mid, p, j, k - 1);
      WithinStep(g, src, p, dst, j + k - 1);
    }
  }

  lemma EdgeIsWithin(g: Graph, src: Name, dst: Name)
    requires dst in Out(g, src)
    ensures Within(g, src, dst, 1)
  {
    WithinZero(g, src, src);
    WithinStep(g, src, src, dst, 0);
  }

  // Within looks only at which edges there are, not at list order or multiplicity.
  ghost predicate Contains(h: Graph, g: Graph) {
    forall n, x | x in Out(g, n) :: x in Out(h, n)
  }

  lemma {:induction false} WithinContains(g: Graph, h: Graph, src: Name, dst: Name, k: nat)
    requires Contains(h, g) && Within(g, src, dst, k)
    ensures Within(h, src, dst, k)
    decreases k
  {
    hide Within;
    if k == 0 {
      WithinZero(g, src, dst);
      WithinZero(h, src, dst);
    } else if Within(g, src, dst, k - 1) {
      WithinContains(g, h, src, dst, k - 1);
      WithinMonotone(h, src, dst, k - 1, k);
    } else {
      var p := WithinBack(g, src, dst, k);
      WithinContains(g, h, src, p, k - 1);
      WithinStep(h, src, p, dst, k - 1);
    }
  }

  ghost predicate Symmetric(g: Graph) {
    forall n, x | x in Out(g, n) :: n in Out(g, x)
  }

  lemma {:induction false} WithinSymmetric(g: Graph, src: Name, dst: Name, k: nat)
    requires Symmetric(g) && Within(g, src, dst, k)
    ensures Within(g, dst, src, k)
    decreases k
  {
    hide Within;
    if k == 0 {
      WithinZero(g, src, dst);
      WithinZero(g, dst, src);
    } else if Within(g, src, dst, k - 1) {
      WithinSymmetric(g, src, dst, k - 1);
      WithinMonotone(g, dst, src, k - 1, k);
    } else {
      var p := WithinBack(g, src, dst, k);
      WithinSymmetric(g, src, p, k - 1);
      EdgeIsWithin(g, dst, p);
      WithinTransitive(g, dst, p, src, 1, k - 1);
    }
  }

  // A set that holds the start and is closed under edges holds everything reachable.
  lemma {:induction false} ClosedSetHoldsReachable(g: Graph, src: Name, dst: Name, k: nat, closed: set<Name>)
    requires src in closed && Within(g, src, dst, k)
    requires forall n, x | n in closed && x in Out(g, n) :: x in closed
    ensures dst in closed
    decreases k
  {
    hide Within;
    if k == 0 {
      WithinZero(g, src, dst);
    } else if Within(g, src, dst, k - 1) {
      ClosedSetHoldsReachable(g, src, dst, k - 1, closed);
    } else {
      var p := WithinBack(g, src, dst, k);
      ClosedSetHoldsReachable(g, src, p, k - 1, closed);
    }
  }

  lemma {:induction false} ReachesHasDist(g: Graph, src: Name, dst: Name, k: nat) returns (d: nat)
    requires Within(g, src, dst, k)
    ensures d <= k && IsDist(g, src, dst, d)
    decreases k
  {
    if j: nat :| j < k && Within(g, src, dst, j) {
      d := ReachesHasDist(g, src, dst, j);
    } else {
      d := k;
    }
  }

  lemma {:induction false} LastEdge(g: Graph, src: Name, dst: Name, k: nat) returns (p: Name, j: nat)
    requires Within(g, src, dst, k) && src != dst
    ensures j < k && Within(g, src, p, j) && dst in Out(g, p)
    decreases k
  {
    hide Within;
    WithinZero(g, src, dst);
    if Within(g, src, dst, k - 1) {
      p, j := LastEdge(g, src, dst, k - 1);
    } else {
      j := k - 1;
      p := WithinBack(g, src, dst, k);
    }
  }

  // ------------------------------------------------------------------ silent nodes

  // g is what is left of h when only the nodes in heard announce their neighbours.
  ghost predicate Muted(g: Graph, h: Graph, heard: set<Name>) {
    forall n, x :: x in Out(g, n) <==> n in heard && x in Out(h, n)
  }

  // g has all of h's edges from heard nodes, and of those from silent ones at most those
  // to heard nodes.
  ghost predicate Thinned(g: Graph, h: Graph, heard: set<Name>) {
    && (forall n, x {:trigger x in Out(g, n)} {:trigger x in Out(h, n)} | n in heard ::
          x in Out(g, n) <==> x in Out(h, n))
    && (forall n, x {:trigger x in Out(g, n)} | n !in heard && x in Out(g, n) :: x in heard && x in Out(h, n))
  }

  // Whenever h leads from a heard node through a silent one, the heard part g
  // offers a detour that is no longer.
  ghost predicate Bypassed(g: Graph, h: Graph, heard: set<Name>) {
    forall x, n, y | x in heard && n !in heard && n in Out(h, x) && y in Out(h, n) :: Within(g, x, y, 2)
  }

  ghost predicate SameDistancesFrom(g: Graph, h: Graph, heard: set<Name>) {
    forall x, y, k: nat | x in heard :: Within(g, x, y, k) <==> Within(h, x, y, k)
  }

  lemma MutedIsThinned(g: Graph, h: Graph, heard: set<Name>)
    requires Muted(g, h, heard)
    ensures Thinned(g, h, heard)
  {
  }

  lemma ThinnedIsContained(g: Graph, h: Graph, heard: set<Name>)
    requires Thinned(g, h, heard)
    ensures Contains(h, g)
  {
    forall n, x {:trigger x in Out(g, n)} | x in Out(g, n)
      ensures x in Out(h, n)
    {
      if n !in heard {
        assert x in heard && x in Out(h, n);
      }
    }
  }

  lemma {:induction false} DetourPreservesWithin(
      g: Graph, h: Graph, heard: set<Name>, x: Name, y: Name, k: nat)
    requires Thinned(g, h, heard) && Bypassed(g, h, heard)
    requires x in heard && Within(h, x, y, k)
    ensures Within(g, x, y, k)
    decreases k
  {
    hide Within;
    if k == 0 {
      WithinZero(g, x, y);
      WithinZero(h, x, y);
    } else if Within(h, x, y, k - 1) {
      DetourPreservesWithin(g, h, heard, x, y, k - 1);
      WithinMonotone(g, x, y, k - 1, k);
    } else {
      var p := WithinBack(h, x, y, k);
      DetourPreservesWithin(g, h, heard, x, p, k - 1);
      if p in heard {
        assert y in Out(g, p);
        WithinStep(g, x, p, y, k - 1);
      } else {
        var q, d := LastEdge(g, x, p, k - 1);
        assert q in heard && p in Out(h, q);
        WithinTransitive(g, x, q, y, d, 2);
        WithinMonotone(g, x, y, d + 2, k);
      }
    }
  }

  // Losing announcements of silent nodes changes no distance from a heard node exactly
  // when every silent node can be bypassed.
  lemma SilenceHarmlessIffBypassed(g: Graph, h: Graph, heard: set<Name>)
    requires Thinned(g, h, heard)
    ensures SameDistancesFrom(g, h, heard) <==> Bypassed(g, h, heard)
  {
    hide Within, Thinned;
    if SameDistancesFrom(g, h, heard) {
      forall x, n, y | x in heard && n !in heard && n in Out(h, x) && y in Out(h, n)
        ensures Within(g, x, y, 2)
      {
        EdgeIsWithin(h, x, n);
        EdgeIsWithin(h, n, y);
        WithinTransitive(h, x, n, y, 1, 1);
      }
    }
    if Bypassed(g, h, heard) {
      ThinnedIsContained(g, h, heard);
      forall x, y, k: nat | x in heard
        ensures Within(g, x, y, k) <==> Within(h, x, y, k)
      {
        if Within(g, x, y, k) {
          WithinContains(g, h, x, y, k);
        }
        if Within(h, x, y, k) {
          DetourPreservesWithin(g, h, heard, x, y, k);
        }
      }
    }
  }

  // Two nodes can do without a silent node between them: they are the same node, linked,
  // or both linked to some heard node.
  ghost predicate LinkedAround(h: Graph, heard: set<Name>, x: Name, y: Name) {
    || x == y
    || y in Out(h, x)
    || exists m :: m in heard && m in Out(h, x) && y in Out(h, m)
  }

  // Where g has no edge from a silent node to y, that is being within two edges in g.
  lemma AroundIsTwoHops(g: Graph, h: Graph, heard: set<Name>, x: Name, y: Name)
    requires Thinned(g, h, heard) && x in heard
    requires forall n | n !in heard :: y !in Out(g, n)
    ensures Within(g, x, y, 2) <==> LinkedAround(h, heard, x, y)
  {
    hide Within;
    WithinZero(g, x, x);
    if Within(g, x, y, 2) && x != y {
      var m, j := LastEdge(g, x, y, 2);
      assert m in heard && y in Out(h, m);
      if m != x {
        var p, i := LastEdge(g, x, m, j);
        WithinZero(g, x, p);
        assert m in Out(h, x);
      }
    }
    if x == y {
      WithinMonotone(g, x, x, 0, 2);
    } else if y in Out(h, x) {
      assert y in Out(g, x);
      EdgeIsWithin(g, x, y);
      WithinMonotone(g, x, y, 1, 2);
    } else if m :| m in heard && m in Out(h, x) && y in Out(h, m) {
      assert m in Out(g, x) && y in Out(g, m);
      EdgeIsWithin(g, x, m);
      EdgeIsWithin(g, m, y);
      WithinTransitive(g, x, m, y, 1, 1);
    }
  }
}
