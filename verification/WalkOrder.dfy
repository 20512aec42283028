/** Which of several equally long walks a breadth-first search takes: the order of walks by
    length and then by the positions of their steps in the neighbour lists, and the proof
    that nodes are discovered along their least walks, in that order. */
module WalkOrder {
  import opened Graphs

  // ------------------------------------------------------------------ the order

  // Where x first occurs in a list.
  function Position(names: seq<Name>, x: Name): (r: nat)
    ensures r <= |names|
    ensures x in names ==> r < |names|
    ensures r < |names| ==> names[r] == x
    ensures x !in names[..r]
  {
    if names == [] then 0
    else if names[0] == x then 0
    else
      var r := Position(names[1..], x);
      assert names[..r + 1] == [names[0]] + names[1..][..r];
      1 + r
  }

  // At their first difference, after step i, u goes to an earlier neighbour than v.
  ghost predicate Forks(g: Graph, u: seq<Name>, v: seq<Name>, i: nat) {
    && i + 1 < |u| && i + 1 < |v| && u[..i + 1] == v[..i + 1]
    && Position(Out(g, u[i]), u[i + 1]) < Position(Out(g, u[i]), v[i + 1])
  }

  ghost predicate Less(g: Graph, u: seq<Name>, v: seq<Name>) {
    |u| < |v| || (|u| == |v| && exists i :: Forks(g, u, v, i))
  }

  ghost predicate AtMost(g: Graph, u: seq<Name>, v: seq<Name>) {
    u == v || Less(g, u, v)
  }

  // w is the least walk from c to x.
  ghost predicate LeastWalk(g: Graph, c: Name, x: Name, w: seq<Name>) {
    IsWalk(g, w, c, x) && forall v | IsWalk(g, v, c, x) :: AtMost(g, w, v)
  }

  // w is the least of all walks from c to any goal, and s is where it ends.
  ghost predicate LeastWalkTo(g: Graph, goals: set<Name>, c: Name, s: Name, w: seq<Name>) {
    && s in goals && IsWalk(g, w, c, s)
    && forall t, v | t in goals && IsWalk(g, v, c, t) :: AtMost(g, w, v)
  }

  lemma ForksFirst(g: Graph, u: seq<Name>, v: seq<Name>, w: seq<Name>, i: nat, j: nat)
    requires Forks(g, u, v, i) && Forks(g, v, w, j)
    ensures Forks(g, u, w, if i < j then i else j)
  {
    var k := if i < j then i else j;
    SharedPrefix(u, v, i + 1, k + 1);
    SharedPrefix(v, w, j + 1, k + 1);
    if i < j {
      SharedPrefix(v, w, j + 1, i + 2);
    } else if j < i {
      SharedPrefix(u, v, i + 1, j + 2);
    }
  }

  lemma SharedPrefix(u: seq<Name>, v: seq<Name>, n: nat, k: nat)
    requires 0 < k <= n <= |u| && n <= |v| && u[..n] == v[..n]
    ensures u[..k] == v[..k] && u[k - 1] == v[k - 1]
  {
    assert u[k - 1] == u[..n][k - 1] && v[k - 1] == v[..n][k - 1];
    assert u[..k] == u[..n][..k] && v[..k] == v[..n][..k];
  }

  lemma LessTransitive(g: Graph, u: seq<Name>, v: seq<Name>, w: seq<Name>)
    requires Less(g, u, v) && Less(g, v, w)
    ensures Less(g, u, w)
  {
    hide Forks;
    if |u| == |v| == |w| {
      var i :| Forks(g, u, v, i);
      var j :| Forks(g, v, w, j);
      ForksFirst(g, u, v, w, i, j);
    }
  }

  lemma LessAtMost(g: Graph, u: seq<Name>, v: seq<Name>, w: seq<Name>)
    requires (Less(g, u, v) && AtMost(g, v, w)) || (AtMost(g, u, v) && Less(g, v, w))
    ensures Less(g, u, w)
  {
    hide Less;
    if Less(g, u, v) && Less(g, v, w) {
      LessTransitive(g, u, v, w);
    }
  }

  lemma LessIsStrict(g: Graph, u: seq<Name>, v: seq<Name>)
    ensures !(Less(g, u, v) && Less(g, v, u)) && !Less(g, u, u)
  {
    hide Forks;
    forall w, i
      ensures !Forks(g, w, w, i)
    {
      NoSelfFork(g, w, i);
    }
    if Less(g, u, v) && Less(g, v, u) {
      LessTransitive(g, u, v, u);
    }
  }

  lemma NoSelfFork(g: Graph, w: seq<Name>, i: nat)
    ensures !Forks(g, w, w, i)
  {
  }

  lemma ForkExtends(g: Graph, u: seq<Name>, v: seq<Name>, i: nat, a: seq<Name>, b: seq<Name>)
    requires Forks(g, u, v, i)
    ensures Forks(g, u + a, v + b, i)
  {
    assert (u + a)[..i + 1] == u[..i + 1] && (v + b)[..i + 1] == v[..i + 1];
  }

  // One more step keeps the order, whatever the steps are.
  lemma LessExtends(g: Graph, u: seq<Name>, v: seq<Name>, a: Name, b: Name)
    requires Less(g, u, v)
    ensures Less(g, u + [a], v + [b])
  {
    hide Forks;
    if |u| == |v| {
      var i :| Forks(g, u, v, i);
      ForkExtends(g, u, v, i, [a], [b]);
    }
  }

  // Two neighbours of the same node.
  lemma LessSibling(g: Graph, u: seq<Name>, a: Name, b: Name)
    requires u != [] && Position(Out(g, u[|u| - 1]), a) < Position(Out(g, u[|u| - 1]), b)
    ensures Less(g, u + [a], u + [b])
  {
    assert (u + [a])[..|u|] == u && (u + [b])[..|u|] == u;
    assert Forks(g, u + [a], u + [b], |u| - 1);
  }

  // A walk that is not after a prefix is not after the whole.
  lemma AtMostWhole(g: Graph, u: seq<Name>, v: seq<Name>, k: nat)
    requires k <= |v| && AtMost(g, u, v[..k])
    ensures AtMost(g, u, v)
    ensures k < |v| ==> Less(g, u, v)
  {
    if k == |v| {
      assert v[..k] == v;
    }
  }

  // The least walk to a goal is unique, and so is the goal.
  lemma LeastIsUnique(g: Graph, goals: set<Name>, c: Name, s: Name, w: seq<Name>, s': Name, w': seq<Name>)
    requires LeastWalkTo(g, goals, c, s, w) && LeastWalkTo(g, goals, c, s', w')
    ensures w == w' && s == s'
  {
    hide Less;
    LessIsStrict(g, w, w');
  }

  // ------------------------------------------------------------------ walks

  lemma StepWalk(g: Graph, w: seq<Name>, c: Name, p: Name, x: Name)
    requires IsWalk(g, w, c, p) && x in Out(g, p)
    ensures IsWalk(g, w + [x], c, x)
  {
    var v := w + [x];
    forall i | 0 <= i < |v| - 1
      ensures IsHop(g, v, i)
    {
      assert i < |w| - 1 ==> IsHop(g, w, i);
    }
  }

  lemma PrefixWalk(g: Graph, w: seq<Name>, c: Name, x: Name, k: nat)
    requires IsWalk(g, w, c, x) && k < |w|
    ensures IsWalk(g, w[..k + 1], c, w[k])
    ensures k + 1 < |w| ==> w[k + 1] in Out(g, w[k])
  {
    var v := w[..k + 1];
    forall i | 0 <= i < |v| - 1
      ensures IsHop(g, v, i)
    {
      assert IsHop(g, w, i);
    }
    assert k + 1 < |w| ==> IsHop(g, w, k);
  }

  // ------------------------------------------------------------------ the search

  // A search that has walked along here to its current node, has looked at the neighbours
  // in seen and has those in pending still to look at; walks has the discovered nodes.
  datatype Scan = Scan(seen: seq<Name>, pending: seq<Name>, queue: seq<Name>, walks: map<Name, seq<Name>>,
                       here: seq<Name>)

  // Discovered nodes have their least walks.
  ghost predicate WalksLeast(g: Graph, c: Name, s: Scan) {
    c in s.walks && forall x | x in s.walks :: LeastWalk(g, c, x, s.walks[x])
  }

  // The queue is in order, behind the current node, and made of neighbours of earlier
  // nodes or of those the current one has reached.
  ghost predicate QueueSorted(g: Graph, s: Scan) {
    && (forall q | q in s.queue :: q in s.walks && Less(g, s.here, s.walks[q]) && Joined(g, s, q))
    && (forall i, j | 0 <= i < j < |s.queue| && s.queue[i] in s.walks && s.queue[j] in s.walks ::
          Less(g, s.walks[s.queue[i]], s.walks[s.queue[j]]))
  }

  ghost predicate Joined(g: Graph, s: Scan, q: Name)
    requires q in s.walks
  {
    var w := s.walks[q];
    w != [] && (var u := w[..|w| - 1]; Less(g, u, s.here) || (u == s.here && (s.here == [] || Reached(s, q))))
  }

  ghost predicate Reached(s: Scan, q: Name) {
    q in s.seen || (s.pending != [] && q == s.pending[0])
  }

  ghost predicate AtNode(g: Graph, s: Scan) {
    if s.here == [] then s.seen == [] && s.pending == []
    else
      var p := s.here[|s.here| - 1];
      && p in s.walks && s.walks[p] == s.here && Out(g, p) == s.seen + s.pending
      && forall x | x in s.seen :: x in s.walks
  }

  // Discovered nodes that are no longer queued have handed on all their neighbours, the
  // current one but for those pending.
  ghost predicate HandedOn(g: Graph, s: Scan) {
    forall m, y | m in s.walks && m !in s.queue && y in Out(g, m) ::
      y in s.walks || (s.here != [] && m == s.here[|s.here| - 1] && y in s.pending)
  }

  ghost predicate Ordered(g: Graph, c: Name, s: Scan) {
    WalksLeast(g, c, s) && QueueSorted(g, s) && AtNode(g, s) && HandedOn(g, s)
  }

  // On a walk to an undiscovered node, the last discovered node before it leaves the
  // discovered part.
  lemma {:induction false} LeavesDiscovered(v: seq<Name>, walks: map<Name, seq<Name>>, n: nat) returns (k: nat)
    requires 0 < n < |v| && v[0] in walks && v[n] !in walks
    ensures k < n && v[k] in walks && v[k + 1] !in walks
  {
    if v[n - 1] in walks {
      k := n - 1;
    } else {
      k := LeavesDiscovered(v, walks, n - 1);
    }
  }

  // The step to the next undiscovered neighbour makes a walk that no walk to any
  // undiscovered node precedes.
  lemma NextIsLeast(g: Graph, c: Name, s: Scan, v: seq<Name>, y: Name)
    requires Ordered(g, c, s) && s.pending != [] && s.pending[0] !in s.walks
    requires IsWalk(g, v, c, y) && y !in s.walks
    ensures AtMost(g, s.here + [s.pending[0]], v)
  {
    hide IsWalk, AtMost, WalksLeast, QueueSorted, HandedOn, AtNode;
    WalkEnds(g, v, c, y);
    Start(g, c, s);
    var k := LeavesDiscovered(v, s.walks, |v| - 1);
    PrefixWalk(g, v, c, y, k);
    NextBefore(g, c, s, v[k], v[..k + 1], v[k + 1]);
    assert v[..k + 2] == v[..k + 1] + [v[k + 1]];
    AtMostWhole(g, s.here + [s.pending[0]], v, k + 2);
  }

  // The same for a walk to a neighbour of a discovered node.
  lemma NextBefore(g: Graph, c: Name, s: Scan, q: Name, u: seq<Name>, z: Name)
    requires Ordered(g, c, s) && s.pending != [] && s.pending[0] !in s.walks
    requires q in s.walks && IsWalk(g, u, c, q) && z in Out(g, q) && z !in s.walks
    ensures AtMost(g, s.here + [s.pending[0]], u + [z])
  {
    hide IsWalk, Less, WalksLeast, QueueSorted, LeastWalk, HandedOn, AtNode, Joined;
    var x := s.pending[0];
    LeastOf(g, c, s, q, u);
    if q in s.queue {
      QueuedBehind(g, s, q);
      LessAtMost(g, s.here, s.walks[q], u);
      LessExtends(g, s.here, u, x, z);
    } else {
      AtCurrent(g, s, q, z);
      if s.here != u {
        LessExtends(g, s.here, u, x, z);
      } else if x != z {
        SeenFirst(g, s, z);
        LessSibling(g, s.here, x, z);
      }
    }
  }

  lemma WalkEnds(g: Graph, w: seq<Name>, c: Name, y: Name)
    requires IsWalk(g, w, c, y)
    ensures |w| > 0 && w[0] == c && w[|w| - 1] == y
  {
  }

  lemma Start(g: Graph, c: Name, s: Scan)
    requires WalksLeast(g, c, s)
    ensures c in s.walks
  {
  }

  lemma LeastOf(g: Graph, c: Name, s: Scan, q: Name, u: seq<Name>)
    requires WalksLeast(g, c, s) && q in s.walks && IsWalk(g, u, c, q)
    ensures AtMost(g, s.walks[q], u) && IsWalk(g, s.walks[q], c, q)
  {
    assert LeastWalk(g, c, q, s.walks[q]);
  }

  lemma QueuedBehind(g: Graph, s: Scan, q: Name)
    requires QueueSorted(g, s) && q in s.queue
    ensures q in s.walks && Less(g, s.here, s.walks[q]) && Joined(g, s, q)
  {
  }

  lemma AtCurrent(g: Graph, s: Scan, q: Name, z: Name)
    requires HandedOn(g, s) && AtNode(g, s)
    requires q in s.walks && q !in s.queue && z in Out(g, q) && z !in s.walks
    ensures s.here != [] && q == s.here[|s.here| - 1] && s.walks[q] == s.here
  {
  }

  // Among undiscovered neighbours the next one stands first.
  lemma SeenFirst(g: Graph, s: Scan, z: Name)
    requires AtNode(g, s) && s.pending != [] && s.pending[0] !in s.walks && z !in s.walks && z != s.pending[0]
    ensures var out := Out(g, s.here[|s.here| - 1]); Position(out, s.pending[0]) < Position(out, z)
  {
    PositionBehind(s.seen, s.pending, s.pending[0]);
    PositionBehind(s.seen, s.pending, z);
  }

  lemma {:induction false} PositionBehind(seen: seq<Name>, rest: seq<Name>, z: Name)
    requires z !in seen
    ensures Position(seen + rest, z) == |seen| + Position(rest, z)
    decreases |seen|
  {
    if seen == [] {
      assert seen + rest == rest;
    } else {
      assert (seen + rest)[1..] == seen[1..] + rest;
      PositionBehind(seen[1..], rest, z);
    }
  }

  // ------------------------------------------------------------------ its steps

  function Starting(c: Name): Scan {
    Scan([], [], [c], map[c := [c]], [])
  }

  lemma StartIsOrdered(g: Graph, c: Name)
    ensures Ordered(g, c, Starting(c))
  {
    forall v | IsWalk(g, v, c, c)
      ensures AtMost(g, [c], v)
    {
      assert |v| == 1 ==> v == [c];
    }
    assert Joined(g, Starting(c), c);
  }

  function Skipped(s: Scan): Scan
    requires s.pending != []
  {
    s.(seen := s.seen + [s.pending[0]], pending := s.pending[1..])
  }

  lemma SkipKeeps(g: Graph, c: Name, s: Scan)
    requires Ordered(g, c, s) && s.pending != [] && s.pending[0] in s.walks
    ensures Ordered(g, c, Skipped(s))
  {
    SkipOrder(g, s);
    SkipAtNode(g, s);
    SkipHandsOn(g, s);
    hide QueueSorted, AtNode, HandedOn, LeastWalk;
  }

  lemma SkipAtNode(g: Graph, s: Scan)
    requires AtNode(g, s) && s.pending != [] && s.pending[0] in s.walks
    ensures AtNode(g, Skipped(s))
  {
    var t := Skipped(s);
    assert t.seen + t.pending == s.seen + s.pending;
  }

  lemma SkipHandsOn(g: Graph, s: Scan)
    requires HandedOn(g, s) && s.pending != [] && s.pending[0] in s.walks
    ensures HandedOn(g, Skipped(s))
  {
    assert s.pending == [s.pending[0]] + Skipped(s).pending;
  }

  lemma SkipOrder(g: Graph, s: Scan)
    requires QueueSorted(g, s) && s.pending != []
    ensures QueueSorted(g, Skipped(s))
  {
    hide Less;
    var t := Skipped(s);
    forall q | q in s.queue
      ensures q in t.walks && Joined(g, t, q)
    {
      assert Joined(g, s, q);
    }
  }

  function Queued(s: Scan): Scan
    requires s.pending != []
  {
    var x := s.pending[0];
    s.(queue := s.queue + [x], walks := s.walks[x := s.here + [x]])
  }

  lemma QueueKeeps(g: Graph, c: Name, s: Scan)
    requires Ordered(g, c, s) && s.pending != [] && s.pending[0] !in s.walks
    ensures Ordered(g, c, Queued(s))
  {
    QueueWalk(g, c, s);
    QueueOrder(g, c, s);
    QueueHandsOn(g, s);
    QueueAtNode(g, s);
    hide WalksLeast, QueueSorted, AtNode, HandedOn;
  }

  lemma QueueAtNode(g: Graph, s: Scan)
    requires AtNode(g, s) && s.pending != [] && s.pending[0] !in s.walks
    ensures AtNode(g, Queued(s))
  {
  }

  lemma QueueHandsOn(g: Graph, s: Scan)
    requires HandedOn(g, s) && s.pending != [] && s.pending[0] !in s.walks
    ensures HandedOn(g, Queued(s))
  {
    var t, x := Queued(s), s.pending[0];
    assert x in t.queue && forall q | q in s.queue :: q in t.queue;
  }

  lemma QueueWalk(g: Graph, c: Name, s: Scan)
    requires Ordered(g, c, s) && s.pending != [] && s.pending[0] !in s.walks
    ensures WalksLeast(g, c, Queued(s))
  {
    hide IsWalk, AtMost, QueueSorted, HandedOn;
    var x, p := s.pending[0], s.here[|s.here| - 1];
    assert LeastWalk(g, c, p, s.here);
    StepWalk(g, s.here, c, p, x);
    forall v | IsWalk(g, v, c, x)
      ensures AtMost(g, s.here + [x], v)
    {
      NextIsLeast(g, c, s, v, x);
    }
  }

  // What is queued comes before what is queued next.
  lemma QueuedBefore(g: Graph, c: Name, s: Scan, q: Name)
    requires Ordered(g, c, s) && s.pending != [] && s.pending[0] !in s.walks && q in s.queue
    ensures q in s.walks && Less(g, s.walks[q], s.here + [s.pending[0]])
  {
    hide Less, HandedOn;
    var x, w := s.pending[0], s.walks[q];
    assert Joined(g, s, q) && LeastWalk(g, c, q, w);
    WalkEnds(g, w, c, q);
    var u := w[..|w| - 1];
    assert w == u + [q];
    if Less(g, u, s.here) {
      LessExtends(g, u, s.here, q, x);
    } else {
      assert q in s.seen;
      PositionWithin(s.seen, s.pending, q);
      PositionBehind(s.seen, s.pending, x);
      LessSibling(g, s.here, q, x);
    }
  }

  lemma {:induction false} PositionWithin(seen: seq<Name>, rest: seq<Name>, q: Name)
    requires q in seen
    ensures Position(seen + rest, q) < |seen|
    decreases |seen|
  {
    if seen[0] != q {
      assert (seen + rest)[1..] == seen[1..] + rest;
      PositionWithin(seen[1..], rest, q);
    }
  }

  lemma QueueOrder(g: Graph, c: Name, s: Scan)
    requires Ordered(g, c, s) && s.pending != [] && s.pending[0] !in s.walks
    ensures QueueSorted(g, Queued(s))
  {
    var t := Queued(s);
    QueuedParts(g, c, s);
    hide Less, Joined, Ordered;
    forall q | q in t.queue
      ensures q in t.walks && Less(g, t.here, t.walks[q]) && Joined(g, t, q)
    {
      QueueJoined(g, s, q);
    }
    forall i, j | 0 <= i < j < |t.queue| && t.queue[i] in t.walks && t.queue[j] in t.walks
      ensures Less(g, t.walks[t.queue[i]], t.walks[t.queue[j]])
    {
      assert t.queue[i] in s.queue;
      QueuedBefore(g, c, s, t.queue[i]);
      assert j < |s.queue| ==> t.queue[j] in s.queue;
    }
  }

  lemma QueueJoined(g: Graph, s: Scan, q: Name)
    requires QueueSorted(g, s) && s.pending != [] && s.pending[0] !in s.walks && (q in s.queue || q == s.pending[0])
    ensures var t := Queued(s); q in t.walks && Less(g, t.here, t.walks[q]) && Joined(g, t, q)
  {
    var x := s.pending[0];
    assert (s.here + [x])[..|s.here|] == s.here;
    if q in s.queue {
      assert Joined(g, s, q);
    }
  }

  lemma QueuedParts(g: Graph, c: Name, s: Scan)
    requires Ordered(g, c, s)
    ensures QueueSorted(g, s)
    ensures forall q | q in s.queue :: q in s.walks
  {
  }

  function Popped(g: Graph, s: Scan): Scan
    requires s.queue != []
  {
    var q := s.queue[0];
    s.(seen := [], pending := Out(g, q), queue := s.queue[1..], here := if q in s.walks then s.walks[q] else [])
  }

  lemma PopKeeps(g: Graph, c: Name, s: Scan)
    requires Ordered(g, c, s) && s.pending == [] && s.queue != []
    ensures Ordered(g, c, Popped(g, s))
  {
    PopOrder(g, c, s);
    PopAtNode(g, c, s);
    PopHandsOn(g, c, s);
    hide QueueSorted, AtNode, HandedOn, LeastWalk;
  }

  lemma PopAtNode(g: Graph, c: Name, s: Scan)
    requires WalksLeast(g, c, s) && QueueSorted(g, s) && s.queue != []
    ensures var t := Popped(g, s); AtNode(g, t) && t.here != [] && t.here[|t.here| - 1] == s.queue[0]
  {
    hide Less, Joined, AtMost;
    var p, t := s.queue[0], Popped(g, s);
    assert p in s.queue && LeastWalk(g, c, p, s.walks[p]);
    WalkEnds(g, s.walks[p], c, p);
    assert t.seen + t.pending == t.pending;
  }

  lemma PopHandsOn(g: Graph, c: Name, s: Scan)
    requires Ordered(g, c, s) && s.pending == [] && s.queue != []
    ensures HandedOn(g, Popped(g, s))
  {
    PopAtNode(g, c, s);
    hide Ordered, AtNode;
    var p, t := s.queue[0], Popped(g, s);
    assert s.queue == [p] + t.queue;
    forall m, y | m in t.walks && m !in t.queue && y in Out(g, m)
      ensures y in t.walks || (t.here != [] && m == t.here[|t.here| - 1] && y in t.pending)
    {
      if m != p {
        HandsOn(g, c, s, m, y);
      }
    }
  }

  lemma HandsOn(g: Graph, c: Name, s: Scan, m: Name, y: Name)
    requires Ordered(g, c, s) && s.pending == []
    requires m in s.walks && m !in s.queue && y in Out(g, m)
    ensures y in s.walks
  {
    hide WalksLeast, QueueSorted, AtNode;
  }

  lemma PopOrder(g: Graph, c: Name, s: Scan)
    requires Ordered(g, c, s) && s.pending == [] && s.queue != []
    ensures QueueSorted(g, Popped(g, s))
  {
    hide Less, LeastWalk;
    var p, t := s.queue[0], Popped(g, s);
    assert p in s.queue;
    forall q | q in t.queue
      ensures q in t.walks && Less(g, t.here, t.walks[q]) && Joined(g, t, q)
    {
      var j :| 1 <= j < |s.queue| && s.queue[j] == q;
      assert q in s.queue && Joined(g, s, q);
      assert Less(g, s.walks[s.queue[0]], s.walks[s.queue[j]]);
      var u := s.walks[q][..|s.walks[q]| - 1];
      LessAtMost(g, u, s.here, t.here);
    }
    forall i, j | 0 <= i < j < |t.queue| && t.queue[i] in t.walks && t.queue[j] in t.walks
      ensures Less(g, t.walks[t.queue[i]], t.walks[t.queue[j]])
    {
      assert t.queue[i] == s.queue[i + 1] && t.queue[j] == s.queue[j + 1];
    }
  }
}
