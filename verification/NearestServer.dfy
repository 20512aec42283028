/** The breadth-first search of calc_sp on names: one function that takes exactly the
    micro-steps of its two loops, and the proof that stopping at the first server seen
    is optimal. */
module NearestServer {
  import opened Wrappers
  import opened Graphs
  import opened WalkOrder

  // pending is what is left of the popped node's neighbour list. The cursor does not
  // advance when a neighbour is queued, so that neighbour is looked at once more.
  function Visit(g: Graph, servs: set<Name>, pending: seq<Name>, queue: seq<Name>, marked: set<Name>): Option<Name>
    requires forall x | x in pending :: x in Targets(g)
    decreases |Targets(g) - marked|, |queue|, |pending|
  {
    if pending != [] then
      var x := pending[0];
      if x in marked then
        Visit(g, servs, pending[1..], queue, marked)
      else if x in servs then
        Some(x)
      else
        assert Targets(g) - (marked + {x}) < Targets(g) - marked by { assert x in pending; }
        SmallerSet(Targets(g) - (marked + {x}), Targets(g) - marked);
        Visit(g, servs, pending, queue + [x], marked + {x})
    else if queue != [] then
      Visit(g, servs, Out(g, queue[0]), queue[1..], marked)
    else
      None
  }

  // The three ways the neighbour loop can go on at index i of the list out.
  lemma VisitStep(g: Graph, servs: set<Name>, out: seq<Name>, i: nat, queue: seq<Name>, marked: set<Name>)
    requires i < |out| && forall x | x in out :: x in Targets(g)
    ensures forall x | x in out[i..] :: x in Targets(g)
    ensures var here := Visit(g, servs, out[i..], queue, marked);
            if out[i] in marked then here == Visit(g, servs, out[i + 1..], queue, marked)
            else if out[i] in servs then here == Some(out[i])
            else
              && here == Visit(g, servs, out[i..], queue + [out[i]], marked + {out[i]})
              && |Targets(g) - (marked + {out[i]})| < |Targets(g) - marked|
  {
    var rest := out[i..];
    assert rest[0] == out[i] && rest[1..] == out[i + 1..];
    assert out[i] in out;
    if out[i] !in marked {
      SmallerSet(Targets(g) - (marked + {out[i]}), Targets(g) - marked);
    }
  }

  lemma VisitPops(g: Graph, servs: set<Name>, queue: seq<Name>, marked: set<Name>)
    requires queue != []
    ensures forall x | x in Out(g, queue[0]) :: x in Targets(g)
    ensures Visit(g, servs, [], queue, marked) == Visit(g, servs, Out(g, queue[0]), queue[1..], marked)
  {
  }

  lemma VisitEnds(g: Graph, servs: set<Name>, marked: set<Name>)
    ensures Visit(g, servs, [], [], marked) == None
  {
  }

  // The server that calc_sp stores for client c; None is its failing assertion.
  function Choose(g: Graph, servs: set<Name>, c: Name): Option<Name> {
    Visit(g, servs, [], [c], {c})
  }

  // The search front: the first k queued nodes are within d edges of c, the others
  // are exactly one further; everything within d edges is marked; what is marked and
  // no longer queued has handed on all its neighbours.
  ghost predicate Front(g: Graph, servs: set<Name>, c: Name, pending: seq<Name>, queue: seq<Name>,
                        marked: set<Name>, d: nat, k: nat)
  {
    && k <= |queue|
    && marked * servs <= {c}
    && (forall i | 0 <= i < k :: Within(g, c, queue[i], d))
    && (forall i | k <= i < |queue| :: Within(g, c, queue[i], d + 1) && !Within(g, c, queue[i], d))
    && (forall x | x in pending :: Within(g, c, x, d + 1))
    && (forall n | Within(g, c, n, d) :: n in marked)
    && (forall m, x | m in marked && m !in queue && x in Out(g, m) :: x in marked || x in pending)
  }

  lemma FrontQueues(g: Graph, servs: set<Name>, c: Name, pending: seq<Name>, queue: seq<Name>,
                    marked: set<Name>, d: nat, k: nat)
    requires Front(g, servs, c, pending, queue, marked, d, k)
    requires pending != [] && pending[0] !in marked && pending[0] !in servs
    ensures Front(g, servs, c, pending, queue + [pending[0]], marked + {pending[0]}, d, k)
  {
    assert pending[0] in pending;
  }

  // With the first level used up, everything within one more edge has been marked.
  lemma FrontAdvances(g: Graph, servs: set<Name>, c: Name, queue: seq<Name>, marked: set<Name>, d: nat)
    requires Front(g, servs, c, [], queue, marked, d, 0)
    ensures Front(g, servs, c, [], queue, marked, d + 1, |queue|)
  {
    forall n | Within(g, c, n, d + 1)
      ensures n in marked
    {
      if !Within(g, c, n, d) {
        var p :| Within(g, c, p, d) && n in Out(g, p);
        assert p in marked && p !in queue;
      }
    }
  }

  lemma FrontPops(g: Graph, servs: set<Name>, c: Name, queue: seq<Name>, marked: set<Name>, d: nat, k: nat)
    requires Front(g, servs, c, [], queue, marked, d, k) && 0 < k
    ensures Front(g, servs, c, Out(g, queue[0]), queue[1..], marked, d, k - 1)
  {
    forall m, x | m in marked && m !in queue[1..] && x in Out(g, m)
      ensures x in marked || x in Out(g, queue[0])
    {
      if m in queue {
        assert m == queue[0];
      }
    }
  }

  lemma FrontMovesOn(g: Graph, servs: set<Name>, c: Name, queue: seq<Name>, marked: set<Name>, d: nat, k: nat)
    returns (d': nat, k': nat)
    requires Front(g, servs, c, [], queue, marked, d, k) && queue != []
    ensures Front(g, servs, c, Out(g, queue[0]), queue[1..], marked, d', k')
  {
    if k > 0 {
      d', k' := d, k - 1;
      FrontPops(g, servs, c, queue, marked, d, k);
    } else {
      d', k' := d + 1, |queue| - 1;
      FrontAdvances(g, servs, c, queue, marked, d);
      FrontPops(g, servs, c, queue, marked, d + 1, |queue|);
    }
  }

  lemma FrontSkips(g: Graph, servs: set<Name>, c: Name, pending: seq<Name>, queue: seq<Name>,
                   marked: set<Name>, d: nat, k: nat)
    requires Front(g, servs, c, pending, queue, marked, d, k)
    requires pending != [] && pending[0] in marked
    ensures Front(g, servs, c, pending[1..], queue, marked, d, k)
  {
    forall x | x in pending[1..]
      ensures x in pending
    {
    }
    forall x | x in pending && x !in pending[1..]
      ensures x in marked
    {
      assert x == pending[0];
    }
  }

  // Nothing is left to visit: the marked nodes are all that c reaches.
  lemma FrontExhausted(g: Graph, servs: set<Name>, c: Name, marked: set<Name>, d: nat, t: Name)
    requires Front(g, servs, c, [], [], marked, d, 0)
    requires t in servs - {c}
    ensures !Reaches(g, c, t)
  {
    assert Within(g, c, c, 0);
    WithinMonotone(g, c, c, 0, d);
    forall j: nat | Within(g, c, t, j)
      ensures false
    {
      ClosedSetHoldsReachable(g, c, t, j, marked);
    }
  }

  lemma FrontFound(g: Graph, servs: set<Name>, c: Name, pending: seq<Name>, queue: seq<Name>,
                   marked: set<Name>, d: nat, k: nat)
    requires Front(g, servs, c, pending, queue, marked, d, k)
    requires pending != [] && pending[0] !in marked && pending[0] in servs
    ensures Nearest(g, servs - {c}, c, pending[0])
  {
    assert Within(g, c, c, 0);
    WithinMonotone(g, c, c, 0, d);
    assert pending[0] in pending;
    forall t, j: nat | t in servs - {c} && j < d + 1
      ensures !Within(g, c, t, j)
    {
      if Within(g, c, t, j) {
        WithinMonotone(g, c, t, j, d);
      }
    }
    assert FartherThan(g, servs - {c}, c, d + 1);
  }

  // What a search outcome means for client c.
  ghost predicate Correct(g: Graph, servs: set<Name>, c: Name, r: Option<Name>) {
    match r
    case Some(s) => Nearest(g, servs - {c}, c, s)
    case None => forall t | t in servs - {c} :: !Reaches(g, c, t)
  }

  lemma {:induction false} VisitCorrect(g: Graph, servs: set<Name>, c: Name, pending: seq<Name>, queue: seq<Name>,
                                        marked: set<Name>, d: nat, k: nat)
    requires forall x | x in pending :: x in Targets(g)
    requires Front(g, servs, c, pending, queue, marked, d, k)
    ensures Correct(g, servs, c, Visit(g, servs, pending, queue, marked))
    decreases |Targets(g) - marked|, |queue|, |pending|
  {
    if pending != [] {
      var x := pending[0];
      if x in marked {
        FrontSkips(g, servs, c, pending, queue, marked, d, k);
        VisitCorrect(g, servs, c, pending[1..], queue, marked, d, k);
      } else if x in servs {
        FrontFound(g, servs, c, pending, queue, marked, d, k);
      } else {
        assert x in pending;
        SmallerSet(Targets(g) - (marked + {x}), Targets(g) - marked);
        FrontQueues(g, servs, c, pending, queue, marked, d, k);
        VisitCorrect(g, servs, c, pending, queue + [x], marked + {x}, d, k);
      }
    } else if queue != [] {
      var d', k' := FrontMovesOn(g, servs, c, queue, marked, d, k);
      VisitCorrect(g, servs, c, Out(g, queue[0]), queue[1..], marked, d', k');
    } else {
      forall t | t in servs - {c}
        ensures !Reaches(g, c, t)
      {
        FrontExhausted(g, servs, c, marked, d, t);
      }
    }
  }

  // Early exit is optimal, for every graph, server set and client: the stored server is
  // a nearest one, and the search fails iff no server other than c can be reached.
  lemma ChooseIsNearest(g: Graph, servs: set<Name>, c: Name)
    ensures Correct(g, servs, c, Choose(g, servs, c))
  {
    forall n | Within(g, c, n, 0)
      ensures n == c
    {
    }
    VisitCorrect(g, servs, c, [], [c], {c}, 0, 1);
  }

  lemma ChooseFailsIffUnreachable(g: Graph, servs: set<Name>, c: Name)
    ensures Choose(g, servs, c).None? <==> forall t | t in servs - {c} :: !Reaches(g, c, t)
  {
    ChooseIsNearest(g, servs, c);
  }

  // The search looks at neighbour lists only, not at which silent nodes are stored.
  lemma {:induction false} VisitDependsOnOut(
      g: Graph, h: Graph, servs: set<Name>, pending: seq<Name>, queue: seq<Name>, marked: set<Name>)
    requires forall n :: Out(g, n) == Out(h, n)
    requires forall x | x in pending :: x in Targets(g) && x in Targets(h)
    ensures Visit(g, servs, pending, queue, marked) == Visit(h, servs, pending, queue, marked)
    decreases |Targets(g) - marked|, |queue|, |pending|
  {
    if pending != [] {
      var x := pending[0];
      if x in marked {
        VisitDependsOnOut(g, h, servs, pending[1..], queue, marked);
      } else if x !in servs {
        assert x in pending;
        SmallerSet(Targets(g) - (marked + {x}), Targets(g) - marked);
        VisitDependsOnOut(g, h, servs, pending, queue + [x], marked + {x});
      }
    } else if queue != [] {
      var next := Out(g, queue[0]);
      assert next == Out(h, queue[0]);
      VisitDependsOnOut(g, h, servs, next, queue[1..], marked);
    }
  }

  // ------------------------------------------------------------------ which nearest server

  // The stored server is where the least walk to any server other than c ends.
  ghost predicate EndsLeastWalk(g: Graph, servs: set<Name>, c: Name, r: Option<Name>) {
    r.Some? ==> exists w :: LeastWalkTo(g, servs - {c}, c, r.value, w)
  }

  lemma {:induction false} VisitLeast(g: Graph, servs: set<Name>, c: Name, s: Scan)
    requires Ordered(g, c, s) && s.walks.Keys * servs <= {c}
    requires forall x | x in s.pending :: x in Targets(g)
    ensures EndsLeastWalk(g, servs, c, Visit(g, servs, s.pending, s.queue, s.walks.Keys))
    decreases |Targets(g) - s.walks.Keys|, |s.queue|, |s.pending|
  {
    hide Ordered, Targets, EndsLeastWalk;
    if s.pending != [] {
      var x := s.pending[0];
      if x in s.walks {
        SkipKeeps(g, c, s);
        VisitLeast(g, servs, c, Skipped(s));
      } else if x in servs {
        FoundLeast(g, servs, c, s);
      } else {
        assert x in s.pending;
        QueueKeeps(g, c, s);
        assert Queued(s).walks.Keys == s.walks.Keys + {x};
        SmallerSet(Targets(g) - (s.walks.Keys + {x}), Targets(g) - s.walks.Keys);
        VisitLeast(g, servs, c, Queued(s));
      }
    } else if s.queue != [] {
      PopKeeps(g, c, s);
      VisitPops(g, servs, s.queue, s.walks.Keys);
      VisitLeast(g, servs, c, Popped(g, s));
    } else {
      NoneEnds(g, servs, c);
    }
  }

  lemma NoneEnds(g: Graph, servs: set<Name>, c: Name)
    ensures EndsLeastWalk(g, servs, c, None)
  {
  }

  lemma FoundLeast(g: Graph, servs: set<Name>, c: Name, s: Scan)
    requires Ordered(g, c, s) && s.walks.Keys * servs <= {c}
    requires s.pending != [] && s.pending[0] !in s.walks && s.pending[0] in servs
    ensures EndsLeastWalk(g, servs, c, Some(s.pending[0]))
  {
    hide IsWalk, AtMost, QueueSorted, HandedOn;
    var x, p := s.pending[0], s.here[|s.here| - 1];
    assert c in s.walks && LeastWalk(g, c, p, s.here);
    StepWalk(g, s.here, c, p, x);
    forall t, v | t in servs - {c} && IsWalk(g, v, c, t)
      ensures AtMost(g, s.here + [x], v)
    {
      NextIsLeast(g, c, s, v, t);
    }
    assert LeastWalkTo(g, servs - {c}, c, x, s.here + [x]);
  }

  // Among equally near servers the positions in the neighbour lists decide: for every
  // graph, server set and client, the stored server ends the least of all walks to a
  // server other than c.
  lemma ChooseEndsLeastWalk(g: Graph, servs: set<Name>, c: Name)
    ensures EndsLeastWalk(g, servs, c, Choose(g, servs, c))
  {
    StartIsOrdered(g, c);
    assert Starting(c).walks.Keys == {c};
    VisitLeast(g, servs, c, Starting(c));
  }

  // That determines it.
  lemma ChooseIsDetermined(g: Graph, servs: set<Name>, c: Name, s: Name, w: seq<Name>)
    requires LeastWalkTo(g, servs - {c}, c, s, w)
    ensures Choose(g, servs, c) == Some(s)
  {
    hide Choose, Less;
    ChooseEndsLeastWalk(g, servs, c);
    WalkGivesWithin(g, c, s, w);
    ChooseFailsIffUnreachable(g, servs, c);
    var w' :| LeastWalkTo(g, servs - {c}, c, Choose(g, servs, c).value, w');
    LeastIsUnique(g, servs - {c}, c, s, w, Choose(g, servs, c).value, w');
  }

  // A client that lists servers itself gets the first one it lists.
  lemma FirstListedServer(g: Graph, servs: set<Name>, c: Name, i: nat)
    requires i < |Out(g, c)| && Out(g, c)[i] in servs - {c}
    requires forall j | 0 <= j < i :: Out(g, c)[j] !in servs - {c}
    ensures Choose(g, servs, c) == Some(Out(g, c)[i])
  {
    var out := Out(g, c);
    var s, w := out[i], [c, out[i]];
    assert IsHop(g, w, 0);
    assert s !in out[..i];
    FirstPosition(out, i);
    forall t, v | t in servs - {c} && IsWalk(g, v, c, t)
      ensures AtMost(g, w, v)
    {
      assert |v| > 1 && IsHop(g, v, 0);
      if |v| == 2 && t != s {
        assert v == [c, t];
        LaterPosition(out, i, servs - {c}, t);
        LessSibling(g, [c], s, t);
        assert [c] + [s] == w && [c] + [t] == v;
      } else if |v| == 2 {
        assert v == w;
      }
    }
    assert LeastWalkTo(g, servs - {c}, c, s, w);
    ChooseIsDetermined(g, servs, c, s, w);
  }

  lemma {:induction false} FirstPosition(names: seq<Name>, i: nat)
    requires i < |names| && names[i] !in names[..i]
    ensures Position(names, names[i]) == i
    decreases |names|
  {
    if i > 0 {
      assert names[0] in names[..i];
      assert names[1..][i - 1] == names[i];
      forall x | x in names[1..][..i - 1]
        ensures x in names[..i]
      {
        var k :| 0 <= k < i - 1 && names[1..][..i - 1][k] == x;
        assert names[..i][k + 1] == x;
      }
      FirstPosition(names[1..], i - 1);
    }
  }

  lemma LaterPosition(names: seq<Name>, i: nat, goals: set<Name>, t: Name)
    requires i < |names| && names[i] in goals && t in goals && t != names[i]
    requires forall j | 0 <= j < i :: names[j] !in goals
    ensures i < Position(names, t)
  {
  }
}
