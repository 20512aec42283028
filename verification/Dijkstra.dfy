/** The grading harness's own router: unit-weight Dijkstra over a plain list, on a
    database that compares sequence numbers as text and invents neighbour lists for
    the nodes that never announced themselves. */
module Dijkstra {
  import opened Wrappers
  import opened Graphs

  function RemoveFirst(q: seq<Name>, x: Name): seq<Name> {
    if q == [] then []
    else if q[0] == x then q[1..]
    else [q[0]] + RemoveFirst(q[1..], x)
  }

  ghost predicate NoDuplicates(q: seq<Name>) {
    forall i, j | 0 <= i < j < |q| :: q[i] != q[j]
  }

  lemma {:induction false} RemoveFirstDrops(q: seq<Name>, x: Name)
    requires NoDuplicates(q) && x in q
    ensures NoDuplicates(RemoveFirst(q, x))
    ensures forall y :: y in RemoveFirst(q, x) <==> y in q && y != x
  {
    if q[0] == x {
      forall y
        ensures y in q[1..] <==> y in q && y != x
      {
        if y in q && y != x {
          var i :| 0 <= i < |q| && q[i] == y;
          assert q[1..][i - 1] == y;
        }
      }
    } else {
      var t := q[1..];
      assert q == [q[0]] + t;
      RemoveFirstDrops(t, x);
      var r := RemoveFirst(t, x);
      assert forall k | 0 <= k < |r| :: r[k] in r && r[k] in t;
      assert q[0] !in t;
    }
  }

  // Every discovered node has a walk of its recorded length, the list holds the
  // discovered nodes that are still to be visited, and their distances are at least
  // those of the visited nodes.
  ghost predicate Discovered(g: Graph, source: Name, dist: map<Name, int>, visited: set<Name>, q: seq<Name>) {
    && source in dist
    && NoDuplicates(q)
    && (forall v :: v in dist <==> v in visited || v in q)
    && (forall v | v in q :: v !in visited)
    && (forall v | v in dist :: 0 <= dist[v] && Within(g, source, v, dist[v]))
    && (forall x, v | x in visited && v in q :: dist[x] <= dist[v])
  }

  // The nodes visited so far have handed their distances on.
  ghost predicate Relaxed(g: Graph, dist: map<Name, int>, visited: set<Name>) {
    forall x, y | x in visited && x in dist && y in Out(g, x) :: y in dist && dist[y] <= dist[x] + 1
  }

  ghost predicate NarrowSpread(dist: map<Name, int>, q: seq<Name>) {
    forall v, w | v in q && w in q && v in dist && w in dist :: dist[v] <= dist[w] + 1
  }

  // The keys of dist are the reachable nodes, and the values their hop counts.
  ghost predicate ShortestFrom(g: Graph, source: Name, dist: map<Name, int>) {
    && (forall v :: v in dist <==> Reaches(g, source, v))
    && (forall v | v in dist :: 0 <= dist[v] && IsDist(g, source, v, dist[v]))
  }

  lemma {:induction false} RelaxedIsShortest(
      g: Graph, source: Name, dist: map<Name, int>, visited: set<Name>, v: Name, k: nat)
    requires source in dist && dist[source] == 0
    requires forall x | x in dist :: x in visited
    requires Relaxed(g, dist, visited)
    requires Within(g, source, v, k)
    ensures v in dist && dist[v] <= k
    decreases k
  {
    if k == 0 {
    } else if Within(g, source, v, k - 1) {
      RelaxedIsShortest(g, source, dist, visited, v, k - 1);
    } else {
      var p :| Within(g, source, p, k - 1) && v in Out(g, p);
      RelaxedIsShortest(g, source, dist, visited, p, k - 1);
    }
  }

  lemma ExhaustedIsShortest(g: Graph, source: Name, dist: map<Name, int>, visited: set<Name>)
    requires Discovered(g, source, dist, visited, [])
    requires dist[source] == 0 && Relaxed(g, dist, visited)
    ensures ShortestFrom(g, source, dist)
  {
    forall v
      ensures v in dist <==> Reaches(g, source, v)
    {
      if k: nat :| Within(g, source, v, k) {
        RelaxedIsShortest(g, source, dist, visited, v, k);
      }
    }
    forall v, k: nat | v in dist && k < dist[v]
      ensures !Within(g, source, v, k)
    {
      if Within(g, source, v, k) {
        RelaxedIsShortest(g, source, dist, visited, v, k);
      }
    }
  }

  // The list element the scan selects: unvisited, and at minimum distance.
  ghost predicate IsClosest(dist: map<Name, int>, visited: set<Name>, q: seq<Name>, u: Name) {
    && u in q && u !in visited && u in dist
    && forall v | v in q && v in dist :: dist[u] <= dist[v]
  }

  // The scan never comes back empty-handed, so the removal that follows cannot fail.
  method Closest(q: seq<Name>, dist: map<Name, int>, visited: set<Name>) returns (u: Option<Name>)
    requires q != []
    requires forall v | v in q :: v in dist && v !in visited
    ensures u.Some? && IsClosest(dist, visited, q, u.value)
  {
    u := None;
    for i := 0 to |q|
      invariant i > 0 ==> u.Some?
      invariant u.Some? ==> u.value in q[..i] && u.value in dist
      invariant u.Some? ==> forall j | 0 <= j < i :: dist[u.value] <= dist[q[j]]
    {
      var v := q[i];
      if v !in visited && (u.None? || dist[v] < dist[u.value]) {
        u := Some(v);
      }
      assert q[..i + 1] == q[..i] + [q[i]];
    }
    assert u.value in q;
  }

  method Dijkstra(g: Graph, source: Name) returns (dist: map<Name, int>)
    ensures ShortestFrom(g, source, dist)
  {
    dist := map[source := 0];
    var visited: set<Name> := {};
    var q := [source];
    assert Within(g, source, source, 0);
    while q != []
      invariant Discovered(g, source, dist, visited, q)
      invariant dist[source] == 0
      invariant Relaxed(g, dist, visited)
      invariant NarrowSpread(dist, q)
      invariant visited <= Targets(g) + {source} && forall v | v in q :: v in Targets(g) + {source}
      decreases Targets(g) + {source} - visited
    {
      var pick := Closest(q, dist, visited);
      var u := pick.value;
      RemoveFirstDrops(q, u);
      ghost var visited0 := visited;
      q := RemoveFirst(q, u);
      visited := visited + {u};
      dist, q := RelaxNeighbours(g, source, u, dist, visited, q);
      assert u !in visited0 && u in Targets(g) + {source};
    }
    ExhaustedIsShortest(g, source, dist, visited);
  }

  // The state of the neighbour loop of u.
  ghost predicate Relaxing(g: Graph, source: Name, u: Name, dist: map<Name, int>, visited: set<Name>, q: seq<Name>)
  {
    && Discovered(g, source, dist, visited, q)
    && u in visited
    && (forall v | v in q :: dist[u] <= dist[v] <= dist[u] + 1)
    && (forall x | x in visited :: dist[x] <= dist[u])
  }

  lemma DiscoverKeepsRelaxing(g: Graph, source: Name, u: Name, dist: map<Name, int>, visited: set<Name>,
                              q: seq<Name>, v: Name)
    requires Relaxing(g, source, u, dist, visited, q)
    requires v in Out(g, u) && v !in dist
    ensures Relaxing(g, source, u, dist[v := dist[u] + 1], visited, q + [v])
  {
    var dist' := dist[v := dist[u] + 1];
    assert Within(g, source, v, dist[u] + 1);
    forall x | x in dist'
      ensures 0 <= dist'[x] && Within(g, source, x, dist'[x])
    {
    }
  }

  ghost predicate Extends(dist: map<Name, int>, dist': map<Name, int>) {
    forall v | v in dist :: v in dist' && dist'[v] == dist[v]
  }

  // One neighbour of u. The improvement test never fires for a node already discovered.
  method RelaxOne(g: Graph, source: Name, u: Name, v: Name, dist0: map<Name, int>, visited: set<Name>, q0: seq<Name>)
    returns (dist: map<Name, int>, q: seq<Name>)
    requires Relaxing(g, source, u, dist0, visited, q0) && v in Out(g, u)
    ensures Relaxing(g, source, u, dist, visited, q)
    ensures v in dist && dist[v] <= dist0[u] + 1
    ensures Extends(dist0, dist)
    ensures q == q0 || q == q0 + [v]
  {
    dist, q := dist0, q0;
    var alt := dist[u] + 1;
    if v !in visited && (v !in dist || alt < dist[v]) {
      assert v !in dist;
      DiscoverKeepsRelaxing(g, source, u, dist, visited, q, v);
      dist := dist[v := alt];
      q := q + [v];
    }
  }

  lemma HandedOn(g: Graph, u: Name, dist0: map<Name, int>, dist: map<Name, int>, visited: set<Name>)
    requires Relaxed(g, dist0, visited - {u}) && Extends(dist0, dist)
    requires forall x | x in visited :: x in dist0
    requires u in dist && forall y | y in Out(g, u) :: y in dist && dist[y] <= dist[u] + 1
    ensures Relaxed(g, dist, visited)
  {
  }

  method RelaxNeighbours(g: Graph, source: Name, u: Name, dist0: map<Name, int>, visited: set<Name>, q0: seq<Name>)
    returns (dist: map<Name, int>, q: seq<Name>)
    requires Relaxing(g, source, u, dist0, visited, q0)
    requires Relaxed(g, dist0, visited - {u})
    ensures Discovered(g, source, dist, visited, q)
    ensures Relaxed(g, dist, visited) && NarrowSpread(dist, q)
    ensures Extends(dist0, dist)
    ensures forall v | v in q :: v in q0 || v in Out(g, u)
  {
    dist, q := dist0, q0;
    var neighbours := Out(g, u);
    for i := 0 to |neighbours|
      invariant Relaxing(g, source, u, dist, visited, q)
      invariant Extends(dist0, dist)
      invariant forall j | 0 <= j < i :: neighbours[j] in dist && dist[neighbours[j]] <= dist[u] + 1
      invariant forall v | v in q :: v in q0 || v in Out(g, u)
    {
      dist, q := RelaxOne(g, source, u, neighbours[i], dist, visited, q);
    }
    HandedOn(g, u, dist0, dist, visited);
  }
}
