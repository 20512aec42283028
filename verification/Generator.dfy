/** The announcement generator: reads a link list and prints, round by round, the
    announcements that reach a sink node, in breadth-first order and with losses. */
module Generator {
  import opened Graphs
  import opened LsaDatabase
  import opened WalkOrder

  // ------------------------------------------------------------------ reading links

  function WithNode(links: Graph, n: Name): (r: Graph)
    ensures n in r
  {
    if n in links then links else links[n := []]
  }

  function AddLink(links: Graph, link: (Name, Name)): Graph {
    var l := WithNode(WithNode(links, link.0), link.1);
    var l' := l[link.0 := l[link.0] + [link.1]];
    l'[link.1 := l'[link.1] + [link.0]]
  }

  function Links(lines: seq<(Name, Name)>): Graph {
    if lines == [] then map[]
    else AddLink(Links(lines[..|lines| - 1]), lines[|lines| - 1])
  }

  method ReadLinks(lines: seq<(Name, Name)>) returns (links: Graph)
    ensures links == Links(lines)
  {
    links := map[];
    for i := 0 to |lines|
      invariant links == Links(lines[..i])
    {
      var nodes := lines[i];
      assert lines[..i + 1][..i] == lines[..i];
      if nodes.0 !in links {
        links := links[nodes.0 := []];
      }
      if nodes.1 !in links {
        links := links[nodes.1 := []];
      }
      links := links[nodes.0 := links[nodes.0] + [nodes.1]];
      links := links[nodes.1 := links[nodes.1] + [nodes.0]];
    }
    assert lines[..|lines|] == lines;
  }

  // b occurs in a's list once for every line that links the two, in either direction;
  // a self link therefore counts twice.
  lemma {:induction false} LinksMultiplicity(lines: seq<(Name, Name)>, a: Name, b: Name)
    ensures multiset(Out(Links(lines), a))[b] == multiset(lines)[(a, b)] + multiset(lines)[(b, a)]
  {
    if lines != [] {
      var p, last := lines[..|lines| - 1], lines[|lines| - 1];
      LinksMultiplicity(p, a, b);
      AddLinkMultiplicity(Links(p), last, a, b);
      hide AddLink, Out;
      assert lines == p + [last];
      LineMultiplicity(p, last, (a, b));
      LineMultiplicity(p, last, (b, a));
    }
  }

  lemma LineMultiplicity(p: seq<(Name, Name)>, last: (Name, Name), x: (Name, Name))
    ensures multiset(p + [last])[x] == multiset(p)[x] + if x == last then 1 else 0
  {
  }

  lemma AddLinkMultiplicity(links: Graph, link: (Name, Name), a: Name, b: Name)
    ensures multiset(Out(AddLink(links, link), a))[b] == multiset(Out(links, a))[b]
              + (if link == (a, b) then 1 else 0) + (if link == (b, a) then 1 else 0)
  {
    var l := WithNode(WithNode(links, link.0), link.1);
    assert Out(l, a) == Out(links, a);
    ListedMultiplicity(l, link.0, link.1, a, b);
    ListedMultiplicity(l[link.0 := l[link.0] + [link.1]], link.1, link.0, a, b);
  }

  lemma ListedMultiplicity(l: Graph, k: Name, x: Name, a: Name, b: Name)
    requires k in l
    ensures multiset(Out(l[k := l[k] + [x]], a))[b] == multiset(Out(l, a))[b] + if k == a && x == b then 1 else 0
  {
    SnocMultiplicity(l[k], x, b);
  }

  lemma SnocMultiplicity(s: seq<Name>, x: Name, b: Name)
    ensures multiset(s + [x])[b] == multiset(s)[b] + if x == b then 1 else 0
  {
  }

  lemma LinksSymmetric(lines: seq<(Name, Name)>)
    ensures Symmetric(Links(lines))
  {
    forall n, x | x in Out(Links(lines), n)
      ensures n in Out(Links(lines), x)
    {
      LinksMultiplicity(lines, n, x);
      LinksMultiplicity(lines, x, n);
      assert x in multiset(Out(Links(lines), n));
      assert n in multiset(Out(Links(lines), x));
    }
  }

  // Every listed node has a list of its own, so the generator never misses a key.
  lemma {:induction false} LinksClosed(lines: seq<(Name, Name)>)
    ensures forall n | n in Targets(Links(lines)) :: n in Links(lines)
  {
    if lines != [] {
      LinksClosed(lines[..|lines| - 1]);
    }
  }

  // ------------------------------------------------------------------ one round

  // Appends the neighbours that are neither visited nor waiting.
  function PushNew(neighbours: seq<Name>, visited: set<Name>, waiting: seq<Name>): seq<Name> {
    if neighbours == [] then waiting
    else
      var n := neighbours[|neighbours| - 1];
      var w := PushNew(neighbours[..|neighbours| - 1], visited, waiting);
      if n in visited || n in w then w else w + [n]
  }

  lemma {:induction false} PushNewGrows(neighbours: seq<Name>, visited: set<Name>, waiting: seq<Name>)
    ensures Pushed(neighbours, visited, waiting, PushNew(neighbours, visited, waiting))
  {
    if neighbours != [] {
      var p, n := neighbours[..|neighbours| - 1], neighbours[|neighbours| - 1];
      PushNewGrows(p, visited, waiting);
      hide Pushed;
      PushedOne(neighbours, visited, waiting, PushNew(p, visited, waiting));
    }
  }

  // What PushNew has appended after looking at some neighbours.
  ghost predicate Pushed(neighbours: seq<Name>, visited: set<Name>, waiting: seq<Name>, w: seq<Name>) {
    && waiting <= w
    && (forall n :: n in w <==> n in waiting || (n in neighbours && n !in visited))
    && (forall n :: multiset(w)[n] == if n in waiting then multiset(waiting)[n] else if n in w then 1 else 0)
    && (forall i | |waiting| <= i < |w| :: w[i] !in waiting && w[i] !in visited)
  }

  lemma PushedOne(neighbours: seq<Name>, visited: set<Name>, waiting: seq<Name>, w: seq<Name>)
    requires neighbours != [] && Pushed(neighbours[..|neighbours| - 1], visited, waiting, w)
    ensures var n := neighbours[|neighbours| - 1];
            Pushed(neighbours, visited, waiting, if n !in visited && n !in w then w + [n] else w)
  {
    var n := neighbours[|neighbours| - 1];
    assert neighbours == neighbours[..|neighbours| - 1] + [n];
    forall m
      ensures multiset(w + [n])[m] == multiset(w)[m] + if m == n then 1 else 0
    {
      SnocMultiplicity(w, n, m);
    }
  }

  // What is neither visited nor waiting can only shrink.
  ghost function Unknown(links: Graph, toVisit: seq<Name>, visited: set<Name>): set<Name> {
    Targets(links) - visited - Elements(toVisit)
  }

  function Next(links: Graph, toVisit: seq<Name>, visited: set<Name>): seq<Name>
    requires toVisit != []
  {
    PushNew(Out(links, toVisit[0]), visited + {toVisit[0]}, toVisit[1..])
  }

  lemma NextShrinks(links: Graph, toVisit: seq<Name>, visited: set<Name>)
    requires toVisit != []
    ensures var next, visited' := Next(links, toVisit, visited), visited + {toVisit[0]};
            || |Unknown(links, next, visited')| < |Unknown(links, toVisit, visited)|
            || (Unknown(links, next, visited') == Unknown(links, toVisit, visited) && |next| < |toVisit|)
  {
    hide Pushed, PushNew, Targets;
    var cur, rest := toVisit[0], toVisit[1..];
    var next, visited' := Next(links, toVisit, visited), visited + {toVisit[0]};
    PushNewGrows(Out(links, cur), visited', rest);
    PushedNames(Out(links, cur), visited', rest, next);
    assert toVisit == [cur] + rest;
    var before, after := Unknown(links, toVisit, visited), Unknown(links, next, visited');
    assert after <= before;
    if next != rest {
      var n := next[|rest|];
      ListedIsTarget(links, cur, n);
      assert n in before && n !in after;
      SmallerSet(after, before);
    } else {
      assert before <= after;
    }
  }

  lemma PushedNames(neighbours: seq<Name>, visited: set<Name>, waiting: seq<Name>, w: seq<Name>)
    requires Pushed(neighbours, visited, waiting, w)
    ensures |waiting| <= |w| && (w == waiting || |waiting| < |w|)
    ensures forall n | n in waiting :: n in w
    ensures |waiting| < |w| ==> w[|waiting|] in neighbours && w[|waiting|] !in visited && w[|waiting|] !in waiting
  {
    if |waiting| < |w| {
      assert w[|waiting|] in w;
    }
  }

  lemma ListedIsTarget(links: Graph, n: Name, x: Name)
    requires x in Out(links, n)
    ensures x in Targets(links)
  {
  }

  // The nodes in the order in which a round announces them.
  function Order(links: Graph, toVisit: seq<Name>, visited: set<Name>): seq<Name>
    decreases |Unknown(links, toVisit, visited)|, |toVisit|
  {
    if toVisit == [] then []
    else
      NextShrinks(links, toVisit, visited);
      [toVisit[0]] + Order(links, Next(links, toVisit, visited), visited + {toVisit[0]})
  }

  function RoundOrder(links: Graph, sink: Name): seq<Name> {
    Order(links, Out(links, sink), {sink})
  }

  // The announcements of a round that are not lost; lost(i) tells the fate of the i-th.
  function Kept(links: Graph, order: seq<Name>, round: int, lost: nat -> bool): seq<Lsa> {
    if order == [] then []
    else
      var i := |order| - 1;
      Kept(links, order[..i], round, lost)
        + if lost(i) then [] else [Lsa(order[i], round, Out(links, order[i]))]
  }

  // The inner loop over the neighbours of the current node.
  method PushAll(links: Graph, neighbours: seq<Name>, visited: set<Name>, waiting: seq<Name>)
    returns (toVisit: seq<Name>)
    requires forall n | n in neighbours || n in waiting :: n in links
    ensures toVisit == PushNew(neighbours, visited, waiting)
    ensures forall n | n in toVisit :: n in links
  {
    toVisit := waiting;
    for i := 0 to |neighbours|
      invariant toVisit == PushNew(neighbours[..i], visited, waiting)
      invariant forall n | n in toVisit :: n in links
    {
      assert neighbours[..i + 1][..i] == neighbours[..i];
      if neighbours[i] !in visited && neighbours[i] !in toVisit {
        toVisit := toVisit + [neighbours[i]];
      }
    }
    assert neighbours[..|neighbours|] == neighbours;
  }

  lemma KeptStep(links: Graph, printed: seq<Name>, n: Name, round: int, lost: nat -> bool)
    ensures Kept(links, printed + [n], round, lost)
         == Kept(links, printed, round, lost) + if lost(|printed|) then [] else [Lsa(n, round, Out(links, n))]
  {
    assert (printed + [n])[..|printed|] == printed;
  }

  method GenerateLsas(links: Graph, sink: Name, round: int, lost: nat -> bool) returns (lsas: seq<Lsa>)
    requires sink in links && forall n | n in Targets(links) :: n in links
    ensures lsas == Kept(links, RoundOrder(links, sink), round, lost)
  {
    hide Order, PushNew, Unknown;
    var visited := {sink};
    var toVisit := links[sink];
    lsas := [];
    ghost var printed: seq<Name> := [];
    var draws := 0;
    while |toVisit| > 0
      invariant draws == |printed|
      invariant RoundOrder(links, sink) == printed + Order(links, toVisit, visited)
      invariant lsas == Kept(links, printed, round, lost)
      invariant forall n | n in toVisit :: n in links
      decreases |Unknown(links, toVisit, visited)|, |toVisit|
    {
      NextShrinks(links, toVisit, visited);
      OrderStep(links, printed, toVisit, visited);
      var current := toVisit[0];
      toVisit := PushAll(links, links[current], visited + {current}, toVisit[1..]);
      visited := visited + {current};
      KeptStep(links, printed, current, round, lost);
      if !lost(draws) {
        lsas := lsas + [Lsa(current, round, links[current])];
      }
      printed := printed + [current];
      draws := draws + 1;
    }
    OrderEnds(links, printed, visited);
  }

  lemma OrderEnds(links: Graph, printed: seq<Name>, visited: set<Name>)
    ensures printed + Order(links, [], visited) == printed
  {
  }

  lemma OrderStep(links: Graph, printed: seq<Name>, toVisit: seq<Name>, visited: set<Name>)
    requires toVisit != []
    ensures printed + Order(links, toVisit, visited)
         == (printed + [toVisit[0]]) + Order(links, Next(links, toVisit, visited), visited + {toVisit[0]})
  {
  }

  // ------------------------------------------------------------------ coverage

  // Every node known so far is reachable, and what was visited has handed on its neighbours.
  ghost predicate Sweep(links: Graph, sink: Name, toVisit: seq<Name>, visited: set<Name>) {
    && sink in visited
    && (forall n | n in visited || n in toVisit :: Reaches(links, sink, n))
    && (forall m, x | m in visited && x in Out(links, m) :: x in visited || x in toVisit)
  }

  lemma ReachesNext(links: Graph, src: Name, m: Name, x: Name)
    requires Reaches(links, src, m) && x in Out(links, m)
    ensures Reaches(links, src, x)
  {
    var k: nat :| Within(links, src, m, k);
    assert Within(links, src, x, k + 1);
  }

  // What follows in the waiting list: its tail, then the current node's new neighbours.
  lemma NextShape(links: Graph, toVisit: seq<Name>, visited: set<Name>)
    requires toVisit != []
    ensures toVisit[1..] <= Next(links, toVisit, visited)
    ensures forall i | |toVisit| - 1 <= i < |Next(links, toVisit, visited)| ::
              var n := Next(links, toVisit, visited)[i];
              n in Out(links, toVisit[0]) && n !in visited && n !in toVisit
  {
    var cur, rest := toVisit[0], toVisit[1..];
    PushNewGrows(Out(links, cur), visited + {cur}, rest);
    assert toVisit == [cur] + rest;
    var next := Next(links, toVisit, visited);
    assert forall i | |rest| <= i < |next| :: next[i] in next;
  }

  lemma NextHolds(links: Graph, toVisit: seq<Name>, visited: set<Name>, n: Name)
    requires toVisit != []
    ensures n in toVisit ==> n == toVisit[0] || n in Next(links, toVisit, visited)
    ensures n in Out(links, toVisit[0]) ==> n in visited || n == toVisit[0] || n in Next(links, toVisit, visited)
    ensures n in Next(links, toVisit, visited) ==> n in toVisit || n in Out(links, toVisit[0])
  {
    var cur, rest := toVisit[0], toVisit[1..];
    PushNewGrows(Out(links, cur), visited + {cur}, rest);
    assert toVisit == [cur] + rest;
  }

  lemma SweepStep(links: Graph, sink: Name, toVisit: seq<Name>, visited: set<Name>)
    requires Sweep(links, sink, toVisit, visited) && toVisit != []
    ensures Sweep(links, sink, Next(links, toVisit, visited), visited + {toVisit[0]})
  {
    hide Next, Reaches;
    var cur, next := toVisit[0], Next(links, toVisit, visited);
    forall n | n in next
      ensures Reaches(links, sink, n)
    {
      NextHolds(links, toVisit, visited, n);
      if n !in toVisit {
        ReachesNext(links, sink, cur, n);
      }
    }
    forall m, x | m in visited + {cur} && x in Out(links, m)
      ensures x in visited + {cur} || x in next
    {
      NextHolds(links, toVisit, visited, x);
    }
  }

  // How often x is still going to be announced.
  ghost predicate Due(links: Graph, sink: Name, toVisit: seq<Name>, visited: set<Name>, x: Name, count: nat) {
    count ==
      if x in toVisit then multiset(toVisit)[x]
      else if x in visited then 0
      else if Reaches(links, sink, x) then 1
      else 0
  }

  lemma {:induction false} OrderCounts(links: Graph, sink: Name, toVisit: seq<Name>, visited: set<Name>, x: Name)
    requires Sweep(links, sink, toVisit, visited)
    ensures Due(links, sink, toVisit, visited, x, multiset(Order(links, toVisit, visited))[x])
    decreases |Unknown(links, toVisit, visited)|, |toVisit|
  {
    hide Sweep, Due, Next, Targets, Unknown;
    if toVisit == [] {
      NothingDue(links, sink, visited, x);
    } else {
      var cur := toVisit[0];
      var next, visited' := Next(links, toVisit, visited), visited + {cur};
      NextShrinks(links, toVisit, visited);
      SweepStep(links, sink, toVisit, visited);
      OrderCounts(links, sink, next, visited', x);
      DueStep(links, sink, toVisit, visited, x, multiset(Order(links, next, visited'))[x]);
      ConsMultiplicity(cur, Order(links, next, visited'), x);
    }
  }

  lemma NothingDue(links: Graph, sink: Name, visited: set<Name>, x: Name)
    requires Sweep(links, sink, [], visited)
    ensures Due(links, sink, [], visited, x, 0)
  {
    if Reaches(links, sink, x) {
      var k: nat :| Within(links, sink, x, k);
      ClosedSetHoldsReachable(links, sink, x, k, visited);
    }
  }

  lemma ConsMultiplicity(c: Name, s: seq<Name>, x: Name)
    ensures multiset([c] + s)[x] == multiset(s)[x] + if x == c then 1 else 0
  {
  }

  lemma DueStep(links: Graph, sink: Name, toVisit: seq<Name>, visited: set<Name>, x: Name, count: nat)
    requires Sweep(links, sink, toVisit, visited) && toVisit != []
    requires Due(links, sink, Next(links, toVisit, visited), visited + {toVisit[0]}, x, count)
    ensures Due(links, sink, toVisit, visited, x, count + if x == toVisit[0] then 1 else 0)
  {
    var cur, rest := toVisit[0], toVisit[1..];
    assert toVisit == [cur] + rest;
    ConsMultiplicity(cur, rest, x);
    PushNewGrows(Out(links, cur), visited + {cur}, rest);
    if x in Out(links, cur) {
      ReachesNext(links, sink, cur, x);
    }
    assert x !in rest ==> multiset(rest)[x] == 0;
  }

  // A round without losses announces a neighbour of the sink as often as the sink lists
  // it, every other reachable node once, and nothing else. For a sink without duplicate
  // or self links that is each reachable node but the sink exactly once.
  lemma RoundCoverage(links: Graph, sink: Name, x: Name)
    ensures multiset(RoundOrder(links, sink))[x] ==
              if x in Out(links, sink) then multiset(Out(links, sink))[x]
              else if x != sink && Reaches(links, sink, x) then 1
              else 0
  {
    assert Within(links, sink, sink, 0);
    forall n | n in Out(links, sink)
      ensures Reaches(links, sink, n)
    {
      ReachesNext(links, sink, sink, n);
    }
    OrderCounts(links, sink, Out(links, sink), {sink}, x);
  }

  lemma RoundHolds(links: Graph, sink: Name, x: Name)
    ensures x in RoundOrder(links, sink) <==>
              x in Out(links, sink) || (x != sink && Reaches(links, sink, x))
  {
    RoundCoverage(links, sink, x);
    assert x in RoundOrder(links, sink) <==> x in multiset(RoundOrder(links, sink));
    assert x in Out(links, sink) <==> x in multiset(Out(links, sink));
  }

  // ------------------------------------------------------------------ order of distance

  // The first k waiting nodes are d hops from the sink, the others d + 1; everything
  // within d hops is known.
  ghost predicate Level(links: Graph, sink: Name, toVisit: seq<Name>, visited: set<Name>, d: nat, k: nat) {
    && k <= |toVisit|
    && (forall i | 0 <= i < k :: IsDist(links, sink, toVisit[i], d))
    && (forall i | k <= i < |toVisit| :: IsDist(links, sink, toVisit[i], d + 1))
    && (forall n | Within(links, sink, n, d) :: n in visited || n in toVisit)
    && (forall m, x | m in visited && x in Out(links, m) :: x in visited || x in toVisit)
  }

  lemma LevelAdvances(links: Graph, sink: Name, toVisit: seq<Name>, visited: set<Name>, d: nat)
    requires Level(links, sink, toVisit, visited, d, 0)
    ensures Level(links, sink, toVisit, visited, d + 1, |toVisit|)
  {
    forall n | Within(links, sink, n, d + 1)
      ensures n in visited || n in toVisit
    {
      if !Within(links, sink, n, d) {
        var p :| Within(links, sink, p, d) && n in Out(links, p);
        assert p in visited;
      }
    }
  }

  lemma LevelStep(links: Graph, sink: Name, toVisit: seq<Name>, visited: set<Name>, d: nat, k: nat)
    requires Level(links, sink, toVisit, visited, d, k) && 0 < k
    ensures Level(links, sink, Next(links, toVisit, visited), visited + {toVisit[0]}, d, k - 1)
  {
    hide Next, Within;
    var cur, next := toVisit[0], Next(links, toVisit, visited);
    NextShape(links, toVisit, visited);
    forall i | k - 1 <= i < |next|
      ensures IsDist(links, sink, next[i], d + 1)
    {
      if i < |toVisit| - 1 {
        assert next[i] == toVisit[i + 1];
      } else {
        NewNodeDist(links, sink, cur, next[i], d);
      }
    }
    forall i | 0 <= i < k - 1
      ensures IsDist(links, sink, next[i], d)
    {
      assert next[i] == toVisit[i + 1];
    }
    forall n | Within(links, sink, n, d)
      ensures n in visited + {cur} || n in next
    {
      NextHolds(links, toVisit, visited, n);
    }
    forall m, x | m in visited + {cur} && x in Out(links, m)
      ensures x in visited + {cur} || x in next
    {
      NextHolds(links, toVisit, visited, x);
    }
  }

  lemma NewNodeDist(links: Graph, sink: Name, cur: Name, n: Name, d: nat)
    requires Within(links, sink, cur, d) && n in Out(links, cur) && !Within(links, sink, n, d)
    ensures IsDist(links, sink, n, d + 1)
  {
    forall j: nat | j < d + 1
      ensures !Within(links, sink, n, j)
    {
      if Within(links, sink, n, j) {
        WithinMonotone(links, sink, n, j, d);
      }
    }
  }

  ghost predicate NonDecreasing(ds: seq<nat>) {
    forall i, j | 0 <= i < j < |ds| :: ds[i] <= ds[j]
  }

  lemma {:induction false} OrderByDistance(links: Graph, sink: Name, toVisit: seq<Name>, visited: set<Name>,
                                           d: nat, k: nat)
    returns (ds: seq<nat>)
    requires Level(links, sink, toVisit, visited, d, k)
    ensures |ds| == |Order(links, toVisit, visited)| && NonDecreasing(ds)
    ensures forall i | 0 <= i < |ds| :: d <= ds[i] && IsDist(links, sink, Order(links, toVisit, visited)[i], ds[i])
    decreases |Unknown(links, toVisit, visited)|, |toVisit|
  {
    hide Within, Next, IsDist, Level, Targets;
    if toVisit == [] {
      ds := [];
    } else {
      HeadAtLevel(links, sink, toVisit, visited, d, k);
      var d', k' := d, k;
      if k == 0 {
        d', k' := d + 1, |toVisit|;
        LevelAdvances(links, sink, toVisit, visited, d);
      }
      NextShrinks(links, toVisit, visited);
      LevelStep(links, sink, toVisit, visited, d', k');
      var rest := OrderByDistance(links, sink, Next(links, toVisit, visited), visited + {toVisit[0]}, d', k' - 1);
      ds := [d'] + rest;
      var tail := Order(links, Next(links, toVisit, visited), visited + {toVisit[0]});
      assert Order(links, toVisit, visited) == [toVisit[0]] + tail;
    }
  }

  lemma HeadAtLevel(links: Graph, sink: Name, toVisit: seq<Name>, visited: set<Name>, d: nat, k: nat)
    requires Level(links, sink, toVisit, visited, d, k) && toVisit != []
    ensures IsDist(links, sink, toVisit[0], if k == 0 then d + 1 else d)
  {
  }

  // The announcements of a round come in non-decreasing hop distance from the sink.
  ghost predicate ByDistance(links: Graph, sink: Name) {
    exists ds :: RoundDistances(links, sink, ds)
  }

  ghost predicate RoundDistances(links: Graph, sink: Name, ds: seq<nat>) {
    && |ds| == |RoundOrder(links, sink)| && NonDecreasing(ds)
    && forall i | 0 <= i < |ds| :: IsDist(links, sink, RoundOrder(links, sink)[i], ds[i])
  }

  // Self links of the sink come before its other links.
  ghost predicate SelfLinksFirst(links: Graph, sink: Name) {
    var out := Out(links, sink);
    forall i, j | 0 <= i < j < |out| && out[j] == sink :: out[i] == sink
  }

  // They do exactly if no self link of the sink is listed behind another link; in
  // particular if the sink has no self link.
  lemma RoundByDistanceIff(links: Graph, sink: Name)
    ensures ByDistance(links, sink) <==> SelfLinksFirst(links, sink)
  {
    if SelfLinksFirst(links, sink) {
      var ds := RoundByDistance(links, sink);
      assert RoundDistances(links, sink, ds);
    }
    if ByDistance(links, sink) {
      var ds :| RoundDistances(links, sink, ds);
      SortedGivesSelfLinksFirst(links, sink, ds);
    }
  }

  lemma RoundByDistance(links: Graph, sink: Name) returns (ds: seq<nat>)
    requires SelfLinksFirst(links, sink)
    ensures RoundDistances(links, sink, ds)
  {
    var toVisit := Out(links, sink);
    var k := LeadingSelfLinks(toVisit, sink);
    hide Within;
    WithinZero(links, sink, sink);
    forall i | k <= i < |toVisit|
      ensures IsDist(links, sink, toVisit[i], 1)
    {
      assert toVisit[i] in Out(links, sink);
      WithinZero(links, sink, toVisit[i]);
      NewNodeDist(links, sink, sink, toVisit[i], 0);
    }
    forall n | Within(links, sink, n, 0)
      ensures n == sink
    {
      WithinZero(links, sink, n);
    }
    ds := OrderByDistance(links, sink, toVisit, {sink}, 0, k);
  }

  lemma {:induction false} LeadingSelfLinks(out: seq<Name>, sink: Name) returns (k: nat)
    requires forall i, j | 0 <= i < j < |out| && out[j] == sink :: out[i] == sink
    ensures k <= |out|
    ensures forall i | 0 <= i < |out| :: out[i] == sink <==> i < k
  {
    if out == [] {
      k := 0;
    } else {
      k := LeadingSelfLinks(out[..|out| - 1], sink);
      if out[|out| - 1] == sink {
        k := |out|;
      }
    }
  }

  lemma SortedGivesSelfLinksFirst(links: Graph, sink: Name, ds: seq<nat>)
    requires RoundDistances(links, sink, ds)
    ensures SelfLinksFirst(links, sink)
  {
    hide IsDist, RoundOrder, Order;
    var out, order := Out(links, sink), RoundOrder(links, sink);
    RoundStarts(links, sink);
    forall i, j | 0 <= i < j < |out| && out[j] == sink
      ensures out[i] == sink
    {
      assert order[i] == out[i] && order[j] == out[j];
      ZeroDist(links, sink, order[i], ds[i]);
      ZeroDist(links, sink, order[j], ds[j]);
    }
  }

  lemma RoundStarts(links: Graph, sink: Name)
    ensures Out(links, sink) <= RoundOrder(links, sink)
  {
    OrderStarts(links, Out(links, sink), {sink});
  }

  lemma ZeroDist(links: Graph, sink: Name, n: Name, d: nat)
    requires IsDist(links, sink, n, d)
    ensures d == 0 <==> n == sink
  {
    WithinZero(links, sink, n);
  }

  // What is waiting is announced first, in its order.
  lemma {:induction false} OrderStarts(links: Graph, toVisit: seq<Name>, visited: set<Name>)
    ensures toVisit <= Order(links, toVisit, visited)
    decreases |Unknown(links, toVisit, visited)|, |toVisit|
  {
    hide Unknown, Next;
    if toVisit != [] {
      NextShrinks(links, toVisit, visited);
      NextShape(links, toVisit, visited);
      OrderStarts(links, Next(links, toVisit, visited), visited + {toVisit[0]});
      assert toVisit == [toVisit[0]] + toVisit[1..];
    }
  }

  // A self link listed second: the sink's neighbour is announced before the sink itself.
  lemma LateSelfLink(lines: seq<(Name, Name)>)
    requires lines == [("k", "a"), ("k", "k")]
    ensures !SelfLinksFirst(Links(lines), "k") && !ByDistance(Links(lines), "k")
  {
    var p := lines[..1];
    assert p == [("k", "a")] && p[..0] == [] && lines[..|lines| - 1] == p;
    LateLinks(p, lines);
    assert !SelfLinksFirst(Links(lines), "k") by {
      assert Out(Links(lines), "k")[0] == "a" && Out(Links(lines), "k")[1] == "k";
    }
    RoundByDistanceIff(Links(lines), "k");
  }

  lemma LateLinks(p: seq<(Name, Name)>, lines: seq<(Name, Name)>)
    requires p == [("k", "a")] && lines == [("k", "a"), ("k", "k")]
    ensures Out(Links(lines), "k") == ["a", "k", "k"]
  {
    assert p[..0] == [] && lines[..1] == p;
    var l := AddLink(map[], ("k", "a"));
    assert Links(p) == l;
    assert Out(l, "k") == [] + ["a"];
    assert Links(lines) == AddLink(l, ("k", "k"));
  }

  // ------------------------------------------------------------------ all rounds

  // lost(r, i) tells the fate of the i-th announcement of round r.
  function Losses(lost: (nat, nat) -> bool, r: nat): nat -> bool {
    (i: nat) => lost(r, i)
  }

  function Log(links: Graph, sink: Name, rounds: nat, lost: (nat, nat) -> bool): seq<Lsa> {
    if rounds == 0 then []
    else
      Log(links, sink, rounds - 1, lost)
        + Kept(links, RoundOrder(links, sink), rounds - 1, Losses(lost, rounds - 1))
  }

  method GenerateLog(lines: seq<(Name, Name)>, sink: Name, rounds: nat, lost: (nat, nat) -> bool)
    returns (log: seq<Lsa>)
    requires sink in Links(lines)
    ensures log == Log(Links(lines), sink, rounds, lost)
  {
    var links := ReadLinks(lines);
    LinksClosed(lines);
    log := [];
    for i := 0 to rounds
      invariant log == Log(links, sink, i, lost)
    {
      var lsas := GenerateLsas(links, sink, i, Losses(lost, i));
      log := log + lsas;
    }
  }

  lemma {:induction false} KeptLines(links: Graph, order: seq<Name>, round: int, lost: nat -> bool, l: Lsa)
    requires l in Kept(links, order, round, lost)
    ensures l.sender in order && l.seqNum == round && l.neighbors == Out(links, l.sender)
  {
    var p := order[..|order| - 1];
    if l in Kept(links, p, round, lost) {
      KeptLines(links, p, round, lost, l);
    }
  }

  // Whatever is lost, a log line repeats its sender's link list under a round number.
  lemma {:induction false} LogLines(links: Graph, sink: Name, rounds: nat, lost: (nat, nat) -> bool, l: Lsa)
    requires l in Log(links, sink, rounds, lost)
    ensures l.sender in RoundOrder(links, sink) && 0 <= l.seqNum < rounds && l.neighbors == Out(links, l.sender)
  {
    if l in Log(links, sink, rounds - 1, lost) {
      LogLines(links, sink, rounds - 1, lost, l);
    } else {
      KeptLines(links, RoundOrder(links, sink), rounds - 1, Losses(lost, rounds - 1), l);
    }
  }

  lemma LogConsistent(links: Graph, sink: Name, rounds: nat, lost: (nat, nat) -> bool)
    ensures Consistent(Log(links, sink, rounds, lost))
  {
    var log := Log(links, sink, rounds, lost);
    forall l, l' | l in log && l' in log && l.sender == l'.sender
      ensures l.neighbors == l'.neighbors
    {
      LogLines(links, sink, rounds, lost, l);
      LogLines(links, sink, rounds, lost, l');
    }
  }

  // Every node a round announces was heard at least once.
  ghost predicate AllHeard(links: Graph, sink: Name, log: seq<Lsa>) {
    forall n | n in RoundOrder(links, sink) :: exists l :: l in log && l.sender == n
  }

  lemma {:induction false} SparedIsKept(links: Graph, order: seq<Name>, round: int, lost: nat -> bool, i: nat)
    requires i < |order| && !lost(i)
    ensures Lsa(order[i], round, Out(links, order[i])) in Kept(links, order, round, lost)
  {
    if i < |order| - 1 {
      SparedIsKept(links, order[..|order| - 1], round, lost, i);
    }
  }

  lemma {:induction false} SparedIsLogged(links: Graph, sink: Name, rounds: nat, lost: (nat, nat) -> bool,
                                          r: nat, i: nat)
    requires r < rounds && i < |RoundOrder(links, sink)| && !lost(r, i)
    ensures var n := RoundOrder(links, sink)[i]; Lsa(n, r, Out(links, n)) in Log(links, sink, rounds, lost)
  {
    hide RoundOrder, Kept;
    if r == rounds - 1 {
      SparedIsKept(links, RoundOrder(links, sink), r, Losses(lost, r), i);
    } else {
      SparedIsLogged(links, sink, rounds - 1, lost, r, i);
    }
  }

  ghost predicate SparedOnce(rounds: nat, lost: (nat, nat) -> bool, i: nat) {
    exists r: nat | r < rounds :: !lost(r, i)
  }

  // That is so whenever each announcement of a round is spared in some round.
  lemma SparedOnceIsHeard(links: Graph, sink: Name, rounds: nat, lost: (nat, nat) -> bool)
    requires forall i | 0 <= i < |RoundOrder(links, sink)| :: SparedOnce(rounds, lost, i)
    ensures AllHeard(links, sink, Log(links, sink, rounds, lost))
  {
    var order := RoundOrder(links, sink);
    forall n | n in order
      ensures exists l :: l in Log(links, sink, rounds, lost) && l.sender == n
    {
      var i :| 0 <= i < |order| && order[i] == n;
      assert SparedOnce(rounds, lost, i);
      var r: nat :| r < rounds && !lost(r, i);
      SparedIsLogged(links, sink, rounds, lost, r, i);
    }
  }

  lemma LinksMembers(lines: seq<(Name, Name)>, a: Name, b: Name)
    ensures b in Out(Links(lines), a) <==> (a, b) in lines || (b, a) in lines
  {
    LinksMultiplicity(lines, a, b);
    InMultiset(Out(Links(lines), a), b);
    InMultiset(lines, (a, b));
    InMultiset(lines, (b, a));
  }

  lemma InMultiset<T>(s: seq<T>, x: T)
    ensures x in s <==> multiset(s)[x] > 0
  {
    assert x in multiset(s) <==> x in s;
  }

  // ------------------------------------------------------------------ the order of a log

  // The places of the announcements that are not lost, in order.
  ghost predicate AreSpared(n: nat, lost: nat -> bool, places: seq<nat>) {
    && (forall a, b | 0 <= a < b < |places| :: places[a] < places[b])
    && (forall i: nat :: i in places <==> i < n && !lost(i))
  }

  // The lines are the announcements at these places.
  ghost predicate AreLines(links: Graph, order: seq<Name>, round: int, places: seq<nat>, lines: seq<Lsa>) {
    && |lines| == |places|
    && forall k | 0 <= k < |lines| ::
         places[k] < |order| && lines[k] == Lsa(order[places[k]], round, Out(links, order[places[k]]))
  }

  // A round prints its announcements without the lost ones, in its order.
  lemma {:induction false} KeptInOrder(links: Graph, order: seq<Name>, round: int, lost: nat -> bool)
    returns (places: seq<nat>)
    ensures AreSpared(|order|, lost, places)
    ensures AreLines(links, order, round, places, Kept(links, order, round, lost))
  {
    if order == [] {
      places := [];
    } else {
      var n := |order| - 1;
      var p := KeptInOrder(links, order[..n], round, lost);
      places := if lost(n) then p else p + [n];
      SparedGrows(n, lost, p);
      LinesGrow(links, order, round, p, Kept(links, order[..n], round, lost));
    }
  }

  lemma SparedGrows(n: nat, lost: nat -> bool, p: seq<nat>)
    requires AreSpared(n, lost, p)
    ensures AreSpared(n + 1, lost, if lost(n) then p else p + [n])
  {
    assert forall a | 0 <= a < |p| :: p[a] in p;
    assert forall i: nat :: i in p + [n] <==> i in p || i == n;
  }

  lemma LinesGrow(links: Graph, order: seq<Name>, round: int, p: seq<nat>, lines: seq<Lsa>)
    requires order != [] && AreLines(links, order[..|order| - 1], round, p, lines)
    ensures AreLines(links, order, round, p, lines)
    ensures var n := |order| - 1;
            AreLines(links, order, round, p + [n], lines + [Lsa(order[n], round, Out(links, order[n]))])
  {
  }

  // One round after the other: what is in the log before round r, round r without its
  // losses, and what comes later.
  lemma {:induction false} RoundInLog(links: Graph, sink: Name, rounds: nat, lost: (nat, nat) -> bool, r: nat)
    returns (later: seq<Lsa>)
    requires r < rounds
    ensures Log(links, sink, rounds, lost)
         == Log(links, sink, r, lost) + Kept(links, RoundOrder(links, sink), r, Losses(lost, r)) + later
    ensures forall l | l in Log(links, sink, r, lost) :: l.seqNum < r
    ensures forall l | l in later :: r < l.seqNum
  {
    hide Kept, RoundOrder, Losses;
    forall l | l in Log(links, sink, r, lost)
      ensures l.seqNum < r
    {
      LogLines(links, sink, r, lost, l);
    }
    if r == rounds - 1 {
      later := [];
    } else {
      var before := RoundInLog(links, sink, rounds - 1, lost, r);
      var last := Kept(links, RoundOrder(links, sink), rounds - 1, Losses(lost, rounds - 1));
      later := before + last;
      forall l | l in last
        ensures r < l.seqNum
      {
        KeptLines(links, RoundOrder(links, sink), rounds - 1, Losses(lost, rounds - 1), l);
      }
    }
  }

  // ------------------------------------------------------------------ the order of a round

  lemma {:induction false} PushNewFront(x: Name, rest: seq<Name>, visited: set<Name>, waiting: seq<Name>)
    ensures PushNew([x] + rest, visited, waiting)
         == PushNew(rest, visited, if x !in visited && x !in waiting then waiting + [x] else waiting)
  {
    if rest == [] {
      assert ([x] + rest)[..0] == [];
      assert [x] + rest == [x];
    } else {
      var p := rest[..|rest| - 1];
      assert ([x] + rest)[..|rest|] == [x] + p;
      PushNewFront(x, p, visited, waiting);
    }
  }

  // Pushing the neighbours of the current node, as steps of a search.
  lemma {:induction false} PushKeepsOrder(links: Graph, sink: Name, s: Scan, visited: set<Name>) returns (t: Scan)
    requires Ordered(links, sink, s) && s.walks.Keys == visited + Elements(s.queue)
    ensures Ordered(links, sink, t) && t.pending == [] && t.here == s.here
    ensures t.queue == PushNew(s.pending, visited, s.queue) && t.walks.Keys == visited + Elements(t.queue)
    decreases |s.pending|
  {
    hide Ordered, PushNew;
    if s.pending == [] {
      t := s;
      NothingPushed(visited, s.queue);
    } else {
      var x := s.pending[0];
      var u := s;
      if x !in s.walks {
        QueueKeeps(links, sink, s);
        u := Queued(s);
      }
      SkipKeeps(links, sink, u);
      assert s.pending == [x] + s.pending[1..];
      PushNewFront(x, s.pending[1..], visited, s.queue);
      assert u.walks.Keys == visited + Elements(u.queue);
      t := PushKeepsOrder(links, sink, Skipped(u), visited);
    }
  }

  lemma NothingPushed(visited: set<Name>, waiting: seq<Name>)
    ensures PushNew([], visited, waiting) == waiting
  {
  }

  // The nodes come along their least walks, each walk before the next.
  ghost predicate InWalkOrder(links: Graph, sink: Name, order: seq<Name>, walks: seq<seq<Name>>) {
    && |walks| == |order|
    && (forall i | 0 <= i < |order| :: LeastWalk(links, sink, order[i], walks[i]))
    && (forall i, j | 0 <= i < j < |order| :: Less(links, walks[i], walks[j]))
  }

  // The step to the next node and its neighbours.
  lemma NextKeepsOrder(links: Graph, sink: Name, s: Scan, visited: set<Name>) returns (t: Scan)
    requires Ordered(links, sink, s) && s.pending == [] && s.queue != []
    requires s.walks.Keys == visited + Elements(s.queue)
    ensures Ordered(links, sink, t) && t.pending == [] && t.here == Popped(links, s).here
    ensures t.queue == Next(links, s.queue, visited)
    ensures t.walks.Keys == visited + {s.queue[0]} + Elements(t.queue)
  {
    hide Ordered, PushNew;
    PopKeeps(links, sink, s);
    assert s.queue == [s.queue[0]] + s.queue[1..];
    t := PushKeepsOrder(links, sink, Popped(links, s), visited + {s.queue[0]});
  }

  lemma {:induction false} OrderInWalkOrder(links: Graph, sink: Name, s: Scan, visited: set<Name>)
    returns (walks: seq<seq<Name>>)
    requires Ordered(links, sink, s) && s.pending == [] && s.walks.Keys == visited + Elements(s.queue)
    ensures InWalkOrder(links, sink, Order(links, s.queue, visited), walks)
    ensures forall i | 0 <= i < |walks| :: Less(links, s.here, walks[i])
    decreases |Unknown(links, s.queue, visited)|, |s.queue|
  {
    hide Ordered, Less, LeastWalk, PushNew, Unknown;
    if s.queue == [] {
      walks := [];
    } else {
      var cur := s.queue[0];
      HeadOfQueue(links, sink, s);
      var t := NextKeepsOrder(links, sink, s, visited);
      NextShrinks(links, s.queue, visited);
      var rest := OrderInWalkOrder(links, sink, t, visited + {cur});
      var w := s.walks[cur];
      walks := [w] + rest;
      assert Order(links, s.queue, visited) == [cur] + Order(links, t.queue, visited + {cur});
      forall i | 0 <= i < |walks|
        ensures Less(links, s.here, walks[i])
      {
        if i > 0 {
          LessTransitive(links, s.here, w, walks[i]);
        }
      }
    }
  }

  lemma HeadOfQueue(links: Graph, sink: Name, s: Scan)
    requires Ordered(links, sink, s) && s.queue != []
    ensures s.queue[0] in s.walks && LeastWalk(links, sink, s.queue[0], s.walks[s.queue[0]])
    ensures Less(links, s.here, s.walks[s.queue[0]])
  {
    assert s.queue[0] in s.queue;
  }

  // Pushing asks only what is visited or waiting.
  lemma {:induction false} PushNewSame(xs: seq<Name>, v: set<Name>, w: seq<Name>, v': set<Name>, w': seq<Name>)
    returns (d: seq<Name>)
    requires forall x :: x in v || x in w <==> x in v' || x in w'
    ensures PushNew(xs, v, w) == w + d && PushNew(xs, v', w') == w' + d
    ensures forall x :: x in v || x in w || x in d <==> x in v || x in w || x in xs
  {
    if xs == [] {
      d := [];
      assert w + d == w && w' + d == w';
    } else {
      var p, x := xs[..|xs| - 1], xs[|xs| - 1];
      var e := PushNewSame(p, v, w, v', w');
      assert xs == p + [x];
      assert x in w + e <==> x in w || x in e;
      assert x in w' + e <==> x in w' || x in e;
      d := if x in v || x in w || x in e then e else e + [x];
      assert w + (e + [x]) == w + e + [x] && w' + (e + [x]) == w' + e + [x];
    }
  }

  // What has been visited has handed on all its neighbours.
  ghost predicate Handed(links: Graph, visited: set<Name>, waiting: seq<Name>) {
    forall m, y | m in visited && y in Out(links, m) :: y in visited || y in waiting
  }

  // Going through the neighbours of the sink, some of them perhaps again.
  lemma {:induction false} BehindNeighbours(links: Graph, sink: Name, s: Scan, front: seq<Name>, back: seq<Name>,
                                            visited: set<Name>)
    returns (rest: seq<Name>, walks: seq<seq<Name>>)
    requires Ordered(links, sink, s) && s.pending == []
    requires s.queue == PushNew(front, visited, []) + back && s.walks.Keys == visited + Elements(s.queue)
    requires Handed(links, visited, s.queue)
    ensures Order(links, front + back, visited) == front + rest && InWalkOrder(links, sink, rest, walks)
    decreases |front|
  {
    hide Ordered, InWalkOrder, PushNew, Handed;
    if front == [] {
      NothingPushed(visited, []);
      assert s.queue == back == front + back;
      walks := OrderInWalkOrder(links, sink, s, visited);
      rest := Order(links, back, visited);
    } else {
      var cur, front' := front[0], front[1..];
      assert front == [cur] + front' && (front + back)[1..] == front' + back;
      if cur in visited {
        PushNewFront(cur, front', visited, []);
        Known(links, cur, front', back, visited);
        assert visited + {cur} == visited;
        rest, walks := BehindNeighbours(links, sink, s, front', back, visited);
      } else {
        var t, d := NextNeighbour(links, sink, s, front, back, visited);
        rest, walks := BehindNeighbours(links, sink, t, front', back + d, visited + {cur});
        assert front' + back + d == front' + (back + d);
      }
    }
  }

  // A neighbour met again has nothing new to push.
  lemma Known(links: Graph, cur: Name, front: seq<Name>, back: seq<Name>, visited: set<Name>)
    requires cur in visited && Handed(links, visited, PushNew(front, visited, []) + back)
    ensures PushNew(Out(links, cur), visited, front + back) == front + back
  {
    hide PushNew;
    var d := PushNewSame(front, visited, [], visited, []);
    assert forall x | x in front :: x in front + back;
    NothingNew(Out(links, cur), visited, front + back);
  }

  lemma {:induction false} NothingNew(xs: seq<Name>, visited: set<Name>, waiting: seq<Name>)
    requires forall x | x in xs :: x in visited || x in waiting
    ensures PushNew(xs, visited, waiting) == waiting
  {
    if xs != [] {
      var p := xs[..|xs| - 1];
      assert xs == p + [xs[|xs| - 1]];
      NothingNew(p, visited, waiting);
    }
  }

  lemma NextNeighbour(links: Graph, sink: Name, s: Scan, front: seq<Name>, back: seq<Name>, visited: set<Name>)
    returns (t: Scan, d: seq<Name>)
    requires Ordered(links, sink, s) && s.pending == [] && front != [] && front[0] !in visited
    requires s.queue == PushNew(front, visited, []) + back && s.walks.Keys == visited + Elements(s.queue)
    requires Handed(links, visited, s.queue)
    ensures var visited' := visited + {front[0]};
            && Ordered(links, sink, t) && t.pending == []
            && t.queue == PushNew(front[1..], visited', []) + (back + d) && t.walks.Keys == visited' + Elements(t.queue)
            && Handed(links, visited', t.queue)
            && PushNew(Out(links, front[0]), visited', front[1..] + back) == front[1..] + back + d
  {
    hide Ordered, PushNew, Handed;
    var cur, visited' := front[0], visited + {front[0]};
    FrontSplits(front, visited);
    var e := PushNew(front[1..], visited', []);
    assert s.queue == [cur] + (e + back);
    t := NextKeepsOrder(links, sink, s, visited);
    d := BehindAll(Out(links, cur), visited', front[1..], back);
    assert t.queue == e + (back + d);
    HandedGrows(links, cur, visited, e + back);
  }

  lemma FrontSplits(front: seq<Name>, visited: set<Name>)
    requires front != [] && front[0] !in visited
    ensures PushNew(front, visited, []) == [front[0]] + PushNew(front[1..], visited + {front[0]}, [])
  {
    hide PushNew;
    assert front == [front[0]] + front[1..] && [] + [front[0]] == [front[0]];
    PushNewFront(front[0], front[1..], visited, []);
    var e := PushNewSame(front[1..], visited, [front[0]], visited + {front[0]}, []);
  }

  // Pushing behind the front is pushing behind what is new in it.
  lemma BehindAll(xs: seq<Name>, visited: set<Name>, front: seq<Name>, back: seq<Name>) returns (d: seq<Name>)
    ensures PushNew(xs, visited, front + back) == front + back + d
    ensures PushNew(xs, visited, PushNew(front, visited, []) + back) == PushNew(front, visited, []) + back + d
  {
    hide PushNew;
    var e := PushNewSame(front, visited, [], visited, []);
    assert [] + e == e;
    assert forall x :: x in e + back <==> x in e || x in back;
    assert forall x :: x in front + back <==> x in front || x in back;
    d := PushNewSame(xs, visited, e + back, visited, front + back);
  }

  lemma HandedGrows(links: Graph, cur: Name, visited: set<Name>, waiting: seq<Name>)
    requires Handed(links, visited, [cur] + waiting)
    ensures var visited' := visited + {cur}; Handed(links, visited', PushNew(Out(links, cur), visited', waiting))
  {
    hide PushNew;
    var d := PushNewSame(Out(links, cur), visited + {cur}, waiting, visited + {cur}, waiting);
    assert forall x | x in [cur] + waiting :: x == cur || x in waiting;
  }

  // A round begins with the neighbours of the sink as listed and goes through all other
  // nodes in the order of their least walks: by distance, and among equally distant nodes
  // by the positions in the link lists. (RoundCoverage says which nodes these are.)
  lemma RoundInWalkOrder(links: Graph, sink: Name) returns (rest: seq<Name>, walks: seq<seq<Name>>)
    ensures RoundOrder(links, sink) == Out(links, sink) + rest && InWalkOrder(links, sink, rest, walks)
  {
    var s, front := Starting(sink), Out(links, sink);
    StartIsOrdered(links, sink);
    hide Ordered, PushNew, InWalkOrder;
    assert {} + {sink} == {sink};
    var t := NextKeepsOrder(links, sink, s, {});
    var d := PushNewSame(front, {sink}, [], {sink}, []);
    assert t.queue == PushNew(front, {sink}, []) == PushNew(front, {sink}, []) + [];
    rest, walks := BehindNeighbours(links, sink, t, front, [], {sink});
    assert front + [] == front;
  }
}
