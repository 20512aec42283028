/** The database and server choice of the grading harness. */
module BestServer {
  import opened Wrappers
  import opened Graphs
  import D = Dijkstra

  // One announcement; the sequence number stays text.
  datatype TextLsa = TextLsa(sender: Name, seqText: string, neighbors: seq<Name>)

  datatype Entry = Entry(seqText: string, neighbors: seq<Name>)

  // Python's < on strings.
  predicate LexLess(a: string, b: string) {
    if b == [] then false
    else if a == [] then true
    else if a[0] != b[0] then a[0] < b[0]
    else LexLess(a[1..], b[1..])
  }

  // The order of texts: a proper prefix comes first, else the first difference decides.
  ghost predicate TextBelow(a: string, b: string) {
    exists i: nat :: DiffersAt(a, b, i)
  }

  ghost predicate DiffersAt(a: string, b: string, i: nat) {
    i <= |a| && i < |b| && a[..i] == b[..i] && (i == |a| || a[i] < b[i])
  }

  lemma {:induction false} LexLessIsTextOrder(a: string, b: string)
    ensures LexLess(a, b) <==> TextBelow(a, b)
    decreases |a|
  {
    if a == [] || b == [] || a[0] != b[0] {
      if LexLess(a, b) {
        assert DiffersAt(a, b, 0);
      }
      forall i: nat
        ensures DiffersAt(a, b, i) ==> i == 0
      {
        if 0 < i <= |a| && i < |b| {
          assert a[..i][0] == a[0] && b[..i][0] == b[0];
        }
      }
    } else {
      LexLessIsTextOrder(a[1..], b[1..]);
      if i: nat :| DiffersAt(a[1..], b[1..], i) {
        ShiftDifference(a, b, i);
      }
      if i: nat :| DiffersAt(a, b, i) {
        ShiftDifference(a, b, i);
      }
    }
  }

  lemma ShiftDifference(a: string, b: string, i: nat)
    requires a != [] && b != [] && a[0] == b[0]
    ensures DiffersAt(a[1..], b[1..], i) ==> DiffersAt(a, b, i + 1)
    ensures DiffersAt(a, b, i) ==> i > 0 && DiffersAt(a[1..], b[1..], i - 1)
  {
    if DiffersAt(a[1..], b[1..], i) {
      assert a[..i + 1] == [a[0]] + a[1..][..i] && b[..i + 1] == [b[0]] + b[1..][..i];
    }
    if DiffersAt(a, b, i) && i > 0 {
      assert a[1..][..i - 1] == a[..i][1..] && b[1..][..i - 1] == b[..i][1..];
    }
  }

  function UpdateStatus(status: map<Name, Entry>, l: TextLsa): map<Name, Entry> {
    if l.sender !in status || LexLess(status[l.sender].seqText, l.seqText) then
      status[l.sender := Entry(l.seqText, l.neighbors)]
    else
      status
  }

  // CURRENT_STATUS after the whole log.
  function Status(log: seq<TextLsa>): map<Name, Entry> {
    if log == [] then map[]
    else UpdateStatus(Status(log[..|log| - 1]), log[|log| - 1])
  }

  // Line i is the first of its sender's lines with a text that none of them exceeds.
  ghost predicate FirstHighest(log: seq<TextLsa>, i: nat)
    requires i < |log|
  {
    && (forall j | 0 <= j < |log| && log[j].sender == log[i].sender :: !TextBelow(log[i].seqText, log[j].seqText))
    && (forall j | 0 <= j < i && log[j].sender == log[i].sender :: TextBelow(log[j].seqText, log[i].seqText))
  }

  // For logs of texts of any width: the dictionary keeps that line of each sender.
  lemma {:induction false} StatusIsFirstHighest(log: seq<TextLsa>, n: Name) returns (i: nat)
    ensures n in Status(log) <==> exists l :: l in log && l.sender == n
    ensures n in Status(log) ==>
              i < |log| && log[i].sender == n && FirstHighest(log, i)
              && Status(log)[n] == Entry(log[i].seqText, log[i].neighbors)
  {
    hide LexLess, TextBelow;
    i := 0;
    if log != [] {
      var k := |log| - 1;
      var p, l := log[..k], log[k];
      assert log == p + [l];
      i := StatusIsFirstHighest(p, n);
      if n == l.sender {
        assert l in log;
        if n in Status(p) {
          LexLessIsTextOrder(p[i].seqText, l.seqText);
          if LexLess(p[i].seqText, l.seqText) {
            NewHighest(p, i, l);
            i := k;
          } else {
            OldHighest(p, i, l);
          }
        } else {
          i := k;
          assert forall j | 0 <= j < k :: p[j] in p;
          TextIsStrict(l.seqText);
        }
      } else if n in Status(p) {
        OldHighest(p, i, l);
      }
    }
  }

  lemma OldHighest(p: seq<TextLsa>, i: nat, l: TextLsa)
    requires i < |p| && FirstHighest(p, i)
    requires l.sender == p[i].sender ==> !TextBelow(p[i].seqText, l.seqText)
    ensures FirstHighest(p + [l], i)
  {
    hide TextBelow;
  }

  lemma NewHighest(p: seq<TextLsa>, i: nat, l: TextLsa)
    requires i < |p| && FirstHighest(p, i) && l.sender == p[i].sender && TextBelow(p[i].seqText, l.seqText)
    ensures FirstHighest(p + [l], |p|)
  {
    hide TextBelow;
    TextIsStrict(l.seqText);
    forall j | 0 <= j < |p| && p[j].sender == l.sender
      ensures TextBelow(p[j].seqText, l.seqText) && !TextBelow(l.seqText, p[j].seqText)
    {
      TextIsTotal(p[j].seqText, p[i].seqText);
      if p[j].seqText != p[i].seqText {
        TextTransitive(p[j].seqText, p[i].seqText, l.seqText);
      }
      if TextBelow(l.seqText, p[j].seqText) {
        TextTransitive(p[j].seqText, l.seqText, p[j].seqText);
        TextIsStrict(p[j].seqText);
      }
    }
  }

  lemma TextIsStrict(a: string)
    ensures !TextBelow(a, a)
  {
  }

  lemma {:induction false} TextIsTotal(a: string, b: string)
    ensures a == b || TextBelow(a, b) || TextBelow(b, a)
    decreases |a|
  {
    if a == [] || b == [] || a[0] != b[0] {
      assert DiffersAt(a, b, 0) || DiffersAt(b, a, 0) || a == b;
    } else {
      TextIsTotal(a[1..], b[1..]);
      assert a == [a[0]] + a[1..] && b == [b[0]] + b[1..];
      forall i: nat
        ensures DiffersAt(a[1..], b[1..], i) ==> DiffersAt(a, b, i + 1)
        ensures DiffersAt(b[1..], a[1..], i) ==> DiffersAt(b, a, i + 1)
      {
        ShiftDifference(a, b, i);
        ShiftDifference(b, a, i);
      }
    }
  }

  lemma TextTransitive(a: string, b: string, c: string)
    requires TextBelow(a, b) && TextBelow(b, c)
    ensures TextBelow(a, c)
  {
    var i: nat :| DiffersAt(a, b, i);
    var j: nat :| DiffersAt(b, c, j);
    var k := if i < j then i else j;
    assert a[..k] == a[..i][..k] && b[..k] == b[..i][..k] == b[..j][..k] && c[..k] == c[..j][..k];
    if i < j {
      assert b[i] == b[..j][i] && c[i] == c[..j][i];
    } else if j < i {
      assert a[j] == a[..i][j] && b[j] == b[..i][j];
    }
    assert DiffersAt(a, c, k);
  }

  // The neighbour lists announced, as a graph.
  function Listed(status: map<Name, Entry>): Graph {
    map n | n in status :: status[n].neighbors
  }

  // nbrs completes heard: a node that announced nothing gets the nodes that list it.
  ghost predicate IsBackfill(heard: Graph, nbrs: Graph) {
    && (forall n | n in heard :: Out(nbrs, n) == heard[n])
    && (forall n, b | n !in heard :: b in Out(nbrs, n) <==> b in heard && n in heard[b])
  }

  // The keys of a dictionary in some order: nothing more is known about it.
  method Items(m: Graph) returns (keys: seq<Name>)
    ensures forall k :: k in keys <==> k in m
    ensures D.NoDuplicates(keys)
  {
    keys := [];
    var rest := m.Keys;
    while rest != {}
      invariant rest <= m.Keys
      invariant forall i | 0 <= i < |keys| :: keys[i] in m.Keys && keys[i] !in rest
      invariant forall k | k in m.Keys && k !in rest :: k in keys
      invariant D.NoDuplicates(keys)
    {
      var k :| k in rest;
      assert forall i | 0 <= i < |keys| :: keys[i] != k;
      keys := keys + [k];
      rest := rest - {k};
    }
  }

  // NODES: the announcing nodes, then the other nodes they list.
  method CollectNodes(heard: Graph) returns (nodes: seq<Name>)
    ensures forall n :: n in nodes <==> n in heard || n in Targets(heard)
  {
    nodes := Items(heard);
    var keys := Items(heard);
    for i := 0 to |keys|
      invariant forall n | n in heard :: n in nodes
      invariant forall n | n in nodes :: n in heard || n in Targets(heard)
      invariant forall j, x | 0 <= j < i && x in heard[keys[j]] :: x in nodes
    {
      var v := heard[keys[i]];
      for k := 0 to |v|
        invariant forall n | n in heard :: n in nodes
        invariant forall n | n in nodes :: n in heard || n in Targets(heard)
        invariant forall j, x | 0 <= j < i && x in heard[keys[j]] :: x in nodes
        invariant forall j | 0 <= j < k :: v[j] in nodes
      {
        assert keys[i] in heard && v[k] in heard[keys[i]];
        if v[k] !in nodes {
          nodes := nodes + [v[k]];
        }
      }
    }
    forall n | n in Targets(heard)
      ensures n in nodes
    {
      var m :| m in heard && n in heard[m];
      assert m in keys;
    }
  }

  // NEIGHBORS while the silent nodes are being filled in: done are the finished ones.
  ghost predicate Filling(heard: Graph, nbrs: Graph, done: set<Name>) {
    && (forall n | n in heard :: n in nbrs && nbrs[n] == heard[n])
    && (forall n | n in nbrs && n !in heard :: n in done && forall b | b in nbrs[n] :: b in heard)
    && (forall n, b | n in done && n !in heard :: b in Out(nbrs, n) <==> b in heard && n in heard[b])
  }

  // The inner loop for one silent node n, over a snapshot of the dictionary.
  method FillOne(heard: Graph, nbrs0: Graph, n: Name, ghost done: set<Name>) returns (nbrs: Graph)
    requires Filling(heard, nbrs0, done) && n !in nbrs0
    ensures Filling(heard, nbrs, done + {n})
  {
    var keys := Items(nbrs0);
    var listers: seq<Name> := [];
    nbrs := nbrs0;
    for i := 0 to |keys|
      invariant forall b :: b in listers <==> b in keys[..i] && n in nbrs0[b]
      invariant nbrs == if listers == [] then nbrs0 else nbrs0[n := listers]
    {
      var b := keys[i];
      assert keys[..i + 1] == keys[..i] + [b];
      if n in nbrs0[b] {
        listers := listers + [b];
        nbrs := nbrs[n := listers];
      }
    }
    assert keys[..|keys|] == keys;
    forall b
      ensures b in Out(nbrs, n) <==> b in heard && n in heard[b]
    {
      assert n !in heard;
    }
    assert forall m, b | m in done && m !in heard && m != n :: b in Out(nbrs, m) <==> b in Out(nbrs0, m);
  }

  method Backfill(heard: Graph) returns (nbrs: Graph)
    ensures IsBackfill(heard, nbrs)
  {
    var nodes := CollectNodes(heard);
    nbrs := heard;
    ghost var done: set<Name> := {};
    for i := 0 to |nodes|
      invariant Filling(heard, nbrs, done)
      invariant forall n | n in nodes[..i] && n !in heard :: n in done
    {
      assert nodes[..i + 1] == nodes[..i] + [nodes[i]];
      if nodes[i] !in nbrs {
        nbrs := FillOne(heard, nbrs, nodes[i], done);
        done := done + {nodes[i]};
      }
    }
    assert nodes[..|nodes|] == nodes;
    forall n, b | n !in heard
      ensures b in Out(nbrs, n) <==> b in heard && n in heard[b]
    {
      if b in heard && n in heard[b] {
        assert n in Targets(heard);
      }
      if n in nbrs {
        assert n in done;
      }
    }
  }

  // What DISTS[c][s] reads: the hop count, or -1 when s is unreachable.
  ghost predicate HasScore(g: Graph, c: Name, s: Name, score: int) {
    if score < 0 then score == -1 && !Reaches(g, c, s) else IsDist(g, c, s, score)
  }

  // r is the first of the servers with the smallest score.
  ghost predicate IsArgMin(g: Graph, c: Name, servers: seq<Name>, r: Name) {
    exists i, d {:trigger HasScore(g, c, servers[i], d)} ::
      && 0 <= i < |servers| && servers[i] == r && HasScore(g, c, r, d)
      && (forall j, e | 0 <= j < |servers| && HasScore(g, c, servers[j], e) :: d <= e && (j < i ==> d < e))
  }

  lemma ScoreIsUnique(g: Graph, c: Name, s: Name, d: int, e: int)
    requires HasScore(g, c, s, d) && HasScore(g, c, s, e)
    ensures d == e
  {
  }

  lemma ShortestHasScore(g: Graph, c: Name, dist: map<Name, int>, s: Name)
    requires D.ShortestFrom(g, c, dist)
    ensures HasScore(g, c, s, if s in dist then dist[s] else -1)
  {
  }

  lemma ArgMinIsUnique(g: Graph, c: Name, servers: seq<Name>, r: Name, r': Name)
    requires IsArgMin(g, c, servers, r) && IsArgMin(g, c, servers, r')
    ensures r == r'
  {
    hide HasScore;
    var i, d :| 0 <= i < |servers| && servers[i] == r && HasScore(g, c, r, d) &&
      forall j, e | 0 <= j < |servers| && HasScore(g, c, servers[j], e) :: d <= e && (j < i ==> d < e);
    var i', d' :| 0 <= i' < |servers| && servers[i'] == r' && HasScore(g, c, r', d') &&
      forall j, e | 0 <= j < |servers| && HasScore(g, c, servers[j], e) :: d' <= e && (j < i' ==> d' < e);
  }

  // An empty server name is falsy, so whatever follows it replaces it: r is the choice
  // among the servers from index m on, where m is the last index at which the choice
  // started over because the one so far was an empty name.
  ghost predicate IsPicked(g: Graph, c: Name, servers: seq<Name>, r: Name)
    decreases |servers|, 1
  {
    exists m :: 0 <= m < |servers| && IsPickedFrom(g, c, servers, r, m)
  }

  ghost predicate IsPickedFrom(g: Graph, c: Name, servers: seq<Name>, r: Name, m: nat)
    requires m < |servers|
    decreases |servers|, 0
  {
    StartsOver(g, c, servers, m) && IsArgMin(g, c, servers[m..], r)
  }

  ghost predicate StartsOver(g: Graph, c: Name, servers: seq<Name>, m: nat)
    requires m < |servers|
    decreases m, 2
  {
    && (m == 0 || IsPicked(g, c, servers[..m], ""))
    && forall p | m < p < |servers| :: !IsArgMin(g, c, servers[m..p], "")
  }

  lemma PickedIndex(g: Graph, c: Name, servers: seq<Name>, r: Name) returns (m: nat)
    requires IsPicked(g, c, servers, r)
    ensures m < |servers| && IsPickedFrom(g, c, servers, r, m)
  {
    m :| 0 <= m < |servers| && IsPickedFrom(g, c, servers, r, m);
  }

  lemma PickedIsArgMin(g: Graph, c: Name, servers: seq<Name>, r: Name)
    requires IsPicked(g, c, servers, r) && "" !in servers
    ensures IsArgMin(g, c, servers, r)
  {
    var m := PickedIndex(g, c, servers, r);
    if m > 0 {
      var n := PickedIndex(g, c, servers[..m], "");
      assert false;
    }
    assert servers[0..] == servers;
  }

  // One more server after the choice r among servers from m on.
  lemma StartsOverMore(g: Graph, c: Name, servers: seq<Name>, s: Name, r: Name, m: nat)
    requires m < |servers| && IsPickedFrom(g, c, servers, r, m)
    ensures r == "" ==> StartsOver(g, c, servers + [s], |servers|)
    ensures r != "" ==> StartsOver(g, c, servers + [s], m)
  {
    hide IsArgMin;
    var more := servers + [s];
    assert more[..|servers|] == servers && more[..m] == servers[..m];
    if r == "" {
      assert IsPicked(g, c, servers, "");
    } else {
      forall p | m < p < |more|
        ensures !IsArgMin(g, c, more[m..p], "")
      {
        assert more[m..p] == servers[m..p];
        if p == |servers| {
          assert servers[m..p] == servers[m..];
          if IsArgMin(g, c, servers[m..], "") {
            ArgMinIsUnique(g, c, servers[m..], r, "");
          }
        }
      }
    }
  }

  // at holds the best score, bestDist, of the servers from index m to i.
  ghost predicate BestFrom(g: Graph, c: Name, servers: seq<Name>, m: nat, at: nat, i: nat, bestDist: int)
    requires i <= |servers|
  {
    && m <= at < i && HasScore(g, c, servers[at], bestDist)
    && forall j, e | m <= j < i && HasScore(g, c, servers[j], e) :: bestDist <= e && (j < at ==> bestDist < e)
  }

  lemma BestIsArgMin(g: Graph, c: Name, servers: seq<Name>, m: nat, at: nat, bestDist: int)
    requires BestFrom(g, c, servers, m, at, |servers|, bestDist)
    ensures IsArgMin(g, c, servers[m..], servers[at])
  {
    var s := servers[m..];
    assert s[at - m] == servers[at];
    forall j, e | 0 <= j < |s| && HasScore(g, c, s[j], e)
      ensures bestDist <= e && (j < at - m ==> bestDist < e)
    {
      assert s[j] == servers[m + j];
    }
  }

  lemma BestMovesOn(g: Graph, c: Name, servers: seq<Name>, m: nat, at: nat, i: nat, bestDist: int, score: int)
    requires i < |servers| && HasScore(g, c, servers[i], score)
    ensures BestFrom(g, c, servers, i, i, i + 1, score)
    ensures BestFrom(g, c, servers, m, at, i, bestDist) ==>
              if score < bestDist then BestFrom(g, c, servers, m, i, i + 1, score)
              else BestFrom(g, c, servers, m, at, i + 1, bestDist)
  {
    forall e | HasScore(g, c, servers[i], e)
      ensures e == score
    {
      ScoreIsUnique(g, c, servers[i], e, score);
    }
  }

  method PickServer(g: Graph, c: Name, servers: seq<Name>, dist: map<Name, int>) returns (best: Option<Name>)
    requires D.ShortestFrom(g, c, dist)
    ensures best.None? <==> servers == []
    ensures best.Some? ==> IsPicked(g, c, servers, best.value)
  {
    hide HasScore, D.ShortestFrom, BestFrom, StartsOver, IsArgMin;
    best := None;
    var bestDist := 0;
    ghost var m, at := 0, 0;
    for i := 0 to |servers|
      invariant best.None? <==> i == 0
      invariant best.Some? ==>
          && m <= at < i && best.value == servers[at]
          && StartsOver(g, c, servers[..i], m)
          && BestFrom(g, c, servers, m, at, i, bestDist)
    {
      var s := servers[i];
      var score := if s in dist then dist[s] else -1;
      ShortestHasScore(g, c, dist, s);
      BestMovesOn(g, c, servers, m, at, i, bestDist, score);
      assert servers[..i + 1] == servers[..i] + [s];
      if best.Some? {
        BestIsArgMin(g, c, servers[..i], m, at, bestDist) by {
          BestOfPrefix(g, c, servers, m, at, i, bestDist);
        }
        StartsOverMore(g, c, servers[..i], s, best.value, m);
      } else {
        StartsFirst(g, c, servers[..i + 1]);
      }
      if best.None? || best.value == "" || score < bestDist {
        m := if best.None? || best.value == "" then i else m;
        best, bestDist, at := Some(s), score, i;
      }
    }
    if best.Some? {
      assert servers[..|servers|] == servers;
      BestIsArgMin(g, c, servers, m, at, bestDist);
      assert IsPickedFrom(g, c, servers, best.value, m);
    }
  }

  lemma StartsFirst(g: Graph, c: Name, servers: seq<Name>)
    requires |servers| == 1
    ensures StartsOver(g, c, servers, 0)
  {
  }

  lemma BestOfPrefix(g: Graph, c: Name, servers: seq<Name>, m: nat, at: nat, i: nat, bestDist: int)
    requires i <= |servers| && BestFrom(g, c, servers, m, at, i, bestDist)
    ensures BestFrom(g, c, servers[..i], m, at, i, bestDist)
  {
  }

  // That leaves no freedom: restart index and choice are determined.
  lemma {:induction false} PickedIsUnique(g: Graph, c: Name, servers: seq<Name>, r: Name, m: nat, r': Name, m': nat)
    requires m <= m' < |servers|
    requires IsPickedFrom(g, c, servers, r, m) && IsPickedFrom(g, c, servers, r', m')
    ensures m == m' && r == r'
    decreases |servers|
  {
    hide IsArgMin;
    if m < m' {
      var p := servers[..m'];
      var q := HasArgMin(g, c, p[m..]);
      assert p[m..] == servers[m..m'] && p[..m] == servers[..m];
      forall k | m < k < |p|
        ensures !IsArgMin(g, c, p[m..k], "")
      {
        assert p[m..k] == servers[m..k];
      }
      assert IsPickedFrom(g, c, p, q, m);
      var n := PickedIndex(g, c, p, "");
      if m <= n {
        PickedIsUnique(g, c, p, q, m, "", n);
      } else {
        PickedIsUnique(g, c, p, "", n, q, m);
      }
      assert false;
    }
    ArgMinIsUnique(g, c, servers[m..], r, r');
  }

  lemma ScoreExists(g: Graph, c: Name, s: Name) returns (d: int)
    ensures HasScore(g, c, s, d)
  {
    hide Within;
    if Reaches(g, c, s) {
      var k: nat :| Within(g, c, s, k);
      d := ReachesHasDist(g, c, s, k);
    } else {
      d := -1;
    }
  }

  lemma {:induction false} HasArgMin(g: Graph, c: Name, servers: seq<Name>) returns (r: Name)
    requires servers != []
    ensures IsArgMin(g, c, servers, r)
  {
    var m, d := Smallest(g, c, servers, |servers|);
    BestIsArgMin(g, c, servers, 0, m, d);
    assert servers[0..] == servers;
    r := servers[m];
  }

  lemma {:induction false} Smallest(g: Graph, c: Name, servers: seq<Name>, i: nat) returns (at: nat, d: int)
    requires 0 < i <= |servers|
    ensures at < i && BestFrom(g, c, servers, 0, at, i, d)
  {
    hide HasScore, BestFrom;
    var e := ScoreExists(g, c, servers[i - 1]);
    if i == 1 {
      BestMovesOn(g, c, servers, 0, 0, 0, 0, e);
      at, d := 0, e;
    } else {
      at, d := Smallest(g, c, servers, i - 1);
      BestMovesOn(g, c, servers, 0, at, i - 1, d, e);
      if e < d {
        at, d := i - 1, e;
      }
    }
  }

  // getBestServer for one client; nbrs is the completed graph it worked on.
  method GetBestServer(c: Name, servers: seq<Name>, log: seq<TextLsa>)
    returns (best: Option<Name>, ghost nbrs: Graph)
    ensures IsBackfill(Listed(Status(log)), nbrs)
    ensures best.None? <==> servers == []
    ensures best.Some? ==> IsPicked(nbrs, c, servers, best.value)
    ensures best.Some? && "" !in servers ==> IsArgMin(nbrs, c, servers, best.value)
  {
    var status: map<Name, Entry> := map[];
    for i := 0 to |log|
      invariant status == Status(log[..i])
    {
      assert log[..i + 1][..i] == log[..i];
      if log[i].sender !in status || LexLess(status[log[i].sender].seqText, log[i].seqText) {
        status := status[log[i].sender := Entry(log[i].seqText, log[i].neighbors)];
      }
    }
    assert log[..|log|] == log;
    var g := Backfill(Listed(status));
    nbrs := g;
    var dist := D.Dijkstra(g, c);
    best := PickServer(g, c, servers, dist);
    if best.Some? && "" !in servers {
      PickedIsArgMin(g, c, servers, best.value);
    }
  }

  // An unreachable server scores -1 and beats every reachable one, so the choice is a
  // nearest server exactly when every server can be reached.
  lemma ArgMinIsNearestIffAllReachable(g: Graph, c: Name, servers: seq<Name>, r: Name)
    requires IsArgMin(g, c, servers, r)
    ensures Nearest(g, Elements(servers), c, r) <==> forall s | s in servers :: Reaches(g, c, s)
  {
    var i, d :| 0 <= i < |servers| && servers[i] == r && HasScore(g, c, r, d) &&
      forall j, e | 0 <= j < |servers| && HasScore(g, c, servers[j], e) :: d <= e && (j < i ==> d < e);
    var goals := Elements(servers);
    if forall s | s in servers :: Reaches(g, c, s) {
      assert r in servers;
      forall t, j: nat | t in goals && j < d
        ensures !Within(g, c, t, j)
      {
        if Within(g, c, t, j) {
          var e := ReachesHasDist(g, c, t, j);
          var m :| 0 <= m < |servers| && servers[m] == t;
          assert HasScore(g, c, servers[m], e);
        }
      }
      assert FartherThan(g, goals, c, d);
    }
    if Nearest(g, goals, c, r) {
      assert Reaches(g, c, r);
      forall s | s in servers
        ensures Reaches(g, c, s)
      {
        var m :| 0 <= m < |servers| && servers[m] == s;
        if !Reaches(g, c, s) {
          assert HasScore(g, c, servers[m], -1);
        }
      }
    }
  }

  // With one reachable and one unreachable server the client is sent to the latter.
  lemma UnreachableServerWins(log: seq<TextLsa>, nbrs: Graph)
    requires log == [TextLsa("c", "0", ["s"])] && IsBackfill(Listed(Status(log)), nbrs)
    ensures Reaches(nbrs, "c", "s") && !Reaches(nbrs, "c", "t")
    ensures forall r :: IsArgMin(nbrs, "c", ["s", "t"], r) <==> r == "t"
  {
    assert log[..0] == [];
    assert Status(log) == map["c" := Entry("0", ["s"])];
    var listed := Listed(Status(log));
    assert listed == map["c" := ["s"]];
    EdgeIsWithin(nbrs, "c", "s");
    assert "s" !in listed && forall b :: b in Out(nbrs, "s") ==> b in listed;
    hide Within;
    forall k: nat
      ensures !Within(nbrs, "c", "t", k)
    {
      if Within(nbrs, "c", "t", k) {
        ClosedSetHoldsReachable(nbrs, "c", "t", k, {"c", "s"});
      }
    }
    var servers := ["s", "t"];
    assert HasScore(nbrs, "c", servers[1], -1);
    forall r | IsArgMin(nbrs, "c", servers, r)
      ensures r == "t"
    {
      ArgMinIsLeast(nbrs, "c", servers, r, 1, -1);
      assert servers[0] == "s";
    }
    forall j, e | 0 <= j < 2 && HasScore(nbrs, "c", servers[j], e)
      ensures -1 <= e && (j < 1 ==> -1 < e)
    {
    }
    assert IsArgMin(nbrs, "c", servers, "t");
  }

  lemma ArgMinIsLeast(g: Graph, c: Name, servers: seq<Name>, r: Name, j: nat, e: int)
    requires IsArgMin(g, c, servers, r) && j < |servers| && HasScore(g, c, servers[j], e)
    ensures r in servers && exists d :: HasScore(g, c, r, d) && d <= e
  {
  }
}
