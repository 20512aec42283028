/** The name server's breadth-first search against the grading harness's Dijkstra: two
    databases, two algorithms, and exactly when they measure the same distances. */
module RoutersAgree {
  import opened Wrappers
  import opened Graphs
  import L = LsaDatabase
  import B = BestServer
  import R = Routing
  import N = NearestServer
  import G = Generator
  import E = EndToEnd

  // ------------------------------------------------------------------ numbers as text

  predicate IsDigits(s: string) {
    s != [] && forall i | 0 <= i < |s| :: '0' <= s[i] <= '9'
  }

  function Digit(c: char): int {
    c as int - '0' as int
  }

  // What %d reads from a string of digits.
  function Value(s: string): int {
    if s == [] then 0 else 10 * Value(s[..|s| - 1]) + Digit(s[|s| - 1])
  }

  // The decimal text that %i prints.
  function Text(n: nat): (s: string)
    ensures s != []
  {
    var last := ['0' + (n % 10) as char];
    if n < 10 then last else Text(n / 10) + last
  }

  lemma {:induction false} TextIsDigits(n: nat)
    ensures IsDigits(Text(n))
    ensures n < 10 ==> |Text(n)| == 1
  {
    if n >= 10 {
      TextIsDigits(n / 10);
    }
  }

  lemma {:induction false} TextRoundTrip(n: nat)
    ensures Value(Text(n)) == n
  {
    var last := '0' + (n % 10) as char;
    assert Digit(last) == n % 10;
    if n >= 10 {
      TextRoundTrip(n / 10);
      assert Text(n)[..|Text(n)| - 1] == Text(n / 10);
    } else {
      assert Text(n) == [last] && Text(n)[..0] == [];
    }
  }

  lemma {:induction false} LexLessByLast(a: string, b: string, x: char, y: char)
    requires |a| == |b|
    ensures B.LexLess(a + [x], b + [y]) <==> B.LexLess(a, b) || (a == b && x < y)
  {
    if a == [] {
      assert a + [x] == [x] && b + [y] == [y];
    } else {
      assert (a + [x])[1..] == a[1..] + [x] && (b + [y])[1..] == b[1..] + [y];
      assert a == [a[0]] + a[1..] && b == [b[0]] + b[1..];
      LexLessByLast(a[1..], b[1..], x, y);
    }
  }

  // Comparing digit strings of equal width as text is comparing their values.
  lemma {:induction false} EqualWidthIsNumeric(a: string, b: string)
    requires |a| == |b|
    requires forall i | 0 <= i < |a| :: '0' <= a[i] <= '9' && '0' <= b[i] <= '9'
    ensures B.LexLess(a, b) <==> Value(a) < Value(b)
    ensures a == b <==> Value(a) == Value(b)
  {
    if a != [] {
      var p, q, x, y := a[..|a| - 1], b[..|b| - 1], a[|a| - 1], b[|b| - 1];
      assert a == p + [x] && b == q + [y];
      EqualWidthIsNumeric(p, q);
      LexLessByLast(p, q, x, y);
    }
  }

  // So the rounds 0, 1, ..., n-1 of the generator are in order as text iff n <= 10,
  // its default number of rounds.
  lemma RoundsInTextOrderIff(n: nat)
    ensures (forall i, j | 0 <= i < j < n :: B.LexLess(Text(i), Text(j))) <==> n <= 10
  {
    forall i, j | 0 <= i < j < n && n <= 10
      ensures B.LexLess(Text(i), Text(j))
    {
      TextIsDigits(i);
      TextIsDigits(j);
      TextRoundTrip(i);
      TextRoundTrip(j);
      EqualWidthIsNumeric(Text(i), Text(j));
    }
    if n > 10 {
      assert Text(9) == "9" && Text(1) == "1" && Text(10) == "10";
      assert !B.LexLess(Text(9), Text(10));
    }
  }

  // ------------------------------------------------------------------ the two databases

  // The log as the C router reads it.
  function Numeric(log: seq<B.TextLsa>): (r: seq<L.Lsa>)
    ensures |r| == |log|
  {
    seq(|log|, i requires 0 <= i < |log| => L.Lsa(log[i].sender, Value(log[i].seqText), log[i].neighbors))
  }

  ghost predicate EqualWidth(log: seq<B.TextLsa>, width: nat) {
    forall l | l in log :: IsDigits(l.seqText) && |l.seqText| == width
  }

  // Both databases store the same announcement of n, or none.
  ghost predicate SameRecord(status: map<Name, B.Entry>, n: Name, r: L.Rec) {
    if n in status then
      r == L.Rec(Value(status[n].seqText), L.Dedup(status[n].neighbors))
    else
      r == L.UNHEARD
  }

  lemma {:induction false} StatusTexts(log: seq<B.TextLsa>, width: nat, n: Name)
    requires EqualWidth(log, width) && n in B.Status(log)
    ensures IsDigits(B.Status(log)[n].seqText) && |B.Status(log)[n].seqText| == width
  {
    var p, l := log[..|log| - 1], log[|log| - 1];
    assert log == p + [l];
    assert l in log;
    if n in B.Status(p) {
      StatusTexts(p, width, n);
    }
  }

  lemma {:induction false} ValueNonNegative(s: string)
    requires forall i | 0 <= i < |s| :: '0' <= s[i] <= '9'
    ensures Value(s) >= 0
  {
    if s != [] {
      ValueNonNegative(s[..|s| - 1]);
    }
  }

  lemma {:induction false} SameRecords(db: L.Db, log: seq<B.TextLsa>, width: nat, n: Name)
    requires EqualWidth(log, width) && L.RecOf(db, n) == L.UNHEARD
    ensures SameRecord(B.Status(log), n, L.RecOf(L.AddLog(db, Numeric(log)), n))
  {
    if log != [] {
      var p, l := log[..|log| - 1], log[|log| - 1];
      assert log == p + [l];
      assert l in log;
      SameRecords(db, p, width, n);
      assert Numeric(log)[..|log| - 1] == Numeric(p);
      var c := Numeric(log)[|log| - 1];
      L.AddLsaRec(L.AddLog(db, Numeric(p)), c, n);
      ValueNonNegative(l.seqText);
      if n == l.sender && n in B.Status(p) {
        StatusTexts(p, width, n);
        EqualWidthIsNumeric(B.Status(p)[n].seqText, l.seqText);
      }
    }
  }

  // The router's graph is the completed graph with the silent nodes' lists blanked.
  lemma RouterIsMutedHarness(servers: seq<Name>, log: seq<B.TextLsa>, width: nat, nbrs: Graph)
    requires EqualWidth(log, width)
    requires B.IsBackfill(B.Listed(B.Status(log)), nbrs)
    ensures Muted(L.Boot(servers, Numeric(log)).Graph(), nbrs, B.Status(log).Keys)
  {
    var g := L.Boot(servers, Numeric(log)).Graph();
    forall n, x
      ensures x in Out(g, n) <==> n in B.Status(log).Keys && x in Out(nbrs, n)
    {
      L.ServersOnly(servers, n);
      SameRecords(L.AddServers(L.EMPTY, servers), log, width, n);
      L.BootedNode(servers, Numeric(log), n);
      if n in B.Status(log) {
        assert Out(nbrs, n) == B.Listed(B.Status(log))[n];
        L.DedupKeepsFirsts(Out(nbrs, n));
      }
    }
  }

  // Generated rounds below n, and their numbers as text: the two databases keep the same
  // announcement of every node, on every such log, iff n <= 10.
  ghost predicate RoundsBelow(log: seq<L.Lsa>, n: nat) {
    forall l | l in log :: 0 <= l.seqNum < n
  }

  ghost predicate KeepsSameRecords(servers: seq<Name>, log: seq<L.Lsa>)
    requires forall l | l in log :: l.seqNum >= 0
  {
    forall x :: SameRecord(B.Status(AsText(log)), x, L.RecOf(L.Boot(servers, log), x))
  }

  lemma TextOrderKeepsRecordsIff(servers: seq<Name>, n: nat)
    ensures (forall log | RoundsBelow(log, n) :: KeepsSameRecords(servers, log)) <==> n <= 10
  {
    hide KeepsSameRecords;
    if n <= 10 {
      forall log | RoundsBelow(log, n)
        ensures KeepsSameRecords(servers, log)
      {
        OneDigitRecords(servers, log);
      }
    } else {
      var log := [L.Lsa("x", 9, ["a"]), L.Lsa("x", 10, ["b"])];
      assert RoundsBelow(log, n);
      TenLosesToNine(servers, log);
    }
  }

  lemma OneDigitRecords(servers: seq<Name>, log: seq<L.Lsa>)
    requires RoundsBelow(log, 10)
    ensures KeepsSameRecords(servers, log)
  {
    var text := AsText(log);
    forall i | 0 <= i < |text|
      ensures IsDigits(text[i].seqText) && |text[i].seqText| == 1
    {
      assert log[i] in log;
      TextIsDigits(log[i].seqNum);
    }
    assert EqualWidth(text, 1);
    NumericAsText(log);
    forall x
      ensures SameRecord(B.Status(text), x, L.RecOf(L.Boot(servers, log), x))
    {
      L.ServersOnly(servers, x);
      SameRecords(L.AddServers(L.EMPTY, servers), text, 1, x);
    }
  }

  // The harness keeps round 9 where the C router goes on to round 10.
  lemma TenLosesToNine(servers: seq<Name>, log: seq<L.Lsa>)
    requires log == [L.Lsa("x", 9, ["a"]), L.Lsa("x", 10, ["b"])]
    ensures (forall l | l in log :: l.seqNum >= 0) && !KeepsSameRecords(servers, log)
  {
    var text := AsText(log);
    assert Text(9) == "9" && Text(1) == "1" && Text(10) == "10";
    assert text == [B.TextLsa("x", "9", ["a"]), B.TextLsa("x", "10", ["b"])];
    assert text[..1] == [text[0]] && text[..1][..0] == [];
    assert B.Status(text[..1]) == map["x" := B.Entry("9", ["a"])];
    assert B.Status(text)["x"].seqText == "9";
    var r := L.RecOf(L.Boot(servers, log), "x");
    L.BootedNode(servers, log, "x");
    assert log[1] in log;
    assert r.seqNum == 10;
    assert Value("9") == 9;
  }

  // ------------------------------------------------------------------ agreement

  // Any two announcing nodes that list the same silent node are within two hops.
  ghost predicate SilentBypassed(heard: Graph, g: Graph) {
    forall x, n, y | x in heard && y in heard && n !in heard && n in heard[x] && n in heard[y] :: Within(g, x, y, 2)
  }

  lemma BackfillBypass(heard: Graph, nbrs: Graph, g: Graph)
    requires B.IsBackfill(heard, nbrs)
    ensures Bypassed(g, nbrs, heard.Keys) <==> SilentBypassed(heard, g)
  {
    hide Within;
    if Bypassed(g, nbrs, heard.Keys) {
      forall x, n, y | x in heard && y in heard && n !in heard && n in heard[x] && n in heard[y]
        ensures Within(g, x, y, 2)
      {
        assert n in Out(nbrs, x) && y in Out(nbrs, n);
      }
    }
    if SilentBypassed(heard, g) {
      forall x, n, y | x in heard.Keys && n !in heard.Keys && n in Out(nbrs, x) && y in Out(nbrs, n)
        ensures Within(g, x, y, 2)
      {
        assert n in heard[x] && y in heard && n in heard[y];
      }
    }
  }

  // The back-filled lists change no distance, for any announcing node, exactly when
  // every silent node can be bypassed in the graph of announcements.
  lemma DistancesAgreeIff(servers: seq<Name>, log: seq<B.TextLsa>, width: nat, nbrs: Graph)
    requires EqualWidth(log, width)
    requires B.IsBackfill(B.Listed(B.Status(log)), nbrs)
    ensures var g := L.Boot(servers, Numeric(log)).Graph();
            SameDistancesFrom(g, nbrs, B.Status(log).Keys) <==> SilentBypassed(B.Listed(B.Status(log)), g)
  {
    var g := L.Boot(servers, Numeric(log)).Graph();
    var heard := B.Listed(B.Status(log));
    assert heard.Keys == B.Status(log).Keys;
    RouterIsMutedHarness(servers, log, width, nbrs);
    MutedIsThinned(g, nbrs, heard.Keys);
    SilenceHarmlessIffBypassed(g, nbrs, heard.Keys);
    BackfillBypass(heard, nbrs, g);
  }

  // In particular when every silent node is listed by at most one sender.
  lemma OneListerIsBypassed(heard: Graph, g: Graph)
    requires forall x, n, y | x in heard && y in heard && n !in heard && n in heard[x] && n in heard[y] :: x == y
    ensures SilentBypassed(heard, g)
  {
    forall x, n, y | x in heard && y in heard && n !in heard && n in heard[x] && n in heard[y]
      ensures Within(g, x, y, 2)
    {
      assert Within(g, x, x, 0);
      WithinMonotone(g, x, y, 0, 2);
    }
  }

  lemma EqualNearestDistance(h: Graph, goals: set<Name>, c: Name, r: Name, s: Name)
    requires Nearest(h, goals, c, r) && Nearest(h, goals, c, s)
    ensures exists d: nat :: IsDist(h, c, r, d) && IsDist(h, c, s, d)
  {
    var d: nat :| Within(h, c, r, d) && FartherThan(h, goals, c, d);
    var e: nat :| Within(h, c, s, e) && FartherThan(h, goals, c, e);
    assert d == e;
    assert IsDist(h, c, r, d) && IsDist(h, c, s, d);
  }

  // The two routers pick servers at the same hop distance, in both graphs: for every
  // announcing client, if all servers can be reached and silent nodes are bypassed.
  lemma RoutersPickEqualDistance(servers: seq<Name>, log: seq<B.TextLsa>, width: nat, nbrs: Graph, c: Name, best: Name)
    requires EqualWidth(log, width)
    requires B.IsBackfill(B.Listed(B.Status(log)), nbrs)
    requires SilentBypassed(B.Listed(B.Status(log)), L.Boot(servers, Numeric(log)).Graph())
    requires L.IsClient(servers, Numeric(log), c)
    requires B.IsArgMin(nbrs, c, servers, best)
    requires forall s | s in servers :: Reaches(nbrs, c, s)
    ensures R.Route(L.Boot(servers, Numeric(log)), c).Some?
    ensures var s := R.Route(L.Boot(servers, Numeric(log)), c).value;
            exists d: nat :: IsDist(nbrs, c, best, d) && IsDist(nbrs, c, s, d)
  {
    var g := L.Boot(servers, Numeric(log)).Graph();
    var heard := B.Status(log).Keys;
    DistancesAgreeIff(servers, log, width, nbrs);
    ClientAnnounced(log, width, servers, c);
    E.SameDistancesSameNearest(g, nbrs, heard, c, Elements(servers));
    R.RouteIsNearest(servers, Numeric(log), c);
    B.ArgMinIsNearestIffAllReachable(nbrs, c, servers, best);
    var route := R.Route(L.Boot(servers, Numeric(log)), c);
    assert best in servers;
    EqualNearestDistance(nbrs, Elements(servers), c, best, route.value);
  }

  lemma {:induction false} SendersHaveStatus(log: seq<B.TextLsa>, n: Name)
    requires exists l :: l in log && l.sender == n
    ensures n in B.Status(log)
  {
    var p, l := log[..|log| - 1], log[|log| - 1];
    assert log == p + [l];
    if n != l.sender {
      SendersHaveStatus(p, n);
    }
  }

  lemma ClientAnnounced(log: seq<B.TextLsa>, width: nat, servers: seq<Name>, c: Name)
    requires L.IsClient(servers, Numeric(log), c)
    ensures c in B.Status(log).Keys
  {
    var l :| l in Numeric(log) && l.sender == c;
    var i :| 0 <= i < |log| && Numeric(log)[i] == l;
    assert log[i] in log && log[i].sender == c;
    SendersHaveStatus(log, c);
  }

  // ------------------------------------------------------------------ generated logs

  // A log as printed: sequence numbers become text, of whatever width.
  function AsText(log: seq<L.Lsa>): (r: seq<B.TextLsa>)
    requires forall l | l in log :: l.seqNum >= 0
    ensures |r| == |log|
  {
    seq(|log|, i requires 0 <= i < |log| =>
      assert log[i] in log; B.TextLsa(log[i].sender, Text(log[i].seqNum), log[i].neighbors))
  }

  // On a log whose senders never change their lists, text order does no harm.
  lemma {:induction false} StatusOfSteadyLog(links: Graph, log: seq<B.TextLsa>, n: Name)
    requires forall l | l in log :: l.neighbors == Out(links, l.sender)
    ensures n in B.Status(log) <==> exists l :: l in log && l.sender == n
    ensures n in B.Status(log) ==> B.Status(log)[n].neighbors == Out(links, n)
  {
    if log != [] {
      var p, last := log[..|log| - 1], log[|log| - 1];
      assert log == p + [last];
      assert forall l :: l in log <==> l in p || l == last;
      StatusOfSteadyLog(links, p, n);
      if n == last.sender {
        assert last in log;
      }
    }
  }

  ghost predicate Printed(links: Graph, sink: Name, rounds: nat, lost: (nat, nat) -> bool, text: seq<B.TextLsa>) {
    var log := G.Log(links, sink, rounds, lost);
    (forall l | l in log :: l.seqNum >= 0) && text == AsText(log)
  }

  lemma PrintedStatus(links: Graph, sink: Name, rounds: nat, lost: (nat, nat) -> bool, text: seq<B.TextLsa>, n: Name)
    requires Printed(links, sink, rounds, lost, text)
    ensures n in B.Status(text) <==> n in E.Senders(G.Log(links, sink, rounds, lost))
    ensures n in B.Status(text) ==> B.Status(text)[n].neighbors == Out(links, n)
  {
    var log := G.Log(links, sink, rounds, lost);
    forall i | 0 <= i < |text|
      ensures text[i].neighbors == Out(links, text[i].sender) && text[i].sender in E.Senders(log)
    {
      assert log[i] in log;
      G.LogLines(links, sink, rounds, lost, log[i]);
    }
    StatusOfSteadyLog(links, text, n);
    if n in E.Senders(log) {
      var l :| l in log && l.sender == n;
      var i :| 0 <= i < |log| && log[i] == l;
      assert text[i] in text && text[i].sender == n;
    }
  }

  // What the C router reads is the log that was printed.
  lemma NumericIsPrinted(links: Graph, sink: Name, rounds: nat, lost: (nat, nat) -> bool, text: seq<B.TextLsa>)
    requires Printed(links, sink, rounds, lost, text)
    ensures Numeric(text) == G.Log(links, sink, rounds, lost)
  {
    NumericAsText(G.Log(links, sink, rounds, lost));
  }

  lemma NumericAsText(log: seq<L.Lsa>)
    requires forall l | l in log :: l.seqNum >= 0
    ensures Numeric(AsText(log)) == log
  {
    forall i | 0 <= i < |log|
      ensures Numeric(AsText(log))[i] == log[i]
    {
      assert log[i] in log;
      TextRoundTrip(log[i].seqNum);
    }
  }

  lemma PrintedLists(links: Graph, sink: Name, rounds: nat, lost: (nat, nat) -> bool, text: seq<B.TextLsa>)
    requires Printed(links, sink, rounds, lost, text)
    ensures B.Listed(B.Status(text)).Keys == E.Senders(G.Log(links, sink, rounds, lost))
    ensures forall n | n in B.Listed(B.Status(text)) :: B.Listed(B.Status(text))[n] == Out(links, n)
  {
    forall n
      ensures n in B.Status(text) <==> n in E.Senders(G.Log(links, sink, rounds, lost))
      ensures n in B.Status(text) ==> B.Status(text)[n].neighbors == Out(links, n)
    {
      PrintedStatus(links, sink, rounds, lost, text, n);
    }
  }

  // Completing the lists of the heard nodes restores all links but those between two
  // silent nodes.
  ghost predicate Completed(links: Graph, heard: set<Name>, nbrs: Graph) {
    && (forall n | n in heard :: Out(nbrs, n) == Out(links, n))
    && (forall n, y | n !in heard :: y in Out(nbrs, n) <==> y in heard && y in Out(links, n))
  }

  lemma BackfillCompletes(lines: seq<(Name, Name)>, sink: Name, rounds: nat, lost: (nat, nat) -> bool,
                          text: seq<B.TextLsa>, nbrs: Graph)
    requires Printed(G.Links(lines), sink, rounds, lost, text)
    requires B.IsBackfill(B.Listed(B.Status(text)), nbrs)
    ensures Completed(G.Links(lines), E.Senders(G.Log(G.Links(lines), sink, rounds, lost)), nbrs)
  {
    G.LinksSymmetric(lines);
    PrintedLists(G.Links(lines), sink, rounds, lost, text);
    BackfillOfLinks(G.Links(lines), B.Listed(B.Status(text)), nbrs);
  }

  lemma BackfillOfLinks(links: Graph, listed: Graph, nbrs: Graph)
    requires Symmetric(links) && B.IsBackfill(listed, nbrs)
    requires forall n | n in listed :: listed[n] == Out(links, n)
    ensures Completed(links, listed.Keys, nbrs)
  {
    forall n, y | n !in listed
      ensures y in Out(nbrs, n) <==> y in listed && y in Out(links, n)
    {
      if y in listed {
        assert n in Out(links, y) <==> y in Out(links, n);
      }
    }
  }

  lemma CompletedIsThinned(links: Graph, heard: set<Name>, nbrs: Graph)
    requires Completed(links, heard, nbrs)
    ensures Thinned(nbrs, links, heard)
    ensures Bypassed(nbrs, links, heard) <==> E.JoinsSilent(links, heard)
  {
    hide Within, LinkedAround;
    forall x, y | x in heard && y !in heard
      ensures Within(nbrs, x, y, 2) <==> LinkedAround(links, heard, x, y)
    {
      AroundIsTwoHops(nbrs, links, heard, x, y);
    }
    forall x, n, y | x in heard && n !in heard && y in heard && n in Out(links, x) && y in Out(links, n)
      ensures Within(nbrs, x, y, 2)
    {
      assert n in Out(nbrs, x) && y in Out(nbrs, n);
      EdgeIsWithin(nbrs, x, n);
      EdgeIsWithin(nbrs, n, y);
      WithinTransitive(nbrs, x, n, y, 1, 1);
    }
  }

  // Whatever is lost: the harness finds the network's own distances from the heard nodes
  // exactly when a silent node two links away from a heard one can be reached around the
  // silent node between them.
  lemma HarnessSeesNetworkIff(lines: seq<(Name, Name)>, sink: Name, rounds: nat, lost: (nat, nat) -> bool,
                              text: seq<B.TextLsa>, nbrs: Graph)
    requires Printed(G.Links(lines), sink, rounds, lost, text)
    requires B.IsBackfill(B.Listed(B.Status(text)), nbrs)
    ensures var links := G.Links(lines);
            var heard := E.Senders(G.Log(links, sink, rounds, lost));
            SameDistancesFrom(nbrs, links, heard) <==> E.JoinsSilent(links, heard)
  {
    var links := G.Links(lines);
    var heard := E.Senders(G.Log(links, sink, rounds, lost));
    BackfillCompletes(lines, sink, rounds, lost, text, nbrs);
    CompletedIsThinned(links, heard, nbrs);
    SilenceHarmlessIffBypassed(nbrs, links, heard);
  }

  // In particular, whatever the sink, if each node was heard once.
  lemma HarnessSeesNetwork(lines: seq<(Name, Name)>, sink: Name, rounds: nat, lost: (nat, nat) -> bool,
                           text: seq<B.TextLsa>, nbrs: Graph)
    requires Printed(G.Links(lines), sink, rounds, lost, text)
    requires G.AllHeard(G.Links(lines), sink, G.Log(G.Links(lines), sink, rounds, lost))
    requires B.IsBackfill(B.Listed(B.Status(text)), nbrs)
    ensures SameDistancesFrom(nbrs, G.Links(lines), Elements(G.RoundOrder(G.Links(lines), sink)))
  {
    HarnessSeesNetworkIff(lines, sink, rounds, lost, text, nbrs);
    E.AllHeardAreSenders(G.Links(lines), sink, rounds, lost);
    G.LinksSymmetric(lines);
    E.OnlySinkIsSilent(G.Links(lines), sink);
  }

  // And the two routers measure the same distances from the heard nodes exactly when any
  // two heard nodes joined by a silent one are linked around it.
  lemma GeneratedDistancesAgreeIff(lines: seq<(Name, Name)>, sink: Name, rounds: nat, lost: (nat, nat) -> bool,
                                   text: seq<B.TextLsa>, servers: seq<Name>, nbrs: Graph)
    requires Printed(G.Links(lines), sink, rounds, lost, text)
    requires B.IsBackfill(B.Listed(B.Status(text)), nbrs)
    ensures var links := G.Links(lines);
            var heard := E.Senders(G.Log(links, sink, rounds, lost));
            SameDistancesFrom(L.Boot(servers, Numeric(text)).Graph(), nbrs, heard) <==> E.JoinsHeard(links, heard)
  {
    var links := G.Links(lines);
    var heard := E.Senders(G.Log(links, sink, rounds, lost));
    var g := L.Boot(servers, Numeric(text)).Graph();
    NumericIsPrinted(links, sink, rounds, lost, text);
    BackfillCompletes(lines, sink, rounds, lost, text, nbrs);
    E.RouterSeesHeardLinks(links, sink, rounds, lost, servers);
    hide Within;
    MutedOfCompleted(links, heard, nbrs, g);
    SilenceHarmlessIffBypassed(g, nbrs, heard);
  }

  lemma MutedOfCompleted(links: Graph, heard: set<Name>, nbrs: Graph, g: Graph)
    requires Completed(links, heard, nbrs) && Muted(g, links, heard)
    ensures Thinned(g, nbrs, heard)
    ensures Bypassed(g, nbrs, heard) <==> E.JoinsHeard(links, heard)
  {
    hide Within, LinkedAround;
    MutedIsThinned(g, links, heard);
    forall x, y | x in heard
      ensures Within(g, x, y, 2) <==> LinkedAround(links, heard, x, y)
    {
      AroundIsTwoHops(g, links, heard, x, y);
    }
  }

  // If each node was heard once, that is the sink being dispensable.
  lemma GeneratedDistancesAgreeSinkIff(lines: seq<(Name, Name)>, sink: Name, rounds: nat, lost: (nat, nat) -> bool,
                                       text: seq<B.TextLsa>, servers: seq<Name>, nbrs: Graph)
    requires Printed(G.Links(lines), sink, rounds, lost, text)
    requires G.AllHeard(G.Links(lines), sink, G.Log(G.Links(lines), sink, rounds, lost))
    requires B.IsBackfill(B.Listed(B.Status(text)), nbrs)
    ensures var g, heard := L.Boot(servers, Numeric(text)).Graph(), Elements(G.RoundOrder(G.Links(lines), sink));
            SameDistancesFrom(g, nbrs, heard) <==> E.SinkDispensable(G.Links(lines), sink)
  {
    GeneratedDistancesAgreeIff(lines, sink, rounds, lost, text, servers, nbrs);
    E.AllHeardAreSenders(G.Links(lines), sink, rounds, lost);
    G.LinksSymmetric(lines);
    E.OnlySinkIsSilent(G.Links(lines), sink);
  }

  // On every generated log, whatever is lost: if the harness finds the network's distances
  // it sends a client to a nearest server exactly if that client can reach all servers; if
  // the C router finds them it does so as soon as any server can be reached.
  lemma BothRoutersAreRight(lines: seq<(Name, Name)>, sink: Name, rounds: nat, lost: (nat, nat) -> bool,
                            text: seq<B.TextLsa>, servers: seq<Name>, nbrs: Graph, c: Name, best: Name)
    requires Printed(G.Links(lines), sink, rounds, lost, text)
    requires B.IsBackfill(B.Listed(B.Status(text)), nbrs)
    requires L.IsClient(servers, Numeric(text), c)
    requires B.IsArgMin(nbrs, c, servers, best)
    ensures E.JoinsSilent(G.Links(lines), E.Senders(G.Log(G.Links(lines), sink, rounds, lost))) ==>
              (Nearest(G.Links(lines), Elements(servers), c, best) <==>
                forall s | s in servers :: Reaches(G.Links(lines), c, s))
    ensures E.SilentDispensable(G.Links(lines), E.Senders(G.Log(G.Links(lines), sink, rounds, lost))) ==>
              match R.Route(L.Boot(servers, Numeric(text)), c)
              case Some(s) => Nearest(G.Links(lines), Elements(servers), c, s)
              case None => forall s | s in servers :: !Reaches(G.Links(lines), c, s)
  {
    hide SameDistancesFrom, E.SilentDispensable, E.JoinsSilent, Printed, Nearest, Reaches, B.IsArgMin, R.Route, L.Boot;
    var links := G.Links(lines);
    var heard := E.Senders(G.Log(links, sink, rounds, lost));
    NumericIsPrinted(links, sink, rounds, lost, text);
    HarnessSeesNetworkIff(lines, sink, rounds, lost, text, nbrs);
    B.ArgMinIsNearestIffAllReachable(nbrs, c, servers, best);
    if E.JoinsSilent(links, heard) {
      E.SameDistancesSameNearest(nbrs, links, heard, c, Elements(servers));
    }
    if E.SilentDispensable(links, heard) {
      E.RouteIsNearestInNetwork(links, sink, rounds, lost, servers, c);
    }
  }
}
