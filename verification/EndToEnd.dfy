/** From the link file through the lossy announcement log to the answer of the name
    server: when the route is a nearest server of the network itself. */
module EndToEnd {
  import opened Wrappers
  import opened Graphs
  import opened LsaDatabase
  import opened Generator
  import R = Routing

  function Senders(log: seq<Lsa>): set<Name> {
    set l | l in log :: l.sender
  }

  // The graph the router builds from a log has exactly the heard nodes' links.
  lemma RouterSeesHeardLinks(links: Graph, sink: Name, rounds: nat, lost: (nat, nat) -> bool, servers: seq<Name>)
    ensures var log := Log(links, sink, rounds, lost); Muted(Boot(servers, log).Graph(), links, Senders(log))
  {
    var log := Log(links, sink, rounds, lost);
    var g := Boot(servers, log).Graph();
    forall n, x
      ensures x in Out(g, n) <==> n in Senders(log) && x in Out(links, n)
    {
      HeardNode(links, sink, rounds, lost, servers, n);
      DedupKeepsFirsts(Out(links, n));
    }
  }

  lemma HeardNode(links: Graph, sink: Name, rounds: nat, lost: (nat, nat) -> bool, servers: seq<Name>, n: Name)
    ensures var log := Log(links, sink, rounds, lost);
            Out(Boot(servers, log).Graph(), n) == if n in Senders(log) then Dedup(Out(links, n)) else []
  {
    var log := Log(links, sink, rounds, lost);
    var r := RecOf(Boot(servers, log), n);
    BootedNode(servers, log, n);
    if r.seqNum >= 0 {
      var i :| 0 <= i < |log| && FirstWithSeq(log, i, n, r);
      assert log[i] in log;
      LogLines(links, sink, rounds, lost, log[i]);
    } else {
      forall l | l in log
        ensures l.sender != n
      {
        LogLines(links, sink, rounds, lost, l);
      }
    }
  }

  // ------------------------------------------------------------------ any losses

  // The silent nodes are not missed: whatever two nodes they join, the first of them
  // heard, are linked around them. The second may be heard or silent.
  ghost predicate JoinsHeard(links: Graph, heard: set<Name>) {
    forall x, n, y | x in heard && n !in heard && y in heard && n in Out(links, x) && y in Out(links, n) ::
      LinkedAround(links, heard, x, y)
  }

  ghost predicate JoinsSilent(links: Graph, heard: set<Name>) {
    forall x, n, y | x in heard && n !in heard && y !in heard && n in Out(links, x) && y in Out(links, n) ::
      LinkedAround(links, heard, x, y)
  }

  ghost predicate SilentDispensable(links: Graph, heard: set<Name>) {
    JoinsHeard(links, heard) && JoinsSilent(links, heard)
  }

  // For every link graph and every loss pattern: the router measures the network's own
  // distances from every heard node exactly when the silent nodes are dispensable.
  lemma DistancesSurviveIff(links: Graph, sink: Name, rounds: nat, lost: (nat, nat) -> bool, servers: seq<Name>)
    ensures var log := Log(links, sink, rounds, lost);
            SameDistancesFrom(Boot(servers, log).Graph(), links, Senders(log)) <==>
              SilentDispensable(links, Senders(log))
  {
    var log := Log(links, sink, rounds, lost);
    var g, heard := Boot(servers, log).Graph(), Senders(log);
    RouterSeesHeardLinks(links, sink, rounds, lost, servers);
    MutedIsThinned(g, links, heard);
    SilenceHarmlessIffBypassed(g, links, heard);
    BypassedIffDispensable(g, links, heard);
  }

  lemma BypassedIffDispensable(g: Graph, links: Graph, heard: set<Name>)
    requires Muted(g, links, heard)
    ensures Bypassed(g, links, heard) <==> SilentDispensable(links, heard)
  {
    hide Within, LinkedAround;
    MutedIsThinned(g, links, heard);
    forall x, y | x in heard
      ensures Within(g, x, y, 2) <==> LinkedAround(links, heard, x, y)
    {
      AroundIsTwoHops(g, links, heard, x, y);
    }
  }

  // ------------------------------------------------------------------ only the sink silent

  // Two neighbours of the sink can do without it.
  ghost predicate JoinedWithout(links: Graph, sink: Name, x: Name, y: Name) {
    || x == y
    || y in Out(links, x)
    || exists m :: m != sink && m in Out(links, x) && y in Out(links, m)
  }

  // The sink is not missed if it has a self link, and so announces itself, or if all its
  // neighbours are joined without it.
  ghost predicate SinkDispensable(links: Graph, sink: Name) {
    || sink in Out(links, sink)
    || forall x, y | x in Out(links, sink) && y in Out(links, sink) :: JoinedWithout(links, sink, x, y)
  }

  lemma AllHeardAreSenders(links: Graph, sink: Name, rounds: nat, lost: (nat, nat) -> bool)
    requires AllHeard(links, sink, Log(links, sink, rounds, lost))
    ensures Senders(Log(links, sink, rounds, lost)) == Elements(RoundOrder(links, sink))
  {
    var log := Log(links, sink, rounds, lost);
    forall n
      ensures n in Senders(log) <==> n in RoundOrder(links, sink)
    {
      if n in Senders(log) {
        var l :| l in log && l.sender == n;
        LogLines(links, sink, rounds, lost, l);
      }
    }
  }

  lemma HeardAreReachable(links: Graph, sink: Name, n: Name)
    ensures n in RoundOrder(links, sink) ==> Reaches(links, sink, n)
    ensures Reaches(links, sink, n) && n != sink ==> n in RoundOrder(links, sink)
    ensures sink in RoundOrder(links, sink) <==> sink in Out(links, sink)
  {
    RoundHolds(links, sink, n);
    RoundHolds(links, sink, sink);
    assert Within(links, sink, sink, 0);
    if n in Out(links, sink) {
      ReachesNext(links, sink, sink, n);
    }
  }

  lemma AroundSink(links: Graph, sink: Name, x: Name, y: Name)
    requires Symmetric(links) && sink !in Out(links, sink) && x in Out(links, sink)
    ensures LinkedAround(links, Elements(RoundOrder(links, sink)), x, y) <==> JoinedWithout(links, sink, x, y)
  {
    HeardAreReachable(links, sink, sink);
    WithinZero(links, sink, sink);
    ReachesNext(links, sink, sink, x);
    forall m | m in Out(links, x)
      ensures m in RoundOrder(links, sink) <==> m != sink
    {
      ReachesNext(links, sink, x, m);
      HeardAreReachable(links, sink, m);
    }
  }

  // If every node a round announces was heard, the sink is the only silent node a heard
  // one is linked to; it is linked to heard nodes only.
  lemma OnlySinkIsSilent(links: Graph, sink: Name)
    requires Symmetric(links)
    ensures JoinsSilent(links, Elements(RoundOrder(links, sink)))
    ensures SilentDispensable(links, Elements(RoundOrder(links, sink))) <==> SinkDispensable(links, sink)
  {
    hide LinkedAround, JoinedWithout, RoundOrder;
    var heard := Elements(RoundOrder(links, sink));
    HeardAreReachable(links, sink, sink);
    forall x, n, y | x in heard && n !in heard && n in Out(links, x) && y in Out(links, n)
      ensures n == sink && sink !in Out(links, sink) && x in Out(links, sink) && y in heard
    {
      HeardAreReachable(links, sink, x);
      HeardAreReachable(links, sink, n);
      ReachesNext(links, sink, x, n);
      ReachesNext(links, sink, n, y);
      HeardAreReachable(links, sink, y);
    }
    if sink !in Out(links, sink) {
      forall x, y | x in Out(links, sink) && y in Out(links, sink)
        ensures LinkedAround(links, heard, x, y) <==> JoinedWithout(links, sink, x, y)
        ensures x in heard && y in heard && sink !in heard && sink in Out(links, x)
      {
        AroundSink(links, sink, x, y);
        RoundHolds(links, sink, x);
        RoundHolds(links, sink, y);
      }
    }
  }

  // So with losses that let each node through once, distances survive exactly when the
  // sink is dispensable.
  lemma DistancesSurviveSinkIff(lines: seq<(Name, Name)>, sink: Name, rounds: nat, lost: (nat, nat) -> bool,
                                servers: seq<Name>)
    requires AllHeard(Links(lines), sink, Log(Links(lines), sink, rounds, lost))
    ensures var links := Links(lines);
            var g := Boot(servers, Log(links, sink, rounds, lost)).Graph();
            SameDistancesFrom(g, links, Elements(RoundOrder(links, sink))) <==> SinkDispensable(links, sink)
  {
    var links := Links(lines);
    DistancesSurviveIff(links, sink, rounds, lost, servers);
    AllHeardAreSenders(links, sink, rounds, lost);
    LinksSymmetric(lines);
    OnlySinkIsSilent(links, sink);
  }

  // A sink with a single link, even a repeated one, is dispensable.
  lemma SingleLinkSinkDispensable(lines: seq<(Name, Name)>, sink: Name, v: Name)
    requires forall link | link in lines && (link.0 == sink || link.1 == sink) :: link == (sink, v) || link == (v, sink)
    ensures SinkDispensable(Links(lines), sink)
  {
    var links := Links(lines);
    forall x | x in Out(links, sink)
      ensures x == v
    {
      LinksMultiplicity(lines, sink, x);
      assert x in multiset(Out(links, sink));
      assert (sink, x) in multiset(lines) || (x, sink) in multiset(lines);
    }
  }

  // ------------------------------------------------------------------ routes

  // The main result: whatever is lost, if the silent nodes are dispensable every client's
  // route is a nearest server of the real network, or no server can be reached in it.
  lemma RouteIsNearestInNetwork(links: Graph, sink: Name, rounds: nat, lost: (nat, nat) -> bool,
                                servers: seq<Name>, c: Name)
    requires IsClient(servers, Log(links, sink, rounds, lost), c)
    requires SilentDispensable(links, Senders(Log(links, sink, rounds, lost)))
    ensures match R.Route(Boot(servers, Log(links, sink, rounds, lost)), c)
            case Some(s) => Nearest(links, Elements(servers), c, s)
            case None => forall s | s in servers :: !Reaches(links, c, s)
  {
    hide SilentDispensable, SameDistancesFrom, Nearest, Reaches;
    var log := Log(links, sink, rounds, lost);
    DistancesSurviveIff(links, sink, rounds, lost, servers);
    R.RouteIsNearest(servers, log, c);
    SameDistancesSameNearest(Boot(servers, log).Graph(), links, Senders(log), c, Elements(servers));
  }

  lemma ClientIsHeard(links: Graph, sink: Name, rounds: nat, lost: (nat, nat) -> bool, servers: seq<Name>, c: Name)
    requires IsClient(servers, Log(links, sink, rounds, lost), c)
    ensures c in RoundOrder(links, sink)
  {
    var l :| l in Log(links, sink, rounds, lost) && l.sender == c;
    LogLines(links, sink, rounds, lost, l);
  }

  lemma SameDistancesSameNearest(g: Graph, h: Graph, heard: set<Name>, c: Name, goals: set<Name>)
    requires SameDistancesFrom(g, h, heard) && c in heard
    ensures forall s :: Nearest(g, goals, c, s) <==> Nearest(h, goals, c, s)
    ensures forall s :: Reaches(g, c, s) <==> Reaches(h, c, s)
  {
    forall k: nat
      ensures FartherThan(g, goals, c, k) <==> FartherThan(h, goals, c, k)
    {
    }
    forall s
      ensures Nearest(g, goals, c, s) <==> Nearest(h, goals, c, s)
      ensures Reaches(g, c, s) <==> Reaches(h, c, s)
    {
      if Nearest(g, goals, c, s) {
        var k: nat :| Within(g, c, s, k) && FartherThan(g, goals, c, k);
        assert Within(h, c, s, k);
      }
      if Nearest(h, goals, c, s) {
        var k: nat :| Within(h, c, s, k) && FartherThan(h, goals, c, k);
        assert Within(g, c, s, k);
      }
      if k: nat :| Within(g, c, s, k) {
        assert Within(h, c, s, k);
      }
      if k: nat :| Within(h, c, s, k) {
        assert Within(g, c, s, k);
      }
    }
  }

  // And start-up succeeds as soon as one server is connected to the sink at all.
  lemma StartsWhenServerConnected(lines: seq<(Name, Name)>, sink: Name, rounds: nat, lost: (nat, nat) -> bool,
                                  servers: seq<Name>, s: Name)
    requires SilentDispensable(Links(lines), Senders(Log(Links(lines), sink, rounds, lost)))
    requires s in servers && Reaches(Links(lines), sink, s)
    ensures R.Ready(Boot(servers, Log(Links(lines), sink, rounds, lost)))
  {
    var links := Links(lines);
    var log := Log(links, sink, rounds, lost);
    var db := Boot(servers, log);
    forall c | c in db.clits
      ensures R.ServerFor(db, c).Some?
    {
      BootedNode(servers, log, c);
      RouteIsNearestInNetwork(links, sink, rounds, lost, servers, c);
      ClientReaches(lines, sink, rounds, lost, servers, c, s);
    }
  }

  lemma ClientReaches(lines: seq<(Name, Name)>, sink: Name, rounds: nat, lost: (nat, nat) -> bool,
                      servers: seq<Name>, c: Name, s: Name)
    requires IsClient(servers, Log(Links(lines), sink, rounds, lost), c)
    requires Reaches(Links(lines), sink, s)
    ensures Reaches(Links(lines), c, s)
  {
    var links := Links(lines);
    ClientIsHeard(links, sink, rounds, lost, servers, c);
    RoundHolds(links, sink, c);
    if c in Out(links, sink) {
      EdgeIsWithin(links, sink, c);
    }
    var j: nat :| Within(links, sink, c, j);
    var k: nat :| Within(links, sink, s, k);
    LinksSymmetric(lines);
    WithinSymmetric(links, sink, c, j);
    WithinTransitive(links, c, sink, s, j, k);
  }

  // ------------------------------------------------------------------ a sink that is missed

  // The smallest network with an indispensable sink: it joins a client and a server that
  // have no other link. Not one announcement is lost, and still start-up fails, although
  // the client can reach the server.
  lemma IndispensableSinkStopsServer(lines: seq<(Name, Name)>, rounds: nat, lost: (nat, nat) -> bool)
    requires lines == [("a", "k"), ("k", "s")]
    requires rounds > 0 && forall r, i :: !lost(r, i)
    ensures !SinkDispensable(Links(lines), "k")
    ensures AllHeard(Links(lines), "k", Log(Links(lines), "k", rounds, lost))
    ensures Reaches(Links(lines), "a", "s")
    ensures !R.Ready(Boot(["s"], Log(Links(lines), "k", rounds, lost)))
  {
    hide Within, RoundOrder, Links, Log, Boot, SinkDispensable, R.Ready, AllHeard, IsRouter;
    var links := Links(lines);
    var log := Log(links, "k", rounds, lost);
    SmallNetwork(lines);
    SmallSink(links);
    assert forall i: nat :: SparedOnce(rounds, lost, i) by {
      forall i: nat
        ensures SparedOnce(rounds, lost, i)
      {
        assert !lost(0, i);
      }
    }
    SparedOnceIsHeard(links, "k", rounds, lost);
    EdgeIsWithin(links, "a", "k");
    EdgeIsWithin(links, "k", "s");
    WithinTransitive(links, "a", "k", "s", 1, 1);
    SmallClient(lines, rounds, lost);
    RoundHolds(links, "k", "k");
    RouterSeesHeardLinks(links, "k", rounds, lost, ["s"]);
    AllHeardAreSenders(links, "k", rounds, lost);
    NothingBehindSink(Boot(["s"], log).Graph());
    R.ReadyIffAllClientsReach(["s"], log);
  }

  lemma NothingBehindSink(g: Graph)
    requires (forall x | x in Out(g, "a") :: x == "k") && forall x :: x !in Out(g, "k")
    ensures !Reaches(g, "a", "s")
  {
    hide Within;
    forall j: nat
      ensures !Within(g, "a", "s", j)
    {
      if Within(g, "a", "s", j) {
        ClosedSetHoldsReachable(g, "a", "s", j, {"a", "k"});
      }
    }
  }

  lemma SmallNetwork(lines: seq<(Name, Name)>)
    requires lines == [("a", "k"), ("k", "s")]
    ensures forall x :: x in Out(Links(lines), "a") <==> x == "k"
    ensures forall x :: x in Out(Links(lines), "k") <==> x == "a" || x == "s"
  {
    hide Links, Out;
    forall x
      ensures x in Out(Links(lines), "a") <==> x == "k"
      ensures x in Out(Links(lines), "k") <==> x == "a" || x == "s"
    {
      LinksMembers(lines, "a", x);
      LinksMembers(lines, "k", x);
      assert lines[0] == ("a", "k") && lines[1] == ("k", "s");
    }
  }

  lemma SmallSink(links: Graph)
    requires forall x :: x in Out(links, "a") <==> x == "k"
    requires forall x :: x in Out(links, "k") <==> x == "a" || x == "s"
    ensures !SinkDispensable(links, "k")
  {
    assert !JoinedWithout(links, "k", "a", "s");
  }

  lemma SmallClient(lines: seq<(Name, Name)>, rounds: nat, lost: (nat, nat) -> bool)
    requires "a" in Out(Links(lines), "k")
    requires AllHeard(Links(lines), "k", Log(Links(lines), "k", rounds, lost))
    ensures IsClient(["s"], Log(Links(lines), "k", rounds, lost), "a")
  {
    RoundHolds(Links(lines), "k", "a");
    assert !IsRouter("a");
  }
}
