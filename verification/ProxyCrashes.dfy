/** Runs that crash the proxy: a list reopened at another address, and one more client
    address than the throughput table can hold. With the latter a fixed server address is
    safe exactly for as many client addresses as the table has entries. */
module ProxyCrashes {
  import opened Wrappers
  import opened Slots
  import opened PoolSpec
  import opened ProxyRuns
  import opened ProxyLimits

  // ------------------------------------------------------------------ from idle and back

  // No client, no server, no connection.
  ghost predicate Idle(s: State, listen: int) {
    && Inv(s, listen) && InRange(s)
    && (forall i :: !LiveClient(s, i))
    && (forall i :: !LiveServer(s, i))
    && (forall i :: !LiveConn(s, i))
  }

  // One client at address ca and nothing else.
  ghost predicate OneClient(s: State, listen: int, ca: int, clitFd: int) {
    && Inv(s, listen) && InRange(s)
    && (forall i :: LiveClient(s, i) <==> i == 0)
    && (forall i :: !LiveServer(s, i))
    && (forall i :: !LiveConn(s, i))
    && LiveClient(s, 0) && s.clients[0].value == Client(clitFd, ca, 0)
  }

  // One client at address ca with one connection to a, and nothing else.
  ghost predicate OneConnection(s: State, listen: int, ca: int, clitFd: int, a: int, servFd: int) {
    && Inv(s, listen) && InRange(s)
    && (forall i :: LiveClient(s, i) <==> i == 0)
    && (forall i :: LiveServer(s, i) <==> i == 0)
    && (forall i :: LiveConn(s, i) <==> i == 0)
    && LiveClient(s, 0) && s.clients[0].value == Client(clitFd, ca, 1)
    && LiveServer(s, 0) && s.servers[0].value == Server(servFd, a, 1)
    && LiveConn(s, 0) && s.conns[0].value.clit == 0 && s.conns[0].value.serv == 0
  }

  predicate UsableFds(listen: int, fds: seq<int>) {
    && (forall i | 0 <= i < |fds| :: 0 <= fds[i] < FD_SETSIZE && fds[i] != listen)
    && (forall i, j | 0 <= i < j < |fds| :: fds[i] != fds[j])
  }

  lemma InitIdle(listen: int, alpha: real)
    requires ValidListener(listen)
    ensures Idle(Init(listen, alpha), listen)
    ensures forall a, b :: !HasThru(Init(listen, alpha), a, b)
  {
    InitSettled(listen, alpha);
  }

  lemma AcceptFirst(s: State, listen: int, ca: int, clitFd: int)
    requires Idle(s, listen) && UsableFds(listen, [clitFd])
    ensures var e := Accept(clitFd, ca);
            && Enabled(s, listen, e) && Step(s, e).Some? && OneClient(Step(s, e).value, listen, ca, clitFd)
            && forall a, b :: HasThru(Step(s, e).value, a, b) <==> HasThru(s, a, b)
  {
    var e := Accept(clitFd, ca);
    assert [clitFd][0] == clitFd;
    assert !HasFd(s, clitFd);
    StepKeeps(s, listen, e);
    StepInRange(s, listen, e);
    AdmissionGuardIsVacuous(s, listen);
    InvParts(s, listen);
    SameThrus(s, AddClient(s, clitFd, ca));
    hide Inv, InRange, HasThru, HasFd;
    assert FirstFree(s.clients) == 0 by {
      assert !LiveClient(s, 0);
    }
    var t := Step(s, e).value;
    assert t == AddClient(s, clitFd, ca);
    assert forall i :: LiveClient(t, i) <==> i == 0 || LiveClient(s, i);
    assert forall i :: LiveServer(t, i) <==> LiveServer(s, i);
    assert forall i :: LiveConn(t, i) <==> LiveConn(s, i);
  }

  // The first request, of whatever kind: it crashes iff it is for a video and the
  // throughput table is full without its pair.
  lemma RequestFirst(s: State, listen: int, ca: int, clitFd: int, a: int, servFd: int, video: bool)
    requires OneClient(s, listen, ca, clitFd) && UsableFds(listen, [clitFd, servFd])
    ensures var e := Request(0, a, servFd, true, video);
            && Enabled(s, listen, e)
            && (Step(s, e).None? <==> video && !HasThru(s, ca, a) && FirstFree(s.thrus) == |s.thrus|)
            && (Step(s, e).Some? ==>
                 && OneConnection(Step(s, e).value, listen, ca, clitFd, a, servFd)
                 && forall x, y :: HasThru(Step(s, e).value, x, y) <==>
                      HasThru(s, x, y) || (FirstFree(s.thrus) < |s.thrus| && x == ca && y == a))
  {
    var e := Request(0, a, servFd, true, video);
    assert [clitFd, servFd][0] == clitFd && [clitFd, servFd][1] == servFd;
    InvParts(s, listen);
    assert !HasFd(s, servFd);
    assert Enabled(s, listen, e);
    StepCrashesIff(s, listen, e);
    StepKeeps(s, listen, e);
    StepInRange(s, listen, e);
    StepHasEffect(s, listen, e);
    ClientLookup(s, listen, 0, a);
    assert ClientGetConn(s, clitFd, a) == -1;
    if Step(s, e).Some? {
      hide Inv, InRange, HasThru, HasFd, Enabled;
      FirstOpened(s, ca, clitFd, a, servFd, video);
    }
  }

  lemma FirstOpened(s: State, ca: int, clitFd: int, a: int, servFd: int, video: bool)
    requires Sized(s) && RefsLive(s) && ClientGetConn(s, clitFd, a) == -1
    requires (forall i :: LiveClient(s, i) <==> i == 0)
    requires LiveClient(s, 0) && s.clients[0].value == Client(clitFd, ca, 0)
    requires (forall i :: !LiveServer(s, i)) && forall i :: !LiveConn(s, i)
    ensures var r := Step(s, Request(0, a, servFd, true, video));
            r.Some? ==>
              && (forall i :: LiveClient(r.value, i) <==> i == 0)
              && (forall i :: LiveServer(r.value, i) <==> i == 0)
              && (forall i :: LiveConn(r.value, i) <==> i == 0)
              && r.value.clients[0].value == Client(clitFd, ca, 1)
              && r.value.servers[0].value == Server(servFd, a, 1)
              && r.value.conns[0].value.clit == 0 && r.value.conns[0].value.serv == 0
  {
    hide HasThru, GetThru;
    assert FirstFree(s.servers) == 0 by {
      assert !LiveServer(s, 0);
    }
    assert FirstFree(s.conns) == 0 by {
      assert !LiveConn(s, 0);
    }
    var t := OpenConn(s, 0, servFd, a);
    assert TryOpen(s, 0, servFd, a) == Some((t, 0));
    var r := Step(s, Request(0, a, servFd, true, video));
    if r.Some? {
      var u := r.value;
      assert u.clients == t.clients && u.servers == t.servers;
      assert forall i :: LiveConn(u, i) <==> LiveConn(t, i);
      assert forall i :: LiveClient(u, i) <==> LiveClient(s, i);
      assert forall i :: LiveServer(u, i) <==> i == 0 || LiveServer(s, i);
      assert forall i :: LiveConn(t, i) <==> i == 0 || LiveConn(s, i);
    }
  }

  // A useless response closes the only connection, and client and server with it.
  lemma CloseOnly(s: State, listen: int, ca: int, clitFd: int, a: int, servFd: int)
    requires OneConnection(s, listen, ca, clitFd, a, servFd)
    ensures var e := Respond(0, Useless);
            && Enabled(s, listen, e) && Step(s, e).Some? && Idle(Step(s, e).value, listen)
            && forall x, y :: HasThru(Step(s, e).value, x, y) <==> HasThru(s, x, y)
  {
    var e := Respond(0, Useless);
    InvParts(s, listen);
    StepKeeps(s, listen, e);
    StepInRange(s, listen, e);
    StepHasEffect(s, listen, e);
    ServerLookup(s, listen, 0);
    CloseConnShape(s, listen, 0);
    hide Inv, InRange, HasThru, CloseConn;
    var t := Step(s, e).value;
    assert t == CloseConn(s, 0);
    assert forall i :: LiveClient(t, i) ==> LiveClient(s, i) && i != 0;
    assert forall i :: LiveServer(t, i) ==> LiveServer(s, i) && i != 0;
    assert forall i :: LiveConn(t, i) ==> LiveConn(s, i) && i != 0;
  }

  // ------------------------------------------------------------------ filling the table

  // Each client comes in, asks for something and is turned out by a useless response.
  function Visits(addrs: seq<int>, www: int, clitFd: int, servFd: int): seq<Event> {
    if addrs == [] then []
    else
      Visits(addrs[..|addrs| - 1], www, clitFd, servFd)
        + [Accept(clitFd, addrs[|addrs| - 1])] + [Request(0, www, servFd, true, false)] + [Respond(0, Useless)]
  }

  // The throughput table holds these client addresses with www and nothing else.
  ghost predicate Holds(s: State, addrs: set<int>, www: int) {
    forall a, b :: HasThru(s, a, b) <==> a in addrs && b == www
  }

  function ClitOf(): Thru -> int {
    (t: Thru) => t.clitAddr
  }

  // So it is full exactly if there are as many of them as entries.
  lemma HoldsCount(s: State, listen: int, addrs: set<int>, www: int)
    requires Inv(s, listen) && Holds(s, addrs, www)
    ensures |addrs| <= FD_SETSIZE
    ensures FirstFree(s.thrus) == |s.thrus| <==> |addrs| == FD_SETSIZE
  {
    assert Sized(s) && ThruUnique(s);
    hide Inv;
    ClientsDiffer(s, addrs, www);
    KeysCount(s.thrus, ClitOf());
    LiveFillsTable(s.thrus);
    forall a
      ensures a in addrs <==> a in Keys(s.thrus, ClitOf())
    {
      if a in addrs {
        assert HasThru(s, a, www);
        var i :| Accepted(s.thrus, OfPair(a, www), i);
        assert ClitOf()(s.thrus[i].value) == a;
      }
      if a in Keys(s.thrus, ClitOf()) {
        var i :| 0 <= i < |s.thrus| && s.thrus[i].Some? && s.thrus[i].value.clitAddr == a;
        EntryHeld(s, i);
      }
    }
    assert addrs == Keys(s.thrus, ClitOf());
  }

  lemma EntryHeld(s: State, i: int)
    requires 0 <= i < |s.thrus| && s.thrus[i].Some?
    ensures HasThru(s, s.thrus[i].value.clitAddr, s.thrus[i].value.servAddr)
  {
    assert Accepted(s.thrus, OfPair(s.thrus[i].value.clitAddr, s.thrus[i].value.servAddr), i);
  }

  lemma ClientsDiffer(s: State, addrs: set<int>, www: int)
    requires ThruUnique(s) && Holds(s, addrs, www)
    ensures KeysDiffer(s.thrus, ClitOf())
  {
    hide HasThru;
    forall i, j | 0 <= i < j < |s.thrus| && s.thrus[i].Some? && s.thrus[j].Some?
      ensures s.thrus[i].value.clitAddr != s.thrus[j].value.clitAddr
    {
      EntryHeld(s, i);
      EntryHeld(s, j);
    }
  }

  // One more visit.
  lemma OneVisit(s0: State, listen: int, events: seq<Event>, addrs: set<int>, a: int, www: int,
                 clitFd: int, servFd: int)
    requires EnabledRun(s0, listen, events) && Run(s0, events).Some? && Idle(Run(s0, events).value, listen)
    requires Holds(Run(s0, events).value, addrs, www) && |addrs| < FD_SETSIZE
    requires UsableFds(listen, [clitFd, servFd])
    ensures var more := events + [Accept(clitFd, a)] + [Request(0, www, servFd, true, false)] + [Respond(0, Useless)];
            && EnabledRun(s0, listen, more) && Run(s0, more).Some? && Idle(Run(s0, more).value, listen)
            && Holds(Run(s0, more).value, addrs + {a}, www)
  {
    hide Inv, InRange, Enabled, Step, HasThru, FirstFree, EnabledRun, Run, OneClient, OneConnection, UsableFds;
    var e1, e2, e3 := Accept(clitFd, a), Request(0, www, servFd, true, false), Respond(0, Useless);
    var s := Run(s0, events).value;
    OneFd(listen, clitFd, servFd);
    HoldsCount(s, listen, addrs, www);
    AcceptFirst(s, listen, a, clitFd);
    RunMore(s0, listen, events, e1);
    var s1 := Step(s, e1).value;
    ClientInv(s1, listen, a, clitFd);
    assert Holds(s1, addrs, www);
    HoldsCount(s1, listen, addrs, www);
    RequestFirst(s1, listen, a, clitFd, www, servFd, false);
    RunMore(s0, listen, events + [e1], e2);
    var s2 := Step(s1, e2).value;
    CloseOnly(s2, listen, a, clitFd, www, servFd);
    RunMore(s0, listen, events + [e1] + [e2], e3);
  }

  lemma OneFd(listen: int, clitFd: int, servFd: int)
    requires UsableFds(listen, [clitFd, servFd])
    ensures UsableFds(listen, [clitFd])
  {
    assert [clitFd, servFd][0] == clitFd;
  }

  lemma ClientInv(s: State, listen: int, ca: int, clitFd: int)
    requires OneClient(s, listen, ca, clitFd)
    ensures Inv(s, listen)
  {
  }

  ghost predicate Distinct(addrs: seq<int>) {
    forall i, j | 0 <= i < j < |addrs| :: addrs[i] != addrs[j]
  }

  function AsSet(addrs: seq<int>): set<int> {
    set a | a in addrs
  }

  lemma AsSetSnoc(addrs: seq<int>)
    requires addrs != [] && Distinct(addrs)
    ensures var p, a := addrs[..|addrs| - 1], addrs[|addrs| - 1];
            Distinct(p) && AsSet(addrs) == AsSet(p) + {a} && a !in AsSet(p)
  {
    assert addrs == addrs[..|addrs| - 1] + [addrs[|addrs| - 1]];
  }

  lemma {:induction false} AsSetSize(addrs: seq<int>)
    requires Distinct(addrs)
    ensures |AsSet(addrs)| == |addrs|
  {
    if addrs != [] {
      AsSetSnoc(addrs);
      AsSetSize(addrs[..|addrs| - 1]);
    }
  }

  // Distinct client addresses fill the table one by one, with two descriptors.
  lemma {:induction false} VisitsFill(listen: int, alpha: real, addrs: seq<int>, www: int, clitFd: int, servFd: int)
    requires ValidListener(listen) && UsableFds(listen, [clitFd, servFd])
    requires Distinct(addrs) && |addrs| <= FD_SETSIZE
    ensures var s, events := Init(listen, alpha), Visits(addrs, www, clitFd, servFd);
            && EnabledRun(s, listen, events) && Run(s, events).Some? && Idle(Run(s, events).value, listen)
            && Holds(Run(s, events).value, AsSet(addrs), www)
    decreases |addrs|
  {
    hide Inv, InRange, HasThru, Init, Step, Enabled, UsableFds, Idle;
    if addrs == [] {
      InitIdle(listen, alpha);
    } else {
      var p, a := addrs[..|addrs| - 1], addrs[|addrs| - 1];
      AsSetSnoc(addrs);
      VisitsFill(listen, alpha, p, www, clitFd, servFd);
      AsSetSize(p);
      OneVisit(Init(listen, alpha), listen, Visits(p, www, clitFd, servFd), AsSet(p), a, www, clitFd, servFd);
    }
  }

  // One address more, and the next video request crashes the proxy.
  lemma OneTooMany(listen: int, alpha: real, addrs: seq<int>, a: int, www: int, clitFd: int, servFd: int)
    requires ValidListener(listen) && UsableFds(listen, [clitFd, servFd])
    requires Distinct(addrs) && |addrs| == FD_SETSIZE && a !in addrs
    ensures var s := Init(listen, alpha);
            var events := Visits(addrs, www, clitFd, servFd)
                            + [Accept(clitFd, a)] + [Request(0, www, servFd, true, true)];
            EnabledRun(s, listen, events) && Run(s, events) == None
  {
    hide Inv, InRange, HasThru, Init, Step, Enabled, UsableFds, Idle, FirstFree, Run, EnabledRun, OneClient;
    var s0, events := Init(listen, alpha), Visits(addrs, www, clitFd, servFd);
    var e1, e2 := Accept(clitFd, a), Request(0, www, servFd, true, true);
    VisitsFill(listen, alpha, addrs, www, clitFd, servFd);
    AsSetSize(addrs);
    OneFd(listen, clitFd, servFd);
    var s := Run(s0, events).value;
    AcceptFirst(s, listen, a, clitFd);
    RunMore(s0, listen, events, e1);
    var s1 := Step(s, e1).value;
    ClientInv(s1, listen, a, clitFd);
    HoldsCount(s1, listen, AsSet(addrs), www);
    RequestFirst(s1, listen, a, clitFd, www, servFd, true);
    RunMore(s0, listen, events + [e1], e2);
  }

  // ------------------------------------------------------------------ exactly FD_SETSIZE

  // All client addresses are from A, in the tables and in what comes.
  ghost predicate From(s: State, A: set<int>, www: int) {
    && (forall i | LiveClient(s, i) :: s.clients[i].value.addr in A)
    && (forall a, b | HasThru(s, a, b) :: a in A && b == www)
  }

  predicate ComesFrom(e: Event, A: set<int>) {
    NewClitAddrs(e) <= A
  }

  lemma FewAddressesFit(s: State, listen: int, A: set<int>, www: int, e: Event)
    requires Inv(s, listen) && From(s, A, www) && |A| <= FD_SETSIZE && UsesAddress(e, www)
    ensures !OverflowsThrus(s, e)
  {
    hide Inv, FirstFree;
    if OverflowsThrus(s, e) {
      var ca := s.clients[e.clit].value.addr;
      assert e.servAddr in NewServAddrs(e);
      var held := set a | a in A && HasThru(s, a, www);
      assert Holds(s, held, www);
      HoldsCount(s, listen, held, www);
      SubsetSize(held + {ca}, A);
      assert false;
    }
  }

  lemma StepFrom(s: State, listen: int, A: set<int>, www: int, e: Event)
    requires Inv(s, listen) && Enabled(s, listen, e) && From(s, A, www)
    requires UsesAddress(e, www) && ComesFrom(e, A)
    ensures Step(s, e).Some? ==> From(Step(s, e).value, A, www)
  {
    hide Inv, HasThru, Step, Enabled, FirstFree, NewFds;
    StepHasEffect(s, listen, e);
    if e.Request? {
      assert e.servAddr in NewServAddrs(e);
    }
  }

  ghost predicate FixedRun(events: seq<Event>, A: set<int>, www: int) {
    forall e | e in events :: UsesAddress(e, www) && ComesFrom(e, A)
  }

  lemma {:induction false} FewAddressesRun(s: State, listen: int, events: seq<Event>, A: set<int>, www: int)
    requires Settled(s, listen) && AtAddress(s, www) && From(s, A, www) && |A| <= FD_SETSIZE
    requires EnabledRun(s, listen, events) && FixedRun(events, A, www)
    ensures SafeRun(s, events) && NeverOverflows(s, events)
    ensures Settled(Run(s, events).value, listen) && From(Run(s, events).value, A, www)
  {
    hide Inv, Enabled, Step, InRange, PairsKnown, AtAddress, UsesAddress, ComesFrom, OverflowsThrus, From;
    FixedAddressRun(s, listen, events, www);
    if events != [] {
      var p, e := events[..|events| - 1], events[|events| - 1];
      assert events == p + [e];
      FewAddressesRun(s, listen, p, A, www);
      var u := Run(s, p).value;
      FewAddressesFit(u, listen, A, www, e);
      StepFrom(u, listen, A, www, e);
    }
  }

  // All runs with clients at addresses from A and servers at www are free of crashes.
  ghost predicate AlwaysSafe(listen: int, alpha: real, A: set<int>, www: int) {
    forall events | EnabledRun(Init(listen, alpha), listen, events) && FixedRun(events, A, www) ::
      Run(Init(listen, alpha), events).Some?
  }

  // With a fixed server address that is so exactly if A has no more addresses than the
  // throughput table has entries.
  lemma FixedAddressSafeIffFewClients(listen: int, alpha: real, A: set<int>, www: int)
    requires ValidListener(listen)
    ensures AlwaysSafe(listen, alpha, A, www) <==> |A| <= FD_SETSIZE
  {
    var s := Init(listen, alpha);
    InitSettled(listen, alpha);
    InitIdle(listen, alpha);
    assert AtAddress(s, www) && From(s, A, www);
    hide Settled, AtAddress, From, FixedRun, EnabledRun, SafeRun, NeverOverflows, Init, Idle, Run;
    if |A| <= FD_SETSIZE {
      forall events | EnabledRun(s, listen, events) && FixedRun(events, A, www)
        ensures Run(s, events).Some?
      {
        FewAddressesRun(s, listen, events, A, www);
        SafeIsAlive(s, events);
      }
    } else {
      var events := CrashingRun(listen, alpha, A, www);
      assert EnabledRun(s, listen, events) && FixedRun(events, A, www) && Run(s, events) == None;
    }
  }

  lemma SafeIsAlive(s: State, events: seq<Event>)
    requires SafeRun(s, events)
    ensures Run(s, events).Some?
  {
  }

  lemma CrashingRun(listen: int, alpha: real, A: set<int>, www: int) returns (events: seq<Event>)
    requires ValidListener(listen) && |A| > FD_SETSIZE
    ensures EnabledRun(Init(listen, alpha), listen, events) && FixedRun(events, A, www)
    ensures Run(Init(listen, alpha), events) == None
  {
    hide Init, EnabledRun, Run;
    var addrs := Pick(A, FD_SETSIZE);
    AsSetSize(addrs);
    var a := OneMore(A, addrs);
    var clitFd, servFd := if listen == 0 then 1 else 0, if listen <= 1 then 2 else 1;
    OneTooMany(listen, alpha, addrs, a, www, clitFd, servFd);
    VisitsFixed(addrs, A, www, clitFd, servFd);
    events := Visits(addrs, www, clitFd, servFd) + [Accept(clitFd, a)] + [Request(0, www, servFd, true, true)];
  }

  lemma OneMore(A: set<int>, addrs: seq<int>) returns (a: int)
    requires |addrs| < |A| && |AsSet(addrs)| == |addrs|
    ensures a in A && a !in addrs
  {
    var rest := A - AsSet(addrs);
    SubsetSize(A, AsSet(addrs) + rest);
    assert |AsSet(addrs) + rest| <= |addrs| + |rest|;
    a := AnElement(rest);
  }

  lemma {:induction false} Pick(A: set<int>, n: nat) returns (addrs: seq<int>)
    requires n <= |A|
    ensures |addrs| == n && Distinct(addrs) && forall a | a in addrs :: a in A
  {
    addrs := [];
    if n > 0 {
      var p := Pick(A, n - 1);
      AsSetSize(p);
      var a := OneMore(A, p);
      addrs := p + [a];
    }
  }

  lemma {:induction false} VisitsFixed(addrs: seq<int>, A: set<int>, www: int, clitFd: int, servFd: int)
    requires forall a | a in addrs :: a in A
    ensures FixedRun(Visits(addrs, www, clitFd, servFd), A, www)
  {
    if addrs != [] {
      VisitsFixed(addrs[..|addrs| - 1], A, www, clitFd, servFd);
      assert addrs[|addrs| - 1] in addrs;
    }
  }

  // ------------------------------------------------------------------ another address

  // A client comes in and asks for the list at address a; the reply makes the proxy
  // reopen at b, and the next video body crashes it.
  lemma RunIntoCrash(listen: int, alpha: real, ca: int, clitFd: int, a: int, servFd: int, b: int, newFd: int)
    requires a != b && ValidListener(listen) && UsableFds(listen, [clitFd, servFd, newFd])
    ensures var events := [Accept(clitFd, ca)] + [Request(0, a, servFd, true, false)]
                            + [Respond(0, ListXml([], Some((newFd, b))))] + [Respond(1, Body(1, 1.0, true))];
            EnabledRun(Init(listen, alpha), listen, events) && Run(Init(listen, alpha), events) == None
  {
    hide Inv, InRange, Init, Step, Enabled, Idle, OneClient, OneConnection, HasThru, FirstFree, UsableFds;
    var s0 := Init(listen, alpha);
    var e1, e2 := Accept(clitFd, ca), Request(0, a, servFd, true, false);
    var e3, e4 := Respond(0, ListXml([], Some((newFd, b)))), Respond(1, Body(1, 1.0, true));
    InitIdle(listen, alpha);
    TwoFds(listen, clitFd, servFd, newFd);
    AcceptFirst(s0, listen, ca, clitFd);
    RunMore(s0, listen, [], e1);
    assert [] + [e1] == [e1];
    var s1 := Step(s0, e1).value;
    ClientInv(s1, listen, ca, clitFd);
    assert Holds(s1, {}, a);
    HoldsCount(s1, listen, {}, a);
    RequestFirst(s1, listen, ca, clitFd, a, servFd, false);
    RunMore(s0, listen, [e1], e2);
    var s2 := Step(s1, e2).value;
    SecondConnection(s2, listen, ca, clitFd, a, servFd, b, newFd);
    RunMore(s0, listen, [e1] + [e2], e3);
    RunMore(s0, listen, [e1] + [e2] + [e3], e4);
  }

  lemma TwoFds(listen: int, clitFd: int, servFd: int, newFd: int)
    requires UsableFds(listen, [clitFd, servFd, newFd])
    ensures UsableFds(listen, [clitFd, servFd]) && UsableFds(listen, [clitFd])
  {
    var fds := [clitFd, servFd, newFd];
    assert fds[0] == clitFd && fds[1] == servFd && fds[2] == newFd;
  }

  lemma SecondConnection(s: State, listen: int, ca: int, clitFd: int, a: int, servFd: int, b: int, newFd: int)
    requires OneConnection(s, listen, ca, clitFd, a, servFd) && HasThru(s, ca, a) && !HasThru(s, ca, b)
    requires UsableFds(listen, [clitFd, servFd, newFd])
    ensures var e, e' := Respond(0, ListXml([], Some((newFd, b)))), Respond(1, Body(1, 1.0, true));
            && Enabled(s, listen, e) && Step(s, e).Some?
            && Enabled(Step(s, e).value, listen, e') && Step(Step(s, e).value, e') == None
  {
    var e := Respond(0, ListXml([], Some((newFd, b))));
    var fds := [clitFd, servFd, newFd];
    assert fds[0] == clitFd && fds[1] == servFd && fds[2] == newFd;
    InvParts(s, listen);
    assert !HasFd(s, newFd) && PairKnown(s, 0);
    hide Inv, InRange, HasThru, HasFd;
    assert !NeedsUnknownPair(s, e);
    RoomForServers(s, listen);
    StepKeeps(s, listen, e);
    ListReopened(s, listen, newFd, b);
    BodyOfUnknown(Step(s, e).value, listen, 1);
  }

  // What the list reply leaves behind.
  lemma ListReopened(s: State, listen: int, newFd: int, b: int)
    requires Inv(s, listen) && Sized(s) && LiveClient(s, 0)
    requires (forall i :: LiveServer(s, i) <==> i == 0) && forall i :: LiveConn(s, i) <==> i == 0
    requires LiveConn(s, 0) && s.conns[0].value.serv == 0 && s.conns[0].value.clit == 0
    requires !HasThru(s, s.clients[0].value.addr, b)
    ensures var r := Step(s, Respond(0, ListXml([], Some((newFd, b)))));
            r.Some? ==> LiveConn(r.value, 1) && r.value.conns[1].value.serv == 1 && !PairKnown(r.value, 1)
  {
    InvParts(s, listen);
    assert LiveServer(s, 0);
    ServerLookup(s, listen, 0);
    hide Inv, HasThru, OpenConn, GetThru;
    var s' := s.(rates := []);
    assert !LiveServer(s, 1) && !LiveConn(s, 1) && !LiveServer(s', 1) && !LiveConn(s', 1);
    OpenedSecond(s', newFd, b);
    var r := Step(s, Respond(0, ListXml([], Some((newFd, b)))));
    if r.Some? {
      assert r.value == OpenConn(s', 0, newFd, b);
      SameThrus(s, r.value);
    }
  }

  lemma BodyOfUnknown(t: State, listen: int, k: int)
    requires Inv(t, listen) && LiveConn(t, k) && !PairKnown(t, k)
    ensures var e := Respond(t.conns[k].value.serv, Body(1, 1.0, true));
            Enabled(t, listen, e) && Step(t, e) == None
  {
    var e := Respond(t.conns[k].value.serv, Body(1, 1.0, true));
    InvParts(t, listen);
    hide Inv, HasThru, Step;
    assert Enabled(t, listen, e) && NeedsUnknownPair(t, e);
    StepKeeps(t, listen, e);
  }

  lemma OpenedSecond(s: State, newFd: int, b: int)
    requires Sized(s) && LiveServer(s, 0) && !LiveServer(s, 1) && LiveConn(s, 0) && !LiveConn(s, 1)
    requires LiveClient(s, 0)
    ensures FirstFree(s.servers) < |s.servers|
    ensures var t := OpenConn(s, 0, newFd, b);
            && LiveConn(t, 1) && t.conns[1].value.clit == 0 && t.conns[1].value.serv == 1
            && LiveServer(t, 1) && t.servers[1].value.addr == b
            && LiveClient(t, 0) && t.clients[0].value.addr == s.clients[0].value.addr
            && t.thrus == s.thrus
  {
    assert FirstFree(s.servers) == 1 && FirstFree(s.conns) == 1;
  }
}
