/** What the size of the tables means for the proxy: servers and connections never run out
    of slots, throughput entries do, and a fixed server address is safe exactly for as many
    client addresses as there are entries. */
module ProxyLimits {
  import opened Wrappers
  import opened Slots
  import opened PoolSpec
  import opened ProxyRuns
  import Rates

  // ------------------------------------------------------------------ what a step can change

  // t has descriptors, server addresses, client addresses and pairs of s, and at most
  // these new ones; no pair is ever forgotten.
  ghost predicate Effect(s: State, t: State, fds: set<int>, servAddrs: set<int>, clitAddrs: set<int>,
                         pairs: set<(int, int)>)
  {
    && t.readSet <= s.readSet + fds
    && (forall i | LiveServer(t, i) ::
          || t.servers[i].value.addr in servAddrs
          || (LiveServer(s, i) && s.servers[i].value.addr == t.servers[i].value.addr))
    && (forall i | LiveClient(t, i) ::
          || t.clients[i].value.addr in clitAddrs
          || (LiveClient(s, i) && s.clients[i].value.addr == t.clients[i].value.addr))
    && (forall a, b :: HasThru(t, a, b) <==> HasThru(s, a, b) || (a, b) in pairs)
  }

  lemma EffectThen(s: State, t: State, u: State, fds: set<int>, servAddrs: set<int>, clitAddrs: set<int>,
                   pairs: set<(int, int)>, pairs': set<(int, int)>)
    requires Effect(s, t, fds, servAddrs, clitAddrs, pairs) && Effect(t, u, {}, {}, {}, pairs')
    ensures Effect(s, u, fds, servAddrs, clitAddrs, pairs + pairs')
  {
    hide HasThru;
  }

  lemma AcceptEffect(s: State, fd: int, addr: int)
    ensures Effect(s, AddClient(s, fd, addr), {fd}, {}, {addr}, {})
  {
    var t := AddClient(s, fd, addr);
    SameThrus(s, t);
    hide HasThru;
    assert forall i | LiveServer(t, i) :: LiveServer(s, i);
    assert forall i | LiveClient(t, i) :: i == FirstFree(s.clients) || LiveClient(s, i);
  }

  lemma OpenEffect(s: State, clit: int, fd: int, addr: int)
    ensures var open := TryOpen(s, clit, fd, addr);
            open.Some? ==> Effect(s, open.value.0, {fd}, {addr}, {}, {})
  {
    var open := TryOpen(s, clit, fd, addr);
    if open.Some? {
      var t := open.value.0;
      SameThrus(s, t);
      hide HasThru;
      assert forall i | LiveServer(t, i) :: i == FirstFree(s.servers) || LiveServer(s, i);
      assert forall i | LiveClient(t, i) :: LiveClient(s, i);
    }
  }

  lemma CloseEffect(s: State, listen: int, k: int)
    requires Inv(s, listen) && LiveConn(s, k)
    ensures TryClose(s, k).Some? && Effect(s, TryClose(s, k).value, {}, {}, {}, {})
  {
    hide HasThru, Inv, CloseConn;
    CloseKeeps(s, listen, k);
    CloseConnShape(s, listen, k);
    var t := CloseConn(s, k);
    SameThrus(s, t);
    CloseReads(s, k);
    assert forall i | LiveServer(t, i) :: LiveServer(s, i);
    assert forall i | LiveClient(t, i) :: LiveClient(s, i);
  }

  lemma CloseReads(s: State, k: int)
    requires LiveConn(s, k) && LiveClient(s, s.conns[k].value.clit) && LiveServer(s, s.conns[k].value.serv)
    ensures CloseConn(s, k).readSet <= s.readSet
  {
  }

  // Only throughput entries change.
  lemma ThruEffect(s: State, t: State, pairs: set<(int, int)>)
    requires t.clients == s.clients && t.servers == s.servers && t.readSet == s.readSet
    requires forall a, b :: HasThru(t, a, b) <==> HasThru(s, a, b) || (a, b) in pairs
    ensures Effect(s, t, {}, {}, {}, pairs)
  {
    hide HasThru;
    assert forall i | LiveServer(t, i) :: LiveServer(s, i);
    assert forall i | LiveClient(t, i) :: LiveClient(s, i);
  }

  lemma ForwardEffect(s: State, listen: int, clit: int, k: int, servAddr: int, video: bool)
    requires Inv(s, listen) && LiveConn(s, k) && LiveClient(s, clit) && s.conns[k].value.clit == clit
    requires LiveServer(s, s.conns[k].value.serv) && s.servers[s.conns[k].value.serv].value.addr == servAddr
    requires Sized(s)
    ensures var r, ca := Forward(s, clit, k, video), s.clients[clit].value.addr;
            r.Some? ==> Effect(s, r.value, {}, {}, {}, if FirstFree(s.thrus) < |s.thrus| then {(ca, servAddr)} else {})
  {
    hide HasThru, Inv, FirstFree;
    var r, ca := Forward(s, clit, k, video), s.clients[clit].value.addr;
    ForwardKeeps(s, listen, clit, k, servAddr, video);
    ForwardPairs(s, listen, clit, k, servAddr, video);
    if r.Some? {
      ThruEffect(s, r.value, if FirstFree(s.thrus) < |s.thrus| then {(ca, servAddr)} else {});
    }
  }

  lemma ForwardPairs(s: State, listen: int, clit: int, k: int, servAddr: int, video: bool)
    requires Inv(s, listen) && LiveConn(s, k) && LiveClient(s, clit) && s.conns[k].value.clit == clit
    requires LiveServer(s, s.conns[k].value.serv) && s.servers[s.conns[k].value.serv].value.addr == servAddr
    requires Sized(s)
    ensures var r, ca := Forward(s, clit, k, video), s.clients[clit].value.addr;
            r.Some? ==> forall a, b ::
              HasThru(r.value, a, b) <==>
                HasThru(s, a, b) || (FirstFree(s.thrus) < |s.thrus| && a == ca && b == servAddr)
  {
    hide HasThru, Inv, FirstFree, GetThru;
    InvParts(s, listen);
    var ca := s.clients[clit].value.addr;
    GetThruFinds(s, ca, servAddr);
    EnsureThru(s, listen, k, ca, servAddr);
    var i := GetThru(s, ca, servAddr);
    var t := if i == -1 then AddThru(s, ca, servAddr) else s;
    var j := if i == -1 then FirstFree(s.thrus) else i;
    if i == -1 && FirstFree(s.thrus) < |s.thrus| {
      AddThruInv(s, listen, ca, servAddr);
    }
    if 0 <= j < |t.thrus| && t.thrus[j].Some? {
      StatisticsKeep(t, SetRate(t, k, Rates.Choice(t.rates, t.thrus[j].value.avgPut)), listen, -1);
    }
  }

  ghost function NewFds(s: State, e: Event): set<int> {
    match e
    case Accept(fd, _) => {fd}
    case Request(_, _, newFd, _, _) => if OpensServer(s, e) then {newFd} else {}
    case Respond(_, reply) => if reply.ListXml? && reply.reopen.Some? then {reply.reopen.value.0} else {}
  }

  function NewServAddrs(e: Event): set<int> {
    match e
    case Accept(_, _) => {}
    case Request(_, servAddr, _, _, _) => {servAddr}
    case Respond(_, reply) => if reply.ListXml? && reply.reopen.Some? then {reply.reopen.value.1} else {}
  }

  function NewClitAddrs(e: Event): set<int> {
    if e.Accept? then {e.addr} else {}
  }

  // Requests with good headers add their pair, as long as there is room.
  ghost function NewPairs(s: State, e: Event): set<(int, int)> {
    if e.Request? && e.headersOk && LiveClient(s, e.clit) && FirstFree(s.thrus) < |s.thrus| then
      {(s.clients[e.clit].value.addr, e.servAddr)}
    else
      {}
  }

  ghost predicate StepEffect(s: State, t: State, e: Event) {
    Effect(s, t, NewFds(s, e), NewServAddrs(e), NewClitAddrs(e), NewPairs(s, e))
  }

  // In particular no step gives up a throughput entry.
  lemma StepHasEffect(s: State, listen: int, e: Event)
    requires Inv(s, listen) && Enabled(s, listen, e)
    ensures Step(s, e).Some? ==> StepEffect(s, Step(s, e).value, e)
  {
    hide Inv, Effect;
    InvParts(s, listen);
    match e
    case Accept(fd, addr) =>
      AdmissionGuardIsVacuous(s, listen);
      AcceptEffect(s, fd, addr);
    case Request(_, _, _, _, _) => RequestEffect(s, listen, e);
    case Respond(_, _) => RespondEffect(s, listen, e);
  }

  lemma RequestEffect(s: State, listen: int, e: Event)
    requires Inv(s, listen) && e.Request? && Enabled(s, listen, e)
    ensures Step(s, e).Some? ==> StepEffect(s, Step(s, e).value, e)
  {
    hide Inv, Effect, FirstFree, ClientGetConn, TryOpen, TryClose, Forward, HasFd;
    InvParts(s, listen);
    var clit, addr := e.clit, e.servAddr;
    var k := ClientGetConn(s, s.clients[clit].value.fd, addr);
    if k != -1 {
      ClientLookup(s, listen, clit, addr);
      if e.headersOk {
        ForwardEffect(s, listen, clit, k, addr, e.video);
      } else {
        CloseEffect(s, listen, k);
      }
      if Step(s, e).Some? {
        EffectWidens(s, Step(s, e).value, {}, {addr}, NewPairs(s, e));
      }
    } else if FirstFree(s.servers) < |s.servers| {
      OpenKeeps(s, listen, clit, e.newFd, addr);
      OpenEffect(s, clit, e.newFd, addr);
      var (t, m) := TryOpen(s, clit, e.newFd, addr).value;
      InvParts(t, listen);
      if e.headersOk {
        ForwardEffect(t, listen, clit, m, addr, e.video);
      } else {
        CloseEffect(t, listen, m);
      }
      if Step(s, e).Some? {
        EffectThen(s, t, Step(s, e).value, {e.newFd}, {addr}, {}, {}, NewPairs(s, e));
        assert {} + NewPairs(s, e) == NewPairs(s, e);
      }
    } else {
      NoRoomToOpen(s, clit, e.newFd, addr);
    }
  }

  lemma EffectWidens(s: State, t: State, fds: set<int>, servAddrs: set<int>, pairs: set<(int, int)>)
    requires Effect(s, t, {}, {}, {}, pairs)
    ensures Effect(s, t, fds, servAddrs, {}, pairs)
  {
    hide HasThru;
  }

  lemma RespondEffect(s: State, listen: int, e: Event)
    requires Inv(s, listen) && e.Respond? && Enabled(s, listen, e)
    ensures Step(s, e).Some? ==> StepEffect(s, Step(s, e).value, e)
  {
    hide Inv, Effect, FirstFree, ServerGetConn, GetThru, TryOpen, TryClose, HasFd, HasThru, Measure;
    InvParts(s, listen);
    ServerLookup(s, listen, e.serv);
    var k := ServerGetConn(s, s.servers[e.serv].value.fd);
    ThruLookup(s, listen, k);
    match e.reply
    case Useless => CloseEffect(s, listen, k);
    case PlainXml => ThruEffect(s, s, {});
    case ListXml(rates, reopen) =>
      var t := s.(rates := rates);
      RatesKeep(s, listen, rates, k);
      ThruEffect(s, t, {});
      if reopen.Some? {
        OpenEffect(t, s.conns[k].value.clit, reopen.value.0, reopen.value.1);
        var open := TryOpen(t, s.conns[k].value.clit, reopen.value.0, reopen.value.1);
        if open.Some? {
          SameBefore(s, t, open.value.0, {reopen.value.0}, {reopen.value.1});
        }
      }
    case Body(sum, elapsed, sent) =>
      if PairKnown(s, k) {
        var i := GetThru(s, s.clients[s.conns[k].value.clit].value.addr, s.servers[e.serv].value.addr);
        var t := Measure(s, k, i, Rates.Sample(sum, elapsed));
        MeasureEffect(s, listen, k, i, Rates.Sample(sum, elapsed));
        if !sent {
          CloseEffect(t, listen, k);
          EffectThen(s, t, TryClose(t, k).value, {}, {}, {}, {}, {});
          assert {} + NewPairs(s, e) == {};
        }
      }
  }

  lemma SameBefore(s: State, t: State, u: State, fds: set<int>, servAddrs: set<int>)
    requires Effect(s, t, {}, {}, {}, {}) && Effect(t, u, fds, servAddrs, {}, {})
    ensures Effect(s, u, fds, servAddrs, {}, {})
  {
    hide HasThru;
  }

  lemma MeasureEffect(s: State, listen: int, k: int, i: int, sample: real)
    requires Inv(s, listen) && LiveConn(s, k) && 0 <= i < |s.thrus| && s.thrus[i].Some?
    ensures Inv(Measure(s, k, i, sample), listen) && LiveConn(Measure(s, k, i, sample), k)
    ensures Effect(s, Measure(s, k, i, sample), {}, {}, {}, {})
  {
    hide Inv, HasThru;
    MeasureKeeps(s, listen, k, i, sample);
    ThruEffect(s, Measure(s, k, i, sample), {});
  }

  // ------------------------------------------------------------------ room for servers

  // Every descriptor in use fits into a descriptor set.
  ghost predicate InRange(s: State) {
    forall fd | fd in s.readSet :: 0 <= fd < FD_SETSIZE
  }

  function FdOf(): Server -> int {
    (v: Server) => v.fd
  }

  // Distinct descriptors in a range of FD_SETSIZE numbers, one of them the listener's, so
  // there is always a slot for one more server, and by RoomForConn for its connection.
  lemma RoomForServers(s: State, listen: int)
    requires Inv(s, listen) && InRange(s)
    ensures FirstFree(s.servers) < |s.servers|
  {
    var fds := Keys(s.servers, FdOf());
    assert Sized(s) && FdsDistinct(s, listen) && FdSets(s, listen);
    hide Inv;
    assert KeysDiffer(s.servers, FdOf()) by {
      forall i, j | 0 <= i < j < |s.servers| && s.servers[i].Some? && s.servers[j].Some?
        ensures s.servers[i].value.fd != s.servers[j].value.fd
      {
        assert LiveServer(s, i) && LiveServer(s, j);
      }
    }
    KeysCount(s.servers, FdOf());
    forall fd | fd in fds
      ensures fd in s.readSet && fd != listen
    {
      var i :| 0 <= i < |s.servers| && s.servers[i].Some? && s.servers[i].value.fd == fd;
      assert LiveServer(s, i) && HasFd(s, fd);
    }
    assert listen in s.readSet;
    BoundedSet(fds + {listen}, FD_SETSIZE);
    LiveFillsTable(s.servers);
  }

  function ClitFdOf(): Client -> int {
    (c: Client) => c.fd
  }

  // Likewise for one more client: nobody is ever turned away.
  lemma RoomForClients(s: State, listen: int)
    requires Inv(s, listen) && InRange(s)
    ensures FirstFree(s.clients) < |s.clients|
  {
    var fds := Keys(s.clients, ClitFdOf());
    assert Sized(s) && FdsDistinct(s, listen) && FdSets(s, listen);
    hide Inv;
    assert KeysDiffer(s.clients, ClitFdOf()) by {
      forall i, j | 0 <= i < j < |s.clients| && s.clients[i].Some? && s.clients[j].Some?
        ensures s.clients[i].value.fd != s.clients[j].value.fd
      {
        assert LiveClient(s, i) && LiveClient(s, j);
      }
    }
    KeysCount(s.clients, ClitFdOf());
    forall fd | fd in fds
      ensures fd in s.readSet && fd != listen
    {
      var i :| 0 <= i < |s.clients| && s.clients[i].Some? && s.clients[i].value.fd == fd;
      assert LiveClient(s, i) && HasFd(s, fd);
    }
    assert listen in s.readSet;
    BoundedSet(fds + {listen}, FD_SETSIZE);
    LiveFillsTable(s.clients);
  }

  lemma StepInRange(s: State, listen: int, e: Event)
    requires Inv(s, listen) && InRange(s) && Enabled(s, listen, e)
    ensures Step(s, e).Some? ==> InRange(Step(s, e).value)
  {
    hide Inv, Step;
    StepHasEffect(s, listen, e);
  }

  // So, whatever the addresses, an event crashes the proxy exactly if it needs the entry
  // of a pair that has none, because it is unknown or because the table is full.
  lemma StepCrashesIff(s: State, listen: int, e: Event)
    requires Inv(s, listen) && InRange(s) && Enabled(s, listen, e)
    ensures Step(s, e).None? <==> NeedsUnknownPair(s, e) || (OverflowsThrus(s, e) && e.video)
  {
    hide Inv, Step, Enabled, FirstFree;
    StepKeeps(s, listen, e);
    RoomForServers(s, listen);
  }

  // Between events of a run that has not crashed.
  ghost predicate Settled(s: State, listen: int) {
    Quiescent(s, listen) && InRange(s)
  }

  lemma SettledStep(s: State, listen: int, e: Event)
    requires Settled(s, listen) && Enabled(s, listen, e)
    ensures (Step(s, e).Some? && Settled(Step(s, e).value, listen)) <==> !OpensUnknownPair(s, e)
  {
    hide Inv, Step, Enabled, FirstFree, PairsKnown, OverflowsThrus, ReopensUnknownPair;
    QuiescentStep(s, listen, e);
    RoomForServers(s, listen);
    StepInRange(s, listen, e);
  }

  // ------------------------------------------------------------------ all runs

  ghost predicate ValidListener(listen: int) {
    0 <= listen < FD_SETSIZE
  }

  lemma InitSettled(listen: int, alpha: real)
    requires ValidListener(listen)
    ensures Settled(Init(listen, alpha), listen)
  {
    InitInv(listen, alpha);
  }

  // Whatever the addresses and however full the tables, as long as a run has not crashed:
  // reference counts are exact, no index dangles, every server has one connection, and
  // select() watches exactly the live descriptors.
  lemma {:induction false} ProxyIsConsistent(listen: int, alpha: real, events: seq<Event>)
    requires ValidListener(listen) && EnabledRun(Init(listen, alpha), listen, events)
    ensures Run(Init(listen, alpha), events).Some? ==>
              Inv(Run(Init(listen, alpha), events).value, listen) && InRange(Run(Init(listen, alpha), events).value)
    decreases |events|
  {
    hide Inv, Enabled, Step, InRange, Init;
    var s := Init(listen, alpha);
    if events == [] {
      InitSettled(listen, alpha);
    } else {
      var p := events[..|events| - 1];
      ProxyIsConsistent(listen, alpha, p);
      if Run(s, p).Some? {
        StepKeeps(Run(s, p).value, listen, events[|events| - 1]);
        StepInRange(Run(s, p).value, listen, events[|events| - 1]);
      }
    }
  }

  // No prefix of the run has crashed or left a pair unknown.
  ghost predicate SafeRun(s: State, events: seq<Event>) {
    && (events != [] ==> SafeRun(s, events[..|events| - 1]))
    && Run(s, events).Some? && PairsKnown(Run(s, events).value)
  }

  // No event opens a pair unknown in the state the previous ones lead to.
  ghost predicate FamiliarRun(s: State, events: seq<Event>) {
    events != [] ==>
      && FamiliarRun(s, events[..|events| - 1])
      && (var t := Run(s, events[..|events| - 1]);
          t.Some? ==> !OpensUnknownPair(t.value, events[|events| - 1]))
  }

  // A run stays safe throughout exactly if none of its events opens an unknown pair, by
  // reopening at an unknown address or by overflowing the throughput table.
  lemma {:induction false} SafeIffFamiliar(s: State, listen: int, events: seq<Event>)
    requires Settled(s, listen) && EnabledRun(s, listen, events)
    ensures SafeRun(s, events) <==> FamiliarRun(s, events)
    ensures SafeRun(s, events) ==> Settled(Run(s, events).value, listen)
  {
    hide Inv, Enabled, Step, InRange, PairsKnown, OpensUnknownPair;
    if events != [] {
      var p := events[..|events| - 1];
      SafeIffFamiliar(s, listen, p);
      if SafeRun(s, p) {
        var u, e := Run(s, p).value, events[|events| - 1];
        SettledStep(u, listen, e);
        StepKeeps(u, listen, e);
        StepInRange(u, listen, e);
      }
    }
  }

  lemma ProxyIsSafeIff(listen: int, alpha: real, events: seq<Event>)
    requires ValidListener(listen) && EnabledRun(Init(listen, alpha), listen, events)
    ensures SafeRun(Init(listen, alpha), events) <==> FamiliarRun(Init(listen, alpha), events)
  {
    hide SafeRun, FamiliarRun, EnabledRun, Init, Settled;
    InitSettled(listen, alpha);
    SafeIffFamiliar(Init(listen, alpha), listen, events);
  }

  // ------------------------------------------------------------------ possible crashes

  // A client could ask for a new pair, but the throughput table is full.
  ghost predicate Exhausted(s: State, listen: int) {
    && FirstFree(s.thrus) == |s.thrus|
    && (exists i :: LiveClient(s, i))
    && exists fd :: FreshFd(s, listen, fd)
  }

  // Some enabled event would crash the proxy exactly if some pair is unknown, or the
  // throughput table is exhausted.
  lemma CrashPossibleIff(s: State, listen: int)
    requires Inv(s, listen) && InRange(s)
    ensures (exists e :: Enabled(s, listen, e) && Step(s, e).None?) <==> !PairsKnown(s) || Exhausted(s, listen)
  {
    hide Inv, Step, PairKnown, InRange, FirstFree, HasThru;
    InvParts(s, listen);
    forall e | Enabled(s, listen, e) && Step(s, e).None?
      ensures !PairsKnown(s) || Exhausted(s, listen)
    {
      StepCrashesIff(s, listen, e);
      if NeedsUnknownPair(s, e) {
        var k :| LiveConn(s, k) && s.conns[k].value.serv == e.serv && !PairKnown(s, k);
        assert k != -1;
      } else {
        OverflowCase(s, listen, e);
      }
    }
    if !PairsKnown(s) {
      var k :| LiveConn(s, k) && k != -1 && !PairKnown(s, k);
      var e := Respond(s.conns[k].value.serv, Body(1, 1.0, true));
      assert LiveServer(s, s.conns[k].value.serv);
      assert Enabled(s, listen, e) && NeedsUnknownPair(s, e);
      StepCrashesIff(s, listen, e);
    }
    if Exhausted(s, listen) {
      var i :| LiveClient(s, i);
      var fd :| FreshFd(s, listen, fd);
      var addr := UnusedAddress(s);
      var e := Request(i, addr, fd, true, true);
      assert Enabled(s, listen, e) && OverflowsThrus(s, e);
      StepCrashesIff(s, listen, e);
    }
  }

  lemma OverflowCase(s: State, listen: int, e: Event)
    requires Inv(s, listen) && Enabled(s, listen, e) && OverflowsThrus(s, e)
    ensures !PairsKnown(s) || Exhausted(s, listen)
  {
    hide Inv, FirstFree, HasThru;
    InvParts(s, listen);
    var k := ClientGetConn(s, s.clients[e.clit].value.fd, e.servAddr);
    if k != -1 {
      ClientLookup(s, listen, e.clit, e.servAddr);
      PairOf(s, k);
    }
  }

  // There is always an address that no pair has.
  lemma UnusedAddress(s: State) returns (addr: int)
    ensures forall a :: !HasThru(s, a, addr)
  {
    addr := AboveAll(s.thrus);
  }

  lemma {:induction false} AboveAll(thrus: seq<Option<Thru>>) returns (b: int)
    ensures forall j | 0 <= j < |thrus| && thrus[j].Some? :: thrus[j].value.servAddr < b
  {
    if thrus == [] {
      b := 0;
    } else {
      var n := |thrus| - 1;
      b := AboveAll(thrus[..n]);
      assert forall j | 0 <= j < n :: thrus[j] == thrus[..n][j];
      if thrus[n].Some? && thrus[n].value.servAddr >= b {
        b := thrus[n].value.servAddr + 1;
      }
    }
  }

  // So from a settled state an event makes a crash possible exactly if it crashes itself,
  // opens an unknown pair, or leaves the table exhausted.
  lemma CrashPossibleAfterIff(s: State, listen: int, e: Event)
    requires Settled(s, listen) && Enabled(s, listen, e) && Step(s, e).Some?
    ensures (exists e' :: Enabled(Step(s, e).value, listen, e') && Step(Step(s, e).value, e').None?) <==>
              OpensUnknownPair(s, e) || Exhausted(Step(s, e).value, listen)
  {
    hide Inv, Step, PairsKnown, Enabled, OpensUnknownPair, Exhausted, InRange;
    SettledStep(s, listen, e);
    StepKeeps(s, listen, e);
    StepInRange(s, listen, e);
    CrashPossibleIff(Step(s, e).value, listen);
  }

  // ------------------------------------------------------------------ one fixed address

  ghost predicate AtAddress(s: State, www: int) {
    forall i | LiveServer(s, i) :: s.servers[i].value.addr == www
  }

  // The proxy was started with a server address: nothing is ever resolved.
  predicate UsesAddress(e: Event, www: int) {
    forall a | a in NewServAddrs(e) :: a == www
  }

  lemma StepAddress(s: State, listen: int, e: Event, www: int)
    requires Inv(s, listen) && Enabled(s, listen, e) && AtAddress(s, www) && UsesAddress(e, www)
    ensures Step(s, e).Some? ==> AtAddress(Step(s, e).value, www)
  {
    hide Inv, Step, Enabled, HasThru, NewServAddrs, NewPairs, NewFds;
    StepHasEffect(s, listen, e);
  }

  // Then no unknown pair can be reopened.
  lemma FixedAddressReopensKnown(s: State, e: Event, www: int)
    requires PairsKnown(s) && AtAddress(s, www) && UsesAddress(e, www)
    ensures !ReopensUnknownPair(s, e)
  {
    hide HasThru;
    if e.Respond? && e.reply.ListXml? && e.reply.reopen.Some? {
      assert e.reply.reopen.value.1 in NewServAddrs(e);
      forall k | LiveConn(s, k)
        ensures PairKnown(s, k) && LiveServer(s, s.conns[k].value.serv)
      {
      }
    }
  }

  // No event of the run adds a pair to a full throughput table.
  ghost predicate NeverOverflows(s: State, events: seq<Event>) {
    events != [] ==>
      && NeverOverflows(s, events[..|events| - 1])
      && (var t := Run(s, events[..|events| - 1]);
          t.Some? ==> !OverflowsThrus(t.value, events[|events| - 1]))
  }

  // With a fixed server address a run stays safe throughout exactly if no new pair of
  // addresses arrives at a full throughput table.
  lemma {:induction false} FixedAddressRun(s: State, listen: int, events: seq<Event>, www: int)
    requires Settled(s, listen) && AtAddress(s, www)
    requires EnabledRun(s, listen, events) && forall e | e in events :: UsesAddress(e, www)
    ensures SafeRun(s, events) <==> NeverOverflows(s, events)
    ensures SafeRun(s, events) ==> Settled(Run(s, events).value, listen) && AtAddress(Run(s, events).value, www)
  {
    hide Inv, Enabled, Step, InRange, PairsKnown, AtAddress, UsesAddress, OverflowsThrus, ReopensUnknownPair;
    if events != [] {
      var p, e := events[..|events| - 1], events[|events| - 1];
      assert events == p + [e];
      FixedAddressRun(s, listen, p, www);
      if SafeRun(s, p) {
        var u := Run(s, p).value;
        FixedAddressReopensKnown(u, e, www);
        SettledStep(u, listen, e);
        StepKeeps(u, listen, e);
        StepInRange(u, listen, e);
        StepAddress(u, listen, e, www);
      }
    }
  }

  lemma FixedAddressIsSafeIff(listen: int, alpha: real, www: int, events: seq<Event>)
    requires ValidListener(listen) && EnabledRun(Init(listen, alpha), listen, events)
    requires forall e | e in events :: UsesAddress(e, www)
    ensures SafeRun(Init(listen, alpha), events) <==> NeverOverflows(Init(listen, alpha), events)
  {
    var s := Init(listen, alpha);
    assert AtAddress(s, www);
    hide SafeRun, NeverOverflows, EnabledRun, Init, Settled, AtAddress;
    InitSettled(listen, alpha);
    FixedAddressRun(s, listen, events, www);
  }
}
