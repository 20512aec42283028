/** The proxy's event handlers as steps of a state machine that can crash, and what
    every run of them keeps. */
module ProxyRuns {
  import opened Wrappers
  import opened Slots
  import opened PoolSpec
  import Rates

  // ------------------------------------------------------------------ handlers

  // What a server's response amounts to. A reopening list reply carries the descriptor
  // and address of the new connection. A body is always a video: other types are useless.
  datatype Reply =
    | Useless
    | PlainXml
    | ListXml(rates: seq<int>, reopen: Option<(int, int)>)
    | Body(sum: int, elapsed: real, sent: bool)

  datatype Event =
    | Accept(fd: int, addr: int)
    | Request(clit: int, servAddr: int, newFd: int, headersOk: bool, video: bool)
    | Respond(serv: int, reply: Reply)

  // None stands for a crash: an index of -1, a null table entry or a failed assertion.
  ghost function TryClose(s: State, k: int): Option<State> {
    if !LiveConn(s, k) then None
    else
      var c := s.conns[k].value;
      if !LiveClient(s, c.clit) || !LiveServer(s, c.serv) then None
      else if s.clients[c.clit].value.numServ <= 0 || s.servers[c.serv].value.numClit <= 0 then None
      else Some(CloseConn(s, k))
  }

  ghost function TryOpen(s: State, clit: int, fd: int, addr: int): Option<(State, int)> {
    if !LiveClient(s, clit) || FirstFree(s.servers) == |s.servers| || FirstFree(s.conns) == |s.conns| then None
    else Some((OpenConn(s, clit, fd, addr), FirstFree(s.conns)))
  }

  function SetRate(s: State, k: int, rate: int): State
    requires LiveConn(s, k)
  {
    s.(conns := s.conns[k := Some(s.conns[k].value.(curBitrate := rate))])
  }

  function Measure(s: State, k: int, i: int, sample: real): State
    requires LiveConn(s, k) && 0 <= i < |s.thrus| && s.thrus[i].Some?
  {
    var t := s.thrus[i].value;
    s.(conns := s.conns[k := Some(s.conns[k].value.(tPut := Rates.Trunc(sample)))],
       thrus := s.thrus[i := Some(t.(avgPut := Rates.NewAverage(s.alpha, t.avgPut, sample)))])
  }

  // The tail of client2server, on an open connection k of the client with good headers.
  // Only a video request looks into the throughput entry.
  ghost function Forward(s: State, clit: int, k: int, video: bool): Option<State>
    requires Sized(s)
  {
    if !LiveConn(s, k) || !LiveClient(s, clit) || !LiveServer(s, s.conns[k].value.serv) then None
    else
      var ca, sa := s.clients[clit].value.addr, s.servers[s.conns[k].value.serv].value.addr;
      var i := GetThru(s, ca, sa);
      var t := if i == -1 then AddThru(s, ca, sa) else s;
      var j := if i == -1 then FirstFree(s.thrus) else i;
      if !video then Some(t)
      else if !(0 <= j < |t.thrus|) || t.thrus[j].None? then None
      else Some(SetRate(t, k, Rates.Choice(t.rates, t.thrus[j].value.avgPut)))
  }

  ghost function Client2Server(s: State, clit: int, servAddr: int, newFd: int, headersOk: bool, video: bool)
    : Option<State>
  {
    if !Sized(s) || !RefsLive(s) || !LiveClient(s, clit) then None
    else
      var k := ClientGetConn(s, s.clients[clit].value.fd, servAddr);
      var open := if k == -1 then TryOpen(s, clit, newFd, servAddr) else Some((s, k));
      if open.None? || !Sized(open.value.0) then None
      else if !headersOk then TryClose(open.value.0, open.value.1)
      else Forward(open.value.0, clit, open.value.1, video)
  }

  ghost function Server2Client(s: State, serv: int, reply: Reply): Option<State> {
    if !Sized(s) || !RefsLive(s) || !LiveServer(s, serv) then None
    else
      var k := ServerGetConn(s, s.servers[serv].value.fd);
      if !LiveConn(s, k) then None
      else
        var c := s.conns[k].value;
        var i := GetThru(s, s.clients[c.clit].value.addr, s.servers[serv].value.addr);
        match reply
        case Useless => TryClose(s, k)
        case PlainXml => Some(s)
        case ListXml(rates, reopen) =>
          if i == -1 then None
          else
            var t := s.(rates := rates);
            if reopen.None? then Some(t)
            else
              var open := TryOpen(t, c.clit, reopen.value.0, reopen.value.1);
              if open.None? then None else Some(open.value.0)
        case Body(sum, elapsed, sent) =>
          if !(0 <= i < |s.thrus|) || s.thrus[i].None? || sum <= 0 || elapsed == 0.0 then None
          else
            var t := Measure(s, k, i, Rates.Sample(sum, elapsed));
            if sent then Some(t) else TryClose(t, k)
  }

  ghost function Step(s: State, e: Event): Option<State> {
    match e
    case Accept(fd, addr) => Some(if s.curConn <= FD_SETSIZE then AddClient(s, fd, addr) else s)
    case Request(clit, servAddr, newFd, headersOk, video) => Client2Server(s, clit, servAddr, newFd, headersOk, video)
    case Respond(serv, reply) => Server2Client(s, serv, reply)
  }

  // ------------------------------------------------------------------ environment

  // A descriptor that is not in use, in the range that descriptor sets can hold.
  ghost predicate FreshFd(s: State, listen: int, fd: int) {
    0 <= fd < FD_SETSIZE && fd != listen && !HasFd(s, fd)
  }

  // What the operating system and the event loop guarantee.
  ghost predicate Enabled(s: State, listen: int, e: Event) {
    match e
    case Accept(fd, addr) => FreshFd(s, listen, fd)
    case Request(clit, servAddr, newFd, headersOk, video) =>
      && Sized(s) && LiveClient(s, clit)
      && (ClientGetConn(s, s.clients[clit].value.fd, servAddr) == -1 ==> FreshFd(s, listen, newFd))
    case Respond(serv, reply) =>
      && LiveServer(s, serv)
      && (reply.ListXml? && reply.reopen.Some? ==> FreshFd(s, listen, reply.reopen.value.0))
      && (reply.Body? ==> reply.sum > 0 && reply.elapsed != 0.0)
  }

  // Connection j's pair of addresses has a throughput entry.
  ghost predicate PairKnown(s: State, j: int)
    requires LiveConn(s, j)
  {
    var c := s.conns[j].value;
    && LiveClient(s, c.clit) && LiveServer(s, c.serv)
    && HasThru(s, s.clients[c.clit].value.addr, s.servers[c.serv].value.addr)
  }

  ghost predicate PairsKnownBut(s: State, k: int) {
    forall j | LiveConn(s, j) && j != k :: PairKnown(s, j)
  }

  ghost predicate PairsKnown(s: State) {
    PairsKnownBut(s, -1)
  }

  // What holds between handlers.
  ghost predicate Quiescent(s: State, listen: int) {
    Inv(s, listen) && PairsKnown(s)
  }

  // The event uses a throughput entry of a pair of addresses that has none.
  ghost predicate NeedsUnknownPair(s: State, e: Event) {
    && e.Respond? && (e.reply.ListXml? || e.reply.Body?)
    && exists k :: LiveConn(s, k) && s.conns[k].value.serv == e.serv && !PairKnown(s, k)
  }

  // The event is a request that would add a pair of addresses to a full throughput table.
  ghost predicate OverflowsThrus(s: State, e: Event) {
    && e.Request? && e.headersOk && LiveClient(s, e.clit)
    && !HasThru(s, s.clients[e.clit].value.addr, e.servAddr) && FirstFree(s.thrus) == |s.thrus|
  }

  // The event needs a free slot that there is not.
  ghost predicate OutOfRoom(s: State, e: Event) {
    || (OpensServer(s, e) && FirstFree(s.servers) == |s.servers|)
    || (OverflowsThrus(s, e) && e.video)
  }

  ghost predicate OpensServer(s: State, e: Event) {
    match e
    case Accept(_, _) => false
    case Request(clit, servAddr, _, _, _) =>
      Sized(s) && LiveClient(s, clit) && ClientGetConn(s, s.clients[clit].value.fd, servAddr) == -1
    case Respond(_, reply) => reply.ListXml? && reply.reopen.Some?
  }

  // The event reopens a connection to an address unknown for its client.
  ghost predicate ReopensUnknownPair(s: State, e: Event) {
    && e.Respond? && e.reply.ListXml? && e.reply.reopen.Some?
    && exists k :: && LiveConn(s, k) && s.conns[k].value.serv == e.serv && LiveClient(s, s.conns[k].value.clit)
                   && !HasThru(s, s.clients[s.conns[k].value.clit].value.addr, e.reply.reopen.value.1)
  }

  // The event leaves a connection behind whose pair has no throughput entry.
  ghost predicate OpensUnknownPair(s: State, e: Event) {
    ReopensUnknownPair(s, e) || OverflowsThrus(s, e)
  }

  // ------------------------------------------------------------------ lookups are right

  // The connection of a live server is found: the no-connection branch of
  // server2client, which would close connection -1, cannot be taken.
  lemma ServerLookup(s: State, listen: int, serv: int)
    requires Inv(s, listen) && LiveServer(s, serv)
    ensures var k := ServerGetConn(s, s.servers[serv].value.fd);
            LiveConn(s, k) && s.conns[k].value.serv == serv
    ensures forall j | LiveConn(s, j) && s.conns[j].value.serv == serv ::
              j == ServerGetConn(s, s.servers[serv].value.fd)
  {
    var p := OnServerFd(s, s.servers[serv].value.fd);
    ScanIsComplete(s.conns, s.maxConn, p, 0);
    CountIsZero(s.conns, OfServer(serv));
    var j :| Accepted(s.conns, OfServer(serv), j);
    assert LiveConn(s, j) && Accepted(s.conns, p, j);
    var k := ServerGetConn(s, s.servers[serv].value.fd);
    assert LiveConn(s, k) && LiveServer(s, s.conns[k].value.serv);
    forall m | LiveConn(s, m) && s.conns[m].value.serv == serv && m != k
      ensures false
    {
      assert Accepted(s.conns, OfServer(serv), k);
      CountOfTwo(s.conns, OfServer(serv), k, m);
      assert Accepted(s.conns, OfServer(serv), m);
    }
  }

  // A client's connection to an address is found iff it has one.
  lemma ClientLookup(s: State, listen: int, clit: int, addr: int)
    requires Inv(s, listen) && LiveClient(s, clit)
    ensures var k := ClientGetConn(s, s.clients[clit].value.fd, addr);
            if k == -1 then
              forall j | LiveConn(s, j) && s.conns[j].value.clit == clit ::
                s.servers[s.conns[j].value.serv].value.addr != addr
            else
              LiveConn(s, k) && s.conns[k].value.clit == clit && s.servers[s.conns[k].value.serv].value.addr == addr
  {
    var p := OnClientAndAddr(s, s.clients[clit].value.fd, addr);
    ScanIsComplete(s.conns, s.maxConn, p, 0);
    var k := ClientGetConn(s, s.clients[clit].value.fd, addr);
    if k == -1 {
      forall j | LiveConn(s, j) && s.conns[j].value.clit == clit
        ensures s.servers[s.conns[j].value.serv].value.addr != addr
      {
        assert !Accepted(s.conns, p, j);
      }
    } else {
      assert LiveConn(s, k) && LiveClient(s, s.conns[k].value.clit);
    }
  }

  // The accept loop's guard on the number of connections never turns a client away.
  lemma AdmissionGuardIsVacuous(s: State, listen: int)
    requires Inv(s, listen)
    ensures s.curConn <= FD_SETSIZE
  {
    LiveFillsTable(s.conns);
  }

  // ------------------------------------------------------------------ what the handlers keep

  lemma AcceptKeeps(s: State, listen: int, fd: int, addr: int)
    requires Inv(s, listen) && FreshFd(s, listen, fd)
    ensures Inv(AddClient(s, fd, addr), listen)
    ensures PairsKnown(s) ==> PairsKnown(AddClient(s, fd, addr))
  {
    hide HasThru, Count, FdSets, FdsDistinct, Counters, Marks, CountsExact, OneConnPerServer, ThruUnique;
    AddClientInv(s, listen, fd, addr);
    var t := AddClient(s, fd, addr);
    SameThrus(s, t);
    forall j | LiveConn(t, j)
      ensures PairsKnown(s) ==> PairKnown(t, j)
    {
      assert LiveConn(s, j) && LiveClient(s, s.conns[j].value.clit) && LiveServer(s, s.conns[j].value.serv);
    }
  }

  lemma SameThrus(s: State, t: State)
    requires t.thrus == s.thrus
    ensures forall a, b :: HasThru(t, a, b) <==> HasThru(s, a, b)
  {
  }

  lemma CloseKeeps(s: State, listen: int, k: int)
    requires Inv(s, listen) && LiveConn(s, k)
    ensures TryClose(s, k).Some? && Inv(TryClose(s, k).value, listen)
    ensures PairsKnownBut(s, k) ==> PairsKnown(TryClose(s, k).value)
  {
    hide HasThru, Count, FdSets, FdsDistinct, Counters, Marks, CountsExact, ThruUnique, CloseConn;
    CloseConnInv(s, listen, k);
    CloseConnShape(s, listen, k);
    var t := CloseConn(s, k);
    SameThrus(s, t);
    forall j | LiveConn(t, j)
      ensures PairsKnownBut(s, k) ==> PairKnown(t, j)
    {
      assert LiveConn(s, j) && j != k;
      assert LiveClient(t, t.conns[j].value.clit) && LiveServer(t, t.conns[j].value.serv);
    }
  }

  lemma OpenKeeps(s: State, listen: int, clit: int, fd: int, addr: int)
    requires Inv(s, listen) && LiveClient(s, clit) && FreshFd(s, listen, fd)
    requires FirstFree(s.servers) < |s.servers|
    ensures var open := TryOpen(s, clit, fd, addr);
            && open.Some?
            && (var (t, k) := open.value;
                && Inv(t, listen) && (PairsKnown(s) ==> PairsKnownBut(t, k))
                && t.thrus == s.thrus && t.maxThru == s.maxThru && LiveConn(t, k)
                && t.conns[k].value.clit == clit && LiveServer(t, t.conns[k].value.serv)
                && t.servers[t.conns[k].value.serv].value.addr == addr
                && LiveClient(t, clit) && t.clients[clit].value.addr == s.clients[clit].value.addr)
  {
    hide HasThru, Count, FdSets, FdsDistinct, Counters, Marks, CountsExact, OneConnPerServer, ThruUnique;
    assert Sized(s) && Counters(s);
    RoomForConn(s);
    OpenConnInv(s, listen, clit, fd, addr);
    var t, k := OpenConn(s, clit, fd, addr), FirstFree(s.conns);
    SameThrus(s, t);
    forall j | LiveConn(t, j) && j != k
      ensures PairsKnown(s) ==> PairKnown(t, j)
    {
      assert LiveConn(s, j) && LiveClient(s, s.conns[j].value.clit) && LiveServer(s, s.conns[j].value.serv);
    }
    assert LiveConn(t, k) && t.conns[k].value.serv == FirstFree(s.servers);
  }

  // Changing a connection's statistics and a throughput entry's average is invisible.
  ghost predicate SameButStatistics(s: State, t: State) {
    && t.clients == s.clients && t.servers == s.servers
    && |t.conns| == |s.conns| && |t.thrus| == |s.thrus|
    && (forall k | 0 <= k < |s.conns| :: t.conns[k].Some? <==> s.conns[k].Some?)
    && (forall k | LiveConn(s, k) ::
          LiveConn(t, k) && t.conns[k].value.clit == s.conns[k].value.clit
          && t.conns[k].value.serv == s.conns[k].value.serv)
    && (forall i | 0 <= i < |s.thrus| :: t.thrus[i].Some? <==> s.thrus[i].Some?)
    && (forall i | 0 <= i < |s.thrus| && s.thrus[i].Some? && t.thrus[i].Some? ::
          && t.thrus[i].value.clitAddr == s.thrus[i].value.clitAddr
          && t.thrus[i].value.servAddr == s.thrus[i].value.servAddr)
    && t.maxClit == s.maxClit && t.maxServ == s.maxServ && t.maxConn == s.maxConn && t.maxThru == s.maxThru
    && t.curClient == s.curClient && t.curServer == s.curServer && t.curConn == s.curConn
    && t.readSet == s.readSet && t.writeSet == s.writeSet && t.maxfd == s.maxfd
  }

  lemma {:induction false} SameCount(conns: seq<Option<Conn>>, conns': seq<Option<Conn>>, p: Conn -> bool)
    requires |conns| == |conns'|
    requires forall k :: Accepted(conns, p, k) <==> Accepted(conns', p, k)
    ensures Count(conns, p) == Count(conns', p)
  {
    if conns != [] {
      var n := |conns| - 1;
      forall k
        ensures Accepted(conns[..n], p, k) <==> Accepted(conns'[..n], p, k)
      {
        assert Accepted(conns, p, k) <==> Accepted(conns', p, k);
      }
      SameCount(conns[..n], conns'[..n], p);
      assert Accepted(conns, p, n) <==> Accepted(conns', p, n);
    }
  }

  lemma StatisticsInv(s: State, t: State, listen: int)
    requires Inv(s, listen) && SameButStatistics(s, t)
    ensures Inv(t, listen)
  {
    forall i
      ensures Count(s.conns, OfClient(i)) == Count(t.conns, OfClient(i))
      ensures Count(s.conns, OfServer(i)) == Count(t.conns, OfServer(i))
    {
      forall k
        ensures Accepted(s.conns, OfClient(i), k) <==> Accepted(t.conns, OfClient(i), k)
        ensures Accepted(s.conns, OfServer(i), k) <==> Accepted(t.conns, OfServer(i), k)
      {
        assert LiveConn(s, k) <==> LiveConn(t, k);
      }
      SameCount(s.conns, t.conns, OfClient(i));
      SameCount(s.conns, t.conns, OfServer(i));
    }
    SameCount(s.conns, t.conns, Everything());
    SameFds(s, t, listen);
    assert RefsLive(t) by {
      forall k | LiveConn(t, k)
        ensures LiveClient(t, t.conns[k].value.clit) && LiveServer(t, t.conns[k].value.serv)
      {
        assert LiveConn(s, k);
        assert LiveClient(s, s.conns[k].value.clit) && LiveServer(s, s.conns[k].value.serv);
      }
    }
  }

  lemma SameFds(s: State, t: State, listen: int)
    requires t.clients == s.clients && t.servers == s.servers
    requires t.readSet == s.readSet && t.writeSet == s.writeSet && t.maxfd == s.maxfd
    requires FdsDistinct(s, listen) && FdSets(s, listen)
    requires CountsExact(s) && forall i ::
               && Count(s.conns, OfClient(i)) == Count(t.conns, OfClient(i))
               && Count(s.conns, OfServer(i)) == Count(t.conns, OfServer(i))
    requires OneConnPerServer(s)
    ensures FdsDistinct(t, listen) && FdSets(t, listen) && CountsExact(t) && OneConnPerServer(t)
  {
    assert forall i :: LiveClient(t, i) <==> LiveClient(s, i);
    assert forall i :: LiveServer(t, i) <==> LiveServer(s, i);
    forall fd
      ensures HasFd(t, fd) <==> HasFd(s, fd)
    {
      if i :| LiveClient(s, i) && s.clients[i].value.fd == fd {
        assert LiveClient(t, i);
      }
      if i :| LiveServer(s, i) && s.servers[i].value.fd == fd {
        assert LiveServer(t, i);
      }
      if i :| LiveClient(t, i) && t.clients[i].value.fd == fd {
        assert LiveClient(s, i);
      }
      if i :| LiveServer(t, i) && t.servers[i].value.fd == fd {
        assert LiveServer(s, i);
      }
    }
  }

  lemma StatisticsKeep(s: State, t: State, listen: int, k: int)
    requires Inv(s, listen) && SameButStatistics(s, t)
    ensures Inv(t, listen)
    ensures PairsKnownBut(s, k) <==> PairsKnownBut(t, k)
    ensures forall a, b :: HasThru(t, a, b) <==> HasThru(s, a, b)
  {
    StatisticsInv(s, t, listen);
    forall a, b
      ensures HasThru(t, a, b) <==> HasThru(s, a, b)
    {
      if j :| Accepted(s.thrus, OfPair(a, b), j) {
        assert Accepted(t.thrus, OfPair(a, b), j);
      }
      if j :| Accepted(t.thrus, OfPair(a, b), j) {
        assert Accepted(s.thrus, OfPair(a, b), j);
      }
    }
    hide Inv, HasThru;
    assert forall j :: LiveConn(t, j) <==> LiveConn(s, j);
    assert forall j | LiveConn(s, j) :: LiveConn(t, j) && (PairKnown(s, j) <==> PairKnown(t, j));
  }

  lemma SetRateKeeps(s: State, listen: int, k: int, rate: int)
    requires Inv(s, listen) && LiveConn(s, k)
    ensures Inv(SetRate(s, k, rate), listen)
    ensures PairsKnown(s) ==> PairsKnown(SetRate(s, k, rate))
  {
    StatisticsKeep(s, SetRate(s, k, rate), listen, -1);
  }

  lemma MeasureKeeps(s: State, listen: int, k: int, i: int, sample: real)
    requires Inv(s, listen) && LiveConn(s, k)
    requires 0 <= i < |s.thrus| && s.thrus[i].Some?
    ensures Inv(Measure(s, k, i, sample), listen) && LiveConn(Measure(s, k, i, sample), k)
    ensures PairsKnown(s) ==> PairsKnown(Measure(s, k, i, sample))
    ensures forall a, b :: HasThru(Measure(s, k, i, sample), a, b) <==> HasThru(s, a, b)
  {
    StatisticsKeep(s, Measure(s, k, i, sample), listen, -1);
  }

  // After the entry has been looked up or made, connection k has one, unless the table
  // is full.
  lemma EnsureThru(s: State, listen: int, k: int, ca: int, sa: int)
    requires Inv(s, listen) && LiveConn(s, k)
    requires LiveClient(s, s.conns[k].value.clit) && s.clients[s.conns[k].value.clit].value.addr == ca
    requires LiveServer(s, s.conns[k].value.serv) && s.servers[s.conns[k].value.serv].value.addr == sa
    ensures var i := GetThru(s, ca, sa);
            var t := if i == -1 then AddThru(s, ca, sa) else s;
            var j := if i == -1 then FirstFree(s.thrus) else i;
            && Inv(t, listen) && LiveConn(t, k)
            && if !HasThru(s, ca, sa) && FirstFree(s.thrus) == |s.thrus| then
                 t == s && j == |t.thrus| && !PairKnown(s, k)
               else 0 <= j < |t.thrus| && t.thrus[j].Some? && (PairsKnownBut(s, k) ==> PairsKnown(t))
  {
    hide Inv;
    assert Sized(s) && Marks(s) by {
      InvParts(s, listen);
    }
    GetThruFinds(s, ca, sa);
    var i := GetThru(s, ca, sa);
    if i == -1 && FirstFree(s.thrus) < |s.thrus| {
      AddThruInv(s, listen, ca, sa);
      var t := AddThru(s, ca, sa);
      forall j | LiveConn(t, j)
        ensures PairsKnownBut(s, k) ==> PairKnown(t, j)
      {
        assert LiveConn(s, j);
        assert j != k && PairsKnownBut(s, k) ==> PairKnown(s, j);
      }
    } else if i != -1 {
      assert HasThru(s, ca, sa);
      assert PairKnown(s, k);
    }
  }

  lemma InvParts(s: State, listen: int)
    requires Inv(s, listen)
    ensures Sized(s) && Marks(s) && RefsLive(s)
  {
  }

  lemma ForwardKeeps(s: State, listen: int, clit: int, k: int, servAddr: int, video: bool)
    requires Inv(s, listen) && LiveConn(s, k)
    requires LiveClient(s, clit) && s.conns[k].value.clit == clit
    requires LiveServer(s, s.conns[k].value.serv) && s.servers[s.conns[k].value.serv].value.addr == servAddr
    ensures Sized(s)
    ensures var r := Forward(s, clit, k, video);
            var full := !HasThru(s, s.clients[clit].value.addr, servAddr) && FirstFree(s.thrus) == |s.thrus|;
            && (r.None? <==> video && full)
            && (r.Some? ==> Inv(r.value, listen))
            && (r.Some? && PairsKnownBut(s, k) ==> (PairsKnown(r.value) <==> !full))
  {
    hide Inv, PairsKnownBut, FirstFree, GetThru, AddThru, HasThru;
    InvParts(s, listen);
    var ca := s.clients[clit].value.addr;
    EnsureThru(s, listen, k, ca, servAddr);
    UnknownPair(s, k);
    var i := GetThru(s, ca, servAddr);
    var t := if i == -1 then AddThru(s, ca, servAddr) else s;
    var j := if i == -1 then FirstFree(s.thrus) else i;
    if 0 <= j < |t.thrus| && t.thrus[j].Some? {
      SetRateKeeps(t, listen, k, Rates.Choice(t.rates, t.thrus[j].value.avgPut));
    }
  }

  lemma UnknownPair(s: State, k: int)
    requires LiveConn(s, k)
    ensures !PairKnown(s, k) ==> !PairsKnown(s)
  {
  }

  lemma RequestKeeps(s: State, listen: int, clit: int, servAddr: int, newFd: int, headersOk: bool, video: bool)
    requires Inv(s, listen)
    requires Enabled(s, listen, Request(clit, servAddr, newFd, headersOk, video))
    ensures var r, e := Client2Server(s, clit, servAddr, newFd, headersOk, video),
                        Request(clit, servAddr, newFd, headersOk, video);
            && (r.None? <==> OutOfRoom(s, e))
            && (r.Some? ==> Inv(r.value, listen))
            && (r.Some? && PairsKnown(s) ==> (PairsKnown(r.value) <==> !OpensUnknownPair(s, e)))
  {
    hide Inv, PairsKnownBut, PairsKnown, FirstFree, ClientGetConn, TryOpen, TryClose, Forward, HasFd, HasThru;
    InvParts(s, listen);
    var k := ClientGetConn(s, s.clients[clit].value.fd, servAddr);
    if k != -1 {
      ClientLookup(s, listen, clit, servAddr);
      KnownButWeaker(s, k);
      PairOf(s, k);
      if headersOk {
        ForwardKeeps(s, listen, clit, k, servAddr, video);
      } else {
        CloseKeeps(s, listen, k);
      }
    } else if FirstFree(s.servers) < |s.servers| {
      OpenKeeps(s, listen, clit, newFd, servAddr);
      var (t, m) := TryOpen(s, clit, newFd, servAddr).value;
      InvParts(t, listen);
      SameThrus(s, t);
      if headersOk {
        ForwardKeeps(t, listen, clit, m, servAddr, video);
      } else {
        CloseKeeps(t, listen, m);
      }
    } else {
      NoRoomToOpen(s, clit, newFd, servAddr);
    }
  }

  lemma NoRoomToOpen(s: State, clit: int, fd: int, addr: int)
    requires FirstFree(s.servers) == |s.servers|
    ensures TryOpen(s, clit, fd, addr).None?
  {
  }

  lemma PairOf(s: State, k: int)
    requires LiveConn(s, k) && LiveClient(s, s.conns[k].value.clit) && LiveServer(s, s.conns[k].value.serv)
    ensures var c := s.conns[k].value;
            PairsKnown(s) ==> HasThru(s, s.clients[c.clit].value.addr, s.servers[c.serv].value.addr)
  {
  }

  lemma KnownButWeaker(s: State, k: int)
    ensures PairsKnown(s) ==> PairsKnownBut(s, k)
  {
  }

  // The entry of a live connection is found iff its pair is known.
  lemma ThruLookup(s: State, listen: int, k: int)
    requires Inv(s, listen) && LiveConn(s, k)
    ensures var c := s.conns[k].value;
            && LiveClient(s, c.clit) && LiveServer(s, c.serv)
            && (var i := GetThru(s, s.clients[c.clit].value.addr, s.servers[c.serv].value.addr);
                if PairKnown(s, k) then 0 <= i < |s.thrus| && s.thrus[i].Some? else i == -1)
  {
    var c := s.conns[k].value;
    GetThruFinds(s, s.clients[c.clit].value.addr, s.servers[c.serv].value.addr);
  }

  lemma RatesKeep(s: State, listen: int, rates: seq<int>, k: int)
    requires Inv(s, listen) && LiveConn(s, k)
    ensures Inv(s.(rates := rates), listen)
    ensures PairsKnown(s) <==> PairsKnown(s.(rates := rates))
    ensures forall a, b :: HasThru(s.(rates := rates), a, b) <==> HasThru(s, a, b)
  {
    StatisticsKeep(s, s.(rates := rates), listen, -1);
  }

  lemma HasFdSame(s: State, rates: seq<int>, fd: int)
    ensures HasFd(s.(rates := rates), fd) <==> HasFd(s, fd)
  {
    var t := s.(rates := rates);
    assert forall i :: LiveClient(t, i) <==> LiveClient(s, i);
    assert forall i :: LiveServer(t, i) <==> LiveServer(s, i);
  }

  // A reopened connection has a throughput entry iff its pair is known already.
  lemma ReopenKeeps(s: State, listen: int, clit: int, fd: int, addr: int)
    requires Inv(s, listen) && LiveClient(s, clit)
    requires FreshFd(s, listen, fd) && FirstFree(s.servers) < |s.servers|
    ensures var open := TryOpen(s, clit, fd, addr);
            && open.Some? && Inv(open.value.0, listen)
            && (PairsKnown(s) ==> (PairsKnown(open.value.0) <==> HasThru(s, s.clients[clit].value.addr, addr)))
  {
    hide Inv, FirstFree, TryOpen, HasFd, HasThru;
    OpenKeeps(s, listen, clit, fd, addr);
    var (t, m) := TryOpen(s, clit, fd, addr).value;
    SameThrus(s, t);
    assert PairKnown(t, m) <==> HasThru(s, s.clients[clit].value.addr, addr);
  }

  // All about a response: when it crashes, and that otherwise the invariant is kept, and
  // known pairs unless it opens an unknown one.
  lemma RespondKeeps(s: State, listen: int, serv: int, reply: Reply)
    requires Inv(s, listen) && Enabled(s, listen, Respond(serv, reply))
    ensures var r, e := Server2Client(s, serv, reply), Respond(serv, reply);
            && (r.None? <==> NeedsUnknownPair(s, e) || OutOfRoom(s, e))
            && (r.Some? ==> Inv(r.value, listen))
            && (r.Some? && PairsKnown(s) ==> (PairsKnown(r.value) <==> !OpensUnknownPair(s, e)))
  {
    hide Inv, PairsKnownBut, PairsKnown, FirstFree, ServerGetConn, GetThru, TryOpen, TryClose, Measure, HasFd, HasThru;
    InvParts(s, listen);
    ServerLookup(s, listen, serv);
    var k := ServerGetConn(s, s.servers[serv].value.fd);
    var c := s.conns[k].value;
    ThruLookup(s, listen, k);
    KnownButWeaker(s, k);
    match reply
    case Useless => CloseKeeps(s, listen, k);
    case PlainXml =>
    case ListXml(rates, reopen) =>
      var t := s.(rates := rates);
      RatesKeep(s, listen, rates, k);
      if reopen.Some? {
        HasFdSame(s, rates, reopen.value.0);
        if FirstFree(s.servers) < |s.servers| {
          ReopenKeeps(t, listen, c.clit, reopen.value.0, reopen.value.1);
        } else {
          NoRoomToOpen(t, c.clit, reopen.value.0, reopen.value.1);
        }
      }
    case Body(sum, elapsed, sent) => BodyKeeps(s, listen, serv, k, reply);
  }

  lemma BodyKeeps(s: State, listen: int, serv: int, k: int, reply: Reply)
    requires Inv(s, listen) && Enabled(s, listen, Respond(serv, reply)) && reply.Body?
    requires k == ServerGetConn(s, s.servers[serv].value.fd)
    requires LiveConn(s, k) && s.conns[k].value.serv == serv
    ensures var r := Server2Client(s, serv, reply);
            && (r.None? <==> !PairKnown(s, k))
            && (r.Some? ==> Inv(r.value, listen))
            && (r.Some? && PairsKnown(s) ==> PairsKnown(r.value))
  {
    hide Inv, PairsKnownBut, PairsKnown, FirstFree, ServerGetConn, GetThru, TryClose, Measure, HasFd, HasThru;
    InvParts(s, listen);
    ThruLookup(s, listen, k);
    KnownButWeaker(s, k);
    var i := GetThru(s, s.clients[s.conns[k].value.clit].value.addr, s.servers[serv].value.addr);
    if PairKnown(s, k) {
      var sample := Rates.Sample(reply.sum, reply.elapsed);
      MeasureKeeps(s, listen, k, i, sample);
      var t := Measure(s, k, i, sample);
      KnownButWeaker(t, k);
      CloseKeeps(t, listen, k);
    }
  }

  // ------------------------------------------------------------------ all runs

  // Whatever the addresses, and however full the tables: an event crashes the proxy exactly
  // if it needs the throughput entry of an unknown pair, or a slot of a full table;
  // otherwise the tables stay consistent. All pairs stay known exactly if no unknown pair is
  // opened.
  lemma StepKeeps(s: State, listen: int, e: Event)
    requires Inv(s, listen) && Enabled(s, listen, e)
    ensures Step(s, e).None? <==> NeedsUnknownPair(s, e) || OutOfRoom(s, e)
    ensures Step(s, e).Some? ==> Inv(Step(s, e).value, listen)
    ensures Step(s, e).Some? && PairsKnown(s) ==> (PairsKnown(Step(s, e).value) <==> !OpensUnknownPair(s, e))
  {
    hide Inv, PairsKnown, Client2Server, Server2Client, FirstFree, HasThru;
    match e
    case Accept(fd, addr) =>
      AdmissionGuardIsVacuous(s, listen);
      AcceptKeeps(s, listen, fd, addr);
    case Request(clit, servAddr, newFd, headersOk, video) =>
      RequestKeeps(s, listen, clit, servAddr, newFd, headersOk, video);
    case Respond(serv, reply) => RespondKeeps(s, listen, serv, reply);
  }

  // An event keeps a quiescent proxy alive and quiescent exactly if it opens no unknown
  // pair and finds the slot it needs.
  lemma QuiescentStep(s: State, listen: int, e: Event)
    requires Quiescent(s, listen) && Enabled(s, listen, e)
    ensures (Step(s, e).Some? && Quiescent(Step(s, e).value, listen)) <==> !OpensUnknownPair(s, e) && !OutOfRoom(s, e)
  {
    hide Inv, Step, Enabled, OutOfRoom, OpensUnknownPair;
    StepKeeps(s, listen, e);
  }

  ghost function Run(s: State, events: seq<Event>): Option<State> {
    if events == [] then Some(s)
    else
      var t := Run(s, events[..|events| - 1]);
      if t.None? then None else Step(t.value, events[|events| - 1])
  }

  // Each event is enabled in the state the previous ones lead to.
  ghost predicate EnabledRun(s: State, listen: int, events: seq<Event>) {
    events != [] ==>
      && EnabledRun(s, listen, events[..|events| - 1])
      && (var t := Run(s, events[..|events| - 1]);
          t.Some? ==> Enabled(t.value, listen, events[|events| - 1]))
  }

  // The state after a run that has not crashed, whatever addresses servers resolve to.
  lemma {:induction false} RunConsistent(s: State, listen: int, events: seq<Event>)
    requires Inv(s, listen) && EnabledRun(s, listen, events)
    ensures Run(s, events).Some? ==> Inv(Run(s, events).value, listen)
  {
    hide Inv, Enabled, Step;
    if events != [] {
      var p := events[..|events| - 1];
      RunConsistent(s, listen, p);
      if Run(s, p).Some? {
        StepKeeps(Run(s, p).value, listen, events[|events| - 1]);
      }
    }
  }

  lemma RunMore(s: State, listen: int, events: seq<Event>, e: Event)
    requires EnabledRun(s, listen, events) && Run(s, events).Some? && Enabled(Run(s, events).value, listen, e)
    ensures EnabledRun(s, listen, events + [e]) && Run(s, events + [e]) == Step(Run(s, events).value, e)
  {
    hide Step, Enabled;
    assert (events + [e])[..|events|] == events;
  }

  // ------------------------------------------------------------------ unknown pairs

  // Serving a body needs the pair's entry; without one the proxy reads entry -1.
  lemma BodyCrashesIffPairUnknown(s: State, listen: int, serv: int, k: int, sum: int, elapsed: real)
    requires Inv(s, listen) && LiveServer(s, serv) && sum > 0 && elapsed != 0.0
    requires k == ServerGetConn(s, s.servers[serv].value.fd)
    ensures LiveConn(s, k) && LiveClient(s, s.conns[k].value.clit)
    ensures Server2Client(s, serv, Body(sum, elapsed, true)).None? <==>
              !HasThru(s, s.clients[s.conns[k].value.clit].value.addr, s.servers[serv].value.addr)
  {
    ServerLookup(s, listen, serv);
    GetThruFinds(s, s.clients[s.conns[k].value.clit].value.addr, s.servers[serv].value.addr);
  }

  // Reopening at an address unknown for the client makes such a connection, since
  // throughput entries are created by requests only.
  lemma ReopenElsewhereLeadsToCrash(s: State, listen: int, clit: int, fd: int, addr: int, sum: int, elapsed: real)
    requires Inv(s, listen) && LiveClient(s, clit) && FreshFd(s, listen, fd)
    requires FirstFree(s.servers) < |s.servers| && sum > 0 && elapsed != 0.0
    requires !HasThru(s, s.clients[clit].value.addr, addr)
    ensures var open := TryOpen(s, clit, fd, addr);
            open.Some? && Server2Client(open.value.0, FirstFree(s.servers), Body(sum, elapsed, true)).None?
  {
    assert Sized(s) && Counters(s);
    RoomForConn(s);
    OpenConnInv(s, listen, clit, fd, addr);
    var t, serv := OpenConn(s, clit, fd, addr), FirstFree(s.servers);
    ServerLookup(t, listen, serv);
    var k := ServerGetConn(t, t.servers[serv].value.fd);
    var m := FirstFree(s.conns);
    assert LiveConn(t, m) && t.conns[m].value.serv == serv;
    assert m == k && t.conns[k].value.clit == clit;
    SameThrus(s, t);
    BodyCrashesIffPairUnknown(t, listen, serv, k, sum, elapsed);
  }
}
