/** What each event does to the proxy's tables, exactly: slots taken and given up, the
    bitrate of a video request, the average after a body, and when connections close. */
module ProxyEffects {
  import opened Wrappers
  import opened Slots
  import opened PoolSpec
  import opened ProxyRuns
  import opened ProxyLimits
  import Rates

  // ------------------------------------------------------------------ pieces

  ghost predicate IsFirstFree<T>(slots: seq<Option<T>>, i: int) {
    0 <= i < |slots| && slots[i].None? && forall j | 0 <= j < i :: slots[j].Some?
  }

  // What no event changes, and what only some do.
  ghost predicate SameMarks(s: State, t: State) {
    && t.maxClit == s.maxClit && t.maxServ == s.maxServ && t.maxConn == s.maxConn
    && t.maxfd == s.maxfd && t.alpha == s.alpha
  }

  // A client takes the first free slot.
  ghost predicate Admitted(s: State, t: State, fd: int, addr: int, i: int) {
    && IsFirstFree(s.clients, i) && t.clients == s.clients[i := Some(Client(fd, addr, 0))]
    && t.servers == s.servers && t.conns == s.conns && t.thrus == s.thrus
    && t.maxClit == Max(s.maxClit, i) && t.maxServ == s.maxServ && t.maxConn == s.maxConn && t.maxThru == s.maxThru
    && t.maxfd == Max(s.maxfd, fd) && t.rates == s.rates && t.alpha == s.alpha
  }

  // A server and a connection take the first free slots, and the client counts one more.
  ghost predicate Opened(s: State, t: State, clit: int, fd: int, addr: int, v: int, k: int) {
    && LiveClient(s, clit) && IsFirstFree(s.servers, v) && IsFirstFree(s.conns, k)
    && t.servers == s.servers[v := Some(Server(fd, addr, 1))]
    && t.conns == s.conns[k := Some(Conn(clit, v, 0, 10))]
    && (var c := s.clients[clit].value; t.clients == s.clients[clit := Some(c.(numServ := c.numServ + 1))])
    && t.thrus == s.thrus
    && t.maxClit == s.maxClit && t.maxServ == Max(s.maxServ, v) && t.maxConn == Max(s.maxConn, k)
    && t.maxThru == s.maxThru && t.maxfd == Max(s.maxfd, fd) && t.rates == s.rates && t.alpha == s.alpha
  }

  // The connection goes, its server with it, and its client if this was the last one.
  ghost predicate Closed(s: State, t: State, k: int) {
    && LiveConn(s, k) && LiveClient(s, s.conns[k].value.clit) && LiveServer(s, s.conns[k].value.serv)
    && t.conns == s.conns[k := None] && t.servers == s.servers[s.conns[k].value.serv := None]
    && (var clit := s.conns[k].value.clit; var c := s.clients[clit].value;
        t.clients == s.clients[clit := if c.numServ == 1 then None else Some(c.(numServ := c.numServ - 1))])
    && t.thrus == s.thrus && t.maxThru == s.maxThru && t.rates == s.rates && SameMarks(s, t)
  }

  // A pair without an entry gets a fresh one in the first free slot, if there is one.
  ghost predicate Entered(s: State, t: State, ca: int, sa: int) {
    if HasThru(s, ca, sa) || FirstFree(s.thrus) == |s.thrus| then t.thrus == s.thrus && t.maxThru == s.maxThru
    else
      exists i :: && IsFirstFree(s.thrus, i) && t.thrus == s.thrus[i := Some(Thru(ca, sa, 0))]
                  && t.maxThru == Max(s.maxThru, i)
  }

  // The average stored for a pair; 0 if there is none.
  ghost predicate PairAverage(s: State, ca: int, sa: int, avg: int) {
    if HasThru(s, ca, sa) then
      exists i :: Accepted(s.thrus, OfPair(ca, sa), i) && s.thrus[i].value.avgPut == avg
    else
      avg == 0
  }

  // A request passed on: a video request sets the connection's bitrate to the choice for
  // the pair's average, any other leaves all connections alone.
  ghost predicate PassedOn(s: State, t: State, k: int, ca: int, sa: int, video: bool) {
    && LiveConn(s, k) && t.clients == s.clients && t.servers == s.servers
    && Entered(s, t, ca, sa) && t.rates == s.rates && SameMarks(s, t)
    && if !video then t.conns == s.conns
       else
         exists avg, rate :: && PairAverage(s, ca, sa, avg) && Rates.IsChoice(s.rates, avg, rate)
                             && t.conns == s.conns[k := Some(s.conns[k].value.(curBitrate := rate))]
  }

  // A body: throughput r, which becomes the connection's last one, and the new average of
  // the connection's own pair.
  ghost predicate Measured(s: State, t: State, k: int, r: real, i: int) {
    && LiveConn(s, k) && LiveClient(s, s.conns[k].value.clit) && LiveServer(s, s.conns[k].value.serv)
    && (var c := s.conns[k].value;
        Accepted(s.thrus, OfPair(s.clients[c.clit].value.addr, s.servers[c.serv].value.addr), i))
    && (exists n :: Rates.TruncatesTo(r, n) && t.conns == s.conns[k := Some(s.conns[k].value.(tPut := n))])
    && (var u := s.thrus[i].value;
        exists n :: && Rates.IsNewAverage(s.alpha, u.avgPut, r, n)
                    && t.thrus == s.thrus[i := Some(u.(avgPut := n))])
    && t.clients == s.clients && t.servers == s.servers
    && t.maxThru == s.maxThru && t.rates == s.rates && SameMarks(s, t)
  }

  // ------------------------------------------------------------------ events

  // The client's first connection to the address.
  ghost predicate IsConnTo(s: State, clit: int, addr: int, k: int) {
    && ConnTo(s, clit, addr, k) && forall j | j < k :: !ConnTo(s, clit, addr, j)
  }

  ghost predicate ConnTo(s: State, clit: int, addr: int, k: int) {
    && LiveConn(s, k) && s.conns[k].value.clit == clit
    && LiveServer(s, s.conns[k].value.serv) && s.servers[s.conns[k].value.serv].value.addr == addr
  }

  ghost predicate Requested(s: State, t: State, e: Event)
    requires e.Request?
  {
    && LiveClient(s, e.clit)
    && var ca := s.clients[e.clit].value.addr;
       if exists k :: ConnTo(s, e.clit, e.servAddr, k) then
         exists k :: IsConnTo(s, e.clit, e.servAddr, k) && ServedOn(s, t, k, ca, e)
       else
         exists u, v, k :: Opened(s, u, e.clit, e.newFd, e.servAddr, v, k) && ServedOn(u, t, k, ca, e)
  }

  // On connection k: a request with bad headers closes it.
  ghost predicate ServedOn(s: State, t: State, k: int, ca: int, e: Event)
    requires e.Request?
  {
    if e.headersOk then PassedOn(s, t, k, ca, e.servAddr, e.video) else Closed(s, t, k)
  }

  ghost predicate Responded(s: State, t: State, e: Event)
    requires e.Respond?
  {
    exists k :: LiveConn(s, k) && s.conns[k].value.serv == e.serv && Answered(s, t, k, e.reply)
  }

  ghost predicate Answered(s: State, t: State, k: int, reply: Reply)
    requires LiveConn(s, k)
  {
    match reply
    case Useless => Closed(s, t, k)
    case PlainXml => t == s
    case ListXml(rates, reopen) =>
      var u := s.(rates := rates);
      if reopen.None? then t == u
      else exists v, j :: Opened(u, t, s.conns[k].value.clit, reopen.value.0, reopen.value.1, v, j)
    case Body(sum, elapsed, sent) =>
      exists u, r, i :: && Rates.MeansThroughput(sum, elapsed, r) && Measured(s, u, k, r, i)
                        && if sent then t == u else Closed(u, t, k)
  }

  // The exact effect of each event.
  ghost predicate StepEffectIs(s: State, t: State, e: Event) {
    match e
    case Accept(fd, addr) => exists i :: Admitted(s, t, fd, addr, i)
    case Request(_, _, _, _, _) => Requested(s, t, e)
    case Respond(_, _) => Responded(s, t, e)
  }

  // ------------------------------------------------------------------ the handlers do that

  lemma FreeSlot<T>(slots: seq<Option<T>>)
    requires FirstFree(slots) < |slots|
    ensures IsFirstFree(slots, FirstFree(slots))
  {
  }

  lemma OpenIsOpened(s: State, clit: int, fd: int, addr: int)
    requires LiveClient(s, clit) && FirstFree(s.servers) < |s.servers| && FirstFree(s.conns) < |s.conns|
    ensures var r := TryOpen(s, clit, fd, addr);
            r.Some? && Opened(s, r.value.0, clit, fd, addr, FirstFree(s.servers), r.value.1)
  {
    FreeSlot(s.servers);
    FreeSlot(s.conns);
    var t := OpenConn(s, clit, fd, addr);
    var v := FirstFree(s.servers);
    assert t.servers == s.servers[v := Some(Server(fd, addr, 1))];
  }

  lemma CloseIsClosed(s: State, listen: int, k: int)
    requires Inv(s, listen) && LiveConn(s, k)
    ensures TryClose(s, k).Some? && Closed(s, TryClose(s, k).value, k)
  {
    CloseKeeps(s, listen, k);
    CloseConnShape(s, listen, k);
    hide Inv;
  }

  lemma AddThruEnters(s: State, listen: int, ca: int, sa: int)
    requires Inv(s, listen)
    ensures Sized(s) && Entered(s, if GetThru(s, ca, sa) == -1 then AddThru(s, ca, sa) else s, ca, sa)
  {
    InvParts(s, listen);
    GetThruFinds(s, ca, sa);
    hide Inv;
    if FirstFree(s.thrus) < |s.thrus| {
      FreeSlot(s.thrus);
    }
  }

  lemma ForwardPassesOn(s: State, listen: int, clit: int, k: int, sa: int, video: bool)
    requires Inv(s, listen) && LiveConn(s, k) && LiveClient(s, clit) && s.conns[k].value.clit == clit
    requires LiveServer(s, s.conns[k].value.serv) && s.servers[s.conns[k].value.serv].value.addr == sa
    requires Sized(s)
    ensures var r := Forward(s, clit, k, video);
            r.Some? ==> PassedOn(s, r.value, k, s.clients[clit].value.addr, sa, video)
  {
    hide Entered, Rates.Choice, Rates.IsChoice;
    var ca, r := s.clients[clit].value.addr, Forward(s, clit, k, video);
    AddThruEnters(s, listen, ca, sa);
    if r.Some? {
      var t := if GetThru(s, ca, sa) == -1 then AddThru(s, ca, sa) else s;
      SameEntries(s, t, r.value, ca, sa);
      if video {
        AverageUsed(s, listen, ca, sa);
      }
    }
  }

  lemma SameEntries(s: State, t: State, u: State, ca: int, sa: int)
    requires Entered(s, t, ca, sa) && u.thrus == t.thrus && u.maxThru == t.maxThru
    ensures Entered(s, u, ca, sa)
  {
  }

  // The entry that the choice is made for.
  lemma AverageUsed(s: State, listen: int, ca: int, sa: int)
    requires Inv(s, listen) && Sized(s)
    ensures var i := GetThru(s, ca, sa);
            var t := if i == -1 then AddThru(s, ca, sa) else s;
            var j := if i == -1 then FirstFree(s.thrus) else i;
            0 <= j < |t.thrus| && t.thrus[j].Some? ==>
              var avg := t.thrus[j].value.avgPut;
              PairAverage(s, ca, sa, avg) && Rates.IsChoice(t.rates, avg, Rates.Choice(t.rates, avg))
  {
    InvParts(s, listen);
    GetThruFinds(s, ca, sa);
    hide Inv;
    var i := GetThru(s, ca, sa);
    var t := if i == -1 then AddThru(s, ca, sa) else s;
    var j := if i == -1 then FirstFree(s.thrus) else i;
    if 0 <= j < |t.thrus| && t.thrus[j].Some? {
      Rates.ChoiceIsChoice(t.rates, t.thrus[j].value.avgPut);
    }
  }

  lemma MeasureMeasures(s: State, listen: int, k: int, sum: int, elapsed: real)
    requires Inv(s, listen) && LiveConn(s, k) && PairKnown(s, k) && sum > 0 && elapsed != 0.0
    ensures var c := s.conns[k].value;
            && Sized(s) && LiveClient(s, c.clit) && LiveServer(s, c.serv)
            && (var i := GetThru(s, s.clients[c.clit].value.addr, s.servers[c.serv].value.addr);
                var r := Rates.Sample(sum, elapsed);
                && 0 <= i < |s.thrus| && s.thrus[i].Some?
                && Rates.MeansThroughput(sum, elapsed, r) && Measured(s, Measure(s, k, i, r), k, r, i))
  {
    InvParts(s, listen);
    ThruLookup(s, listen, k);
    var c, r := s.conns[k].value, Rates.Sample(sum, elapsed);
    GetThruFinds(s, s.clients[c.clit].value.addr, s.servers[c.serv].value.addr);
    var i := GetThru(s, s.clients[c.clit].value.addr, s.servers[c.serv].value.addr);
    hide Inv, GetThru, Rates.Sample, Rates.NewAverage, Rates.Trunc, Rates.TruncatesTo, Rates.IsNewAverage;
    Rates.SampleMeansThroughput(sum, elapsed);
    Rates.TruncTruncates(r, Rates.Trunc(r));
    Rates.NewAverageMoves(s.alpha, s.thrus[i].value.avgPut, r);
  }

  lemma RequestIsExact(s: State, listen: int, e: Event)
    requires Inv(s, listen) && e.Request? && Enabled(s, listen, e)
    ensures Step(s, e).Some? ==> Requested(s, Step(s, e).value, e)
  {
    hide Inv, FirstFree, TryOpen, TryClose, Forward, HasFd, Opened, Closed, PassedOn, ClientGetConn;
    InvParts(s, listen);
    var clit, addr, r := e.clit, e.servAddr, Step(s, e);
    var k := ClientGetConn(s, s.clients[clit].value.fd, addr);
    if r.Some? {
      if k != -1 {
        FirstConn(s, listen, clit, addr);
        if e.headersOk {
          ForwardPassesOn(s, listen, clit, k, addr, e.video);
        } else {
          CloseIsClosed(s, listen, k);
        }
      } else {
        FirstConn(s, listen, clit, addr);
        RequestKeeps(s, listen, clit, addr, e.newFd, e.headersOk, e.video);
        OpenKeeps(s, listen, clit, e.newFd, addr);
        RoomForConnNow(s, listen);
        OpenIsOpened(s, clit, e.newFd, addr);
        var (u, m) := TryOpen(s, clit, e.newFd, addr).value;
        InvParts(u, listen);
        if e.headersOk {
          ForwardPassesOn(u, listen, clit, m, addr, e.video);
        } else {
          CloseIsClosed(u, listen, m);
        }
      }
    }
  }

  lemma RoomForConnNow(s: State, listen: int)
    requires Inv(s, listen) && FirstFree(s.servers) < |s.servers|
    ensures FirstFree(s.conns) < |s.conns|
  {
    assert Sized(s) && Counters(s);
    RoomForConn(s);
  }

  // The lookup finds the client's first connection to the address, if it has one.
  lemma FirstConn(s: State, listen: int, clit: int, addr: int)
    requires Inv(s, listen) && LiveClient(s, clit)
    ensures Sized(s)
    ensures var k := ClientGetConn(s, s.clients[clit].value.fd, addr);
            if k == -1 then forall j :: !ConnTo(s, clit, addr, j) else IsConnTo(s, clit, addr, k)
  {
    InvParts(s, listen);
    assert HighWater(s.conns, s.maxConn) && FdsDistinct(s, listen);
    hide Inv;
    var p := OnClientAndAddr(s, s.clients[clit].value.fd, addr);
    ScanIsComplete(s.conns, s.maxConn, p, 0);
    forall j
      ensures Accepted(s.conns, p, j) <==> ConnTo(s, clit, addr, j)
    {
      if LiveConn(s, j) {
        assert LiveClient(s, s.conns[j].value.clit) && LiveServer(s, s.conns[j].value.serv);
      }
    }
  }

  lemma RespondIsExact(s: State, listen: int, e: Event)
    requires Inv(s, listen) && e.Respond? && Enabled(s, listen, e)
    ensures Step(s, e).Some? ==> Responded(s, Step(s, e).value, e)
  {
    hide Inv, FirstFree, TryOpen, TryClose, HasFd, Opened, Closed, Measured, Measure, ServerGetConn, HasThru, GetThru;
    InvParts(s, listen);
    ServerLookup(s, listen, e.serv);
    var k, r := ServerGetConn(s, s.servers[e.serv].value.fd), Step(s, e);
    ThruLookup(s, listen, k);
    if r.Some? {
      match e.reply
      case Useless =>
        CloseIsClosed(s, listen, k);
        assert Answered(s, r.value, k, e.reply);
      case PlainXml =>
        assert Answered(s, r.value, k, e.reply);
      case ListXml(rates, reopen) =>
        ListIsExact(s, listen, k, rates, reopen, r.value, e);
      case Body(sum, elapsed, sent) =>
        MeasureMeasures(s, listen, k, sum, elapsed);
        var i := GetThru(s, s.clients[s.conns[k].value.clit].value.addr, s.servers[e.serv].value.addr);
        MeasureKeeps(s, listen, k, i, Rates.Sample(sum, elapsed));
        CloseIsClosed(Measure(s, k, i, Rates.Sample(sum, elapsed)), listen, k);
        assert Answered(s, r.value, k, e.reply);
    }
  }

  lemma ListIsExact(s: State, listen: int, k: int, rates: seq<int>, reopen: Option<(int, int)>, t: State, e: Event)
    requires Inv(s, listen) && LiveConn(s, k) && LiveClient(s, s.conns[k].value.clit)
    requires var u := s.(rates := rates);
             if reopen.None? then t == u
             else
               var r := TryOpen(u, s.conns[k].value.clit, reopen.value.0, reopen.value.1);
               r.Some? && t == r.value.0
    ensures Answered(s, t, k, ListXml(rates, reopen))
  {
    hide Inv, Opened;
    if reopen.Some? {
      var u := s.(rates := rates);
      OpenIsOpened(u, s.conns[k].value.clit, reopen.value.0, reopen.value.1);
    }
  }

  // Every event that does not crash has exactly its effect.
  lemma StepIsExact(s: State, listen: int, e: Event)
    requires Inv(s, listen) && InRange(s) && Enabled(s, listen, e)
    ensures Step(s, e).Some? ==> StepEffectIs(s, Step(s, e).value, e)
  {
    hide Inv, Requested, Responded;
    match e
    case Accept(fd, addr) =>
      AdmissionGuardIsVacuous(s, listen);
      RoomForClients(s, listen);
      FreeSlot(s.clients);
      assert Admitted(s, AddClient(s, fd, addr), fd, addr, FirstFree(s.clients));
    case Request(_, _, _, _, _) => RequestIsExact(s, listen, e);
    case Respond(_, _) => RespondIsExact(s, listen, e);
  }

  // ------------------------------------------------------------------ in particular

  // A video request that does not crash sets the bitrate of the client's connection to the
  // address to the choice from the current list for the pair's average, and no other; a
  // request for anything else sets none.
  lemma VideoRateFollowsAverage(s: State, listen: int, e: Event, t: State)
    requires Inv(s, listen) && InRange(s) && Enabled(s, listen, e) && e.Request? && e.headersOk && Step(s, e) == Some(t)
    ensures exists k :: ConnTo(t, e.clit, e.servAddr, k) && RateSet(s, t, k, s.clients[e.clit].value.addr, e)
  {
    StepIsExact(s, listen, e);
    hide Inv, PassedOn, Opened, RateSet, ConnTo, Enabled, InRange, Step;
    var ca := s.clients[e.clit].value.addr;
    if exists k :: ConnTo(s, e.clit, e.servAddr, k) {
      var k :| IsConnTo(s, e.clit, e.servAddr, k) && ServedOn(s, t, k, ca, e);
      OnOldConnection(s, t, k, ca, e);
    } else {
      var u, v, k :| Opened(s, u, e.clit, e.newFd, e.servAddr, v, k) && ServedOn(u, t, k, ca, e);
      OnNewConnection(s, u, t, v, k, ca, e);
    }
  }

  lemma OnOldConnection(s: State, t: State, k: int, ca: int, e: Event)
    requires e.Request? && ConnTo(s, e.clit, e.servAddr, k) && PassedOn(s, t, k, ca, e.servAddr, e.video)
    ensures ConnTo(t, e.clit, e.servAddr, k) && RateSet(s, t, k, ca, e)
  {
    hide Entered, Rates.IsChoice, PairAverage;
  }

  lemma OnNewConnection(s: State, u: State, t: State, v: int, k: int, ca: int, e: Event)
    requires e.Request? && Opened(s, u, e.clit, e.newFd, e.servAddr, v, k)
    requires PassedOn(u, t, k, ca, e.servAddr, e.video)
    ensures ConnTo(t, e.clit, e.servAddr, k) && RateSet(s, t, k, ca, e)
  {
    OpenedAverage(s, u, ca, e.servAddr);
    hide Entered, Rates.IsChoice, PairAverage;
  }

  // Connection k, old or new, has the chosen bitrate after a video request, and otherwise
  // its old one or, if new, the initial one; the others are untouched.
  ghost predicate RateSet(s: State, t: State, k: int, ca: int, e: Event)
    requires e.Request? && LiveConn(t, k)
  {
    && (forall j | j != k :: LiveConn(t, j) <==> LiveConn(s, j))
    && (forall j | j != k && LiveConn(s, j) && LiveConn(t, j) :: t.conns[j] == s.conns[j])
    && var rate := t.conns[k].value.curBitrate;
       if e.video then exists avg :: PairAverage(s, ca, e.servAddr, avg) && Rates.IsChoice(s.rates, avg, rate)
       else rate == if LiveConn(s, k) then s.conns[k].value.curBitrate else 10
  }

  lemma OpenedAverage(s: State, u: State, ca: int, sa: int)
    requires u.thrus == s.thrus
    ensures forall avg :: PairAverage(u, ca, sa, avg) <==> PairAverage(s, ca, sa, avg)
  {
    SameThrus(s, u);
  }

  // After a response the server's connection is still there exactly if the reply was a
  // document or a body that could be sent; the other connections stay as they were, but
  // for one more after a reopening list.
  lemma ResponseKeepsConnectionIff(s: State, listen: int, e: Event, t: State)
    requires Inv(s, listen) && InRange(s) && Enabled(s, listen, e) && e.Respond? && Step(s, e) == Some(t)
    ensures exists k :: LiveConn(s, k) && s.conns[k].value.serv == e.serv && ConnKept(s, t, k, e.reply)
    ensures t.rates == if e.reply.ListXml? then e.reply.rates else s.rates
  {
    StepIsExact(s, listen, e);
    hide Inv, Answered, ConnKept;
    var k :| LiveConn(s, k) && s.conns[k].value.serv == e.serv && Answered(s, t, k, e.reply);
    AnsweredKeeps(s, t, k, e.reply);
  }

  ghost predicate ConnKept(s: State, t: State, k: int, reply: Reply)
    requires LiveConn(s, k)
  {
    && (LiveConn(t, k) <==> reply.PlainXml? || reply.ListXml? || (reply.Body? && reply.sent))
    && (forall j | j != k && LiveConn(s, j) :: LiveConn(t, j) && t.conns[j] == s.conns[j])
    && (forall j | j != k && LiveConn(t, j) && !LiveConn(s, j) ::
          reply.ListXml? && reply.reopen.Some? && t.conns[j].value.clit == s.conns[k].value.clit)
  }

  lemma AnsweredKeeps(s: State, t: State, k: int, reply: Reply)
    requires LiveConn(s, k) && Answered(s, t, k, reply)
    ensures ConnKept(s, t, k, reply)
    ensures t.rates == if reply.ListXml? then reply.rates else s.rates
  {
    match reply
    case Useless =>
    case PlainXml =>
    case ListXml(rates, reopen) =>
      if reopen.Some? {
        var v, j :| Opened(s.(rates := rates), t, s.conns[k].value.clit, reopen.value.0, reopen.value.1, v, j);
      }
    case Body(sum, elapsed, sent) =>
      hide Rates.MeansThroughput, Rates.IsNewAverage, Rates.TruncatesTo;
      var u, r, i :| Rates.MeansThroughput(sum, elapsed, r) && Measured(s, u, k, r, i)
                     && if sent then t == u else Closed(u, t, k);
  }

  // A body changes exactly the entry of the connection's own pair. If that was fresh, its
  // average becomes the integer part of the throughput.
  lemma BodyMeasures(s: State, listen: int, e: Event, t: State)
    requires Inv(s, listen) && InRange(s) && Enabled(s, listen, e) && Step(s, e) == Some(t)
    requires e.Respond? && e.reply.Body?
    ensures exists k, i, r :: && LiveConn(s, k) && s.conns[k].value.serv == e.serv
                              && Rates.MeansThroughput(e.reply.sum, e.reply.elapsed, r)
                              && EntryMeasured(s, t, k, i, r)
  {
    StepIsExact(s, listen, e);
    hide Inv, Rates.MeansThroughput, Rates.IsNewAverage, Rates.TruncatesTo;
    var k :| LiveConn(s, k) && s.conns[k].value.serv == e.serv && Answered(s, t, k, e.reply);
    var u, r, i :| Rates.MeansThroughput(e.reply.sum, e.reply.elapsed, r) && Measured(s, u, k, r, i)
                   && if e.reply.sent then t == u else Closed(u, t, k);
    FreshMeasured(s, u, k, r, i);
    assert EntryMeasured(s, t, k, i, r);
  }

  ghost predicate EntryMeasured(s: State, t: State, k: int, i: int, r: real) {
    && LiveConn(s, k) && LiveClient(s, s.conns[k].value.clit) && LiveServer(s, s.conns[k].value.serv)
    && |t.thrus| == |s.thrus| && (forall j | 0 <= j < |s.thrus| && j != i :: t.thrus[j] == s.thrus[j])
    && (var c := s.conns[k].value;
        Accepted(s.thrus, OfPair(s.clients[c.clit].value.addr, s.servers[c.serv].value.addr), i))
    && t.thrus[i].Some? && t.thrus[i].value.clitAddr == s.thrus[i].value.clitAddr
    && t.thrus[i].value.servAddr == s.thrus[i].value.servAddr
    && Rates.IsNewAverage(s.alpha, s.thrus[i].value.avgPut, r, t.thrus[i].value.avgPut)
    && (s.thrus[i].value.avgPut == 0 ==> Rates.TruncatesTo(r, t.thrus[i].value.avgPut))
  }

  lemma FreshMeasured(s: State, t: State, k: int, r: real, i: int)
    requires Measured(s, t, k, r, i)
    ensures EntryMeasured(s, t, k, i, r)
  {
  }
}
