/** The stored averages and bitrates over whole runs of the proxy. */
module ProxyRates {
  import opened Wrappers
  import opened Slots
  import opened PoolSpec
  import opened ProxyRuns
  import opened ProxyLimits
  import Rates

  // An average that is fresh, or between the bounds of the samples.
  ghost predicate Between(avg: int, lo: int, hi: real) {
    avg == 0 || (lo <= avg && avg as real <= hi)
  }

  // A bitrate that is the initial one, or was chosen from one of the lists for such an
  // average.
  ghost predicate Chosen(rate: int, lists: set<seq<int>>, lo: int, hi: real) {
    rate == 10 || exists rates, avg :: rates in lists && Between(avg, lo, hi) && rate == Rates.Choice(rates, avg)
  }

  ghost predicate Paced(s: State, lists: set<seq<int>>, lo: int, hi: real) {
    && s.rates in lists
    && (forall i | 0 <= i < |s.thrus| && s.thrus[i].Some? :: Between(s.thrus[i].value.avgPut, lo, hi))
    && (forall k | LiveConn(s, k) :: Chosen(s.conns[k].value.curBitrate, lists, lo, hi))
  }

  // The throughput that the event measures, if any, is within the bounds.
  ghost predicate Sampled(e: Event, lo: int, hi: real) {
    e.Respond? && e.reply.Body? && e.reply.elapsed != 0.0 ==>
      lo as real <= Rates.Sample(e.reply.sum, e.reply.elapsed) <= hi
  }

  function ListOf(e: Event): set<seq<int>> {
    if e.Respond? && e.reply.ListXml? then {e.reply.rates} else {}
  }

  // ------------------------------------------------------------------ one step

  lemma MoreLists(s: State, lists: set<seq<int>>, more: set<seq<int>>, lo: int, hi: real)
    requires Paced(s, lists, lo, hi)
    ensures Paced(s, lists + more, lo, hi)
  {
    forall k | LiveConn(s, k)
      ensures Chosen(s.conns[k].value.curBitrate, lists + more, lo, hi)
    {
      assert Chosen(s.conns[k].value.curBitrate, lists, lo, hi);
    }
  }

  // t has only connections and entries of s, and at most a new connection at index k.
  lemma FewerConns(s: State, t: State, k: int, lists: set<seq<int>>, lo: int, hi: real)
    requires Paced(s, lists, lo, hi)
    requires t.thrus == s.thrus && t.rates == s.rates
    requires forall j | LiveConn(t, j) && j != k ::
               LiveConn(s, j) && t.conns[j].value.curBitrate == s.conns[j].value.curBitrate
    requires LiveConn(t, k) ==> t.conns[k].value.curBitrate == 10
    ensures Paced(t, lists, lo, hi)
  {
    hide Between;
    assert Chosen(10, lists, lo, hi);
  }

  lemma ClosePaced(s: State, k: int, lists: set<seq<int>>, lo: int, hi: real)
    requires Paced(s, lists, lo, hi)
    ensures var r := TryClose(s, k); r.Some? ==> Paced(r.value, lists, lo, hi) && r.value.alpha == s.alpha
  {
    var r := TryClose(s, k);
    if r.Some? {
      assert r.value.conns == s.conns[k := None];
      FewerConns(s, r.value, -1, lists, lo, hi);
    }
  }

  lemma OpenPaced(s: State, clit: int, fd: int, addr: int, lists: set<seq<int>>, lo: int, hi: real)
    requires Paced(s, lists, lo, hi)
    ensures var r := TryOpen(s, clit, fd, addr);
            r.Some? ==> Paced(r.value.0, lists, lo, hi) && r.value.0.alpha == s.alpha
  {
    var r := TryOpen(s, clit, fd, addr);
    if r.Some? {
      FewerConns(s, r.value.0, r.value.1, lists, lo, hi);
    }
  }

  lemma AddThruPaced(s: State, ca: int, sa: int, lists: set<seq<int>>, lo: int, hi: real)
    requires Paced(s, lists, lo, hi)
    ensures Paced(AddThru(s, ca, sa), lists, lo, hi) && AddThru(s, ca, sa).alpha == s.alpha
  {
    hide Chosen;
    var t := AddThru(s, ca, sa);
    assert forall k | LiveConn(t, k) :: LiveConn(s, k);
  }

  lemma SetRatePaced(s: State, k: int, rate: int, lists: set<seq<int>>, lo: int, hi: real)
    requires Paced(s, lists, lo, hi) && LiveConn(s, k) && Chosen(rate, lists, lo, hi)
    ensures Paced(SetRate(s, k, rate), lists, lo, hi) && SetRate(s, k, rate).alpha == s.alpha
  {
    hide Chosen, Between;
    assert forall j | LiveConn(SetRate(s, k, rate), j) :: LiveConn(s, j);
  }

  lemma MeasurePaced(s: State, k: int, i: int, sample: real, lists: set<seq<int>>, lo: int, hi: real)
    requires Paced(s, lists, lo, hi) && LiveConn(s, k) && 0 <= i < |s.thrus| && s.thrus[i].Some?
    requires 0.0 <= s.alpha <= 1.0 && 0 <= lo && lo as real <= sample <= hi
    ensures Paced(Measure(s, k, i, sample), lists, lo, hi) && Measure(s, k, i, sample).alpha == s.alpha
  {
    hide Chosen;
    Rates.NewAverageBetween(s.alpha, s.thrus[i].value.avgPut, sample, lo, hi);
    assert forall j | LiveConn(Measure(s, k, i, sample), j) :: LiveConn(s, j);
  }

  lemma ForwardPaced(s: State, clit: int, k: int, video: bool, lists: set<seq<int>>, lo: int, hi: real)
    requires Sized(s) && Paced(s, lists, lo, hi)
    ensures var r := Forward(s, clit, k, video); r.Some? ==> Paced(r.value, lists, lo, hi) && r.value.alpha == s.alpha
  {
    hide Paced, GetThru, AddThru, FirstFree, Chosen;
    var r := Forward(s, clit, k, video);
    if r.Some? {
      var ca, sa := s.clients[clit].value.addr, s.servers[s.conns[k].value.serv].value.addr;
      var i := GetThru(s, ca, sa);
      var t := if i == -1 then AddThru(s, ca, sa) else s;
      var j := if i == -1 then FirstFree(s.thrus) else i;
      AddThruPaced(s, ca, sa, lists, lo, hi);
      if video {
        ChosenNow(t, j, lists, lo, hi);
        SameConns(s, ca, sa, k);
        SetRatePaced(t, k, Rates.Choice(t.rates, t.thrus[j].value.avgPut), lists, lo, hi);
      }
    }
  }

  lemma SameConns(s: State, ca: int, sa: int, k: int)
    ensures LiveConn(AddThru(s, ca, sa), k) <==> LiveConn(s, k)
  {
  }

  lemma ChosenNow(t: State, j: int, lists: set<seq<int>>, lo: int, hi: real)
    requires Paced(t, lists, lo, hi) && 0 <= j < |t.thrus| && t.thrus[j].Some?
    ensures Chosen(Rates.Choice(t.rates, t.thrus[j].value.avgPut), lists, lo, hi)
  {
  }

  lemma StepPaced(s: State, e: Event, lists: set<seq<int>>, lo: int, hi: real)
    requires Paced(s, lists, lo, hi) && Sampled(e, lo, hi) && 0.0 <= s.alpha <= 1.0 && 0 <= lo
    ensures Step(s, e).Some? ==> Paced(Step(s, e).value, lists + ListOf(e), lo, hi) && Step(s, e).value.alpha == s.alpha
  {
    hide Paced, TryOpen, TryClose, Forward, ClientGetConn, ServerGetConn, GetThru, Measure, Chosen, RefsLive;
    MoreLists(s, lists, ListOf(e), lo, hi);
    var more := lists + ListOf(e);
    if Step(s, e).Some? {
      match e
      case Accept(fd, addr) => AcceptPaced(s, fd, addr, more, lo, hi);
      case Request(clit, servAddr, newFd, headersOk, video) =>
        var k := ClientGetConn(s, s.clients[clit].value.fd, servAddr);
        OpenPaced(s, clit, newFd, servAddr, more, lo, hi);
        var open := if k == -1 then TryOpen(s, clit, newFd, servAddr) else Some((s, k));
        if headersOk {
          ForwardPaced(open.value.0, clit, open.value.1, video, more, lo, hi);
        } else {
          ClosePaced(open.value.0, open.value.1, more, lo, hi);
        }
      case Respond(serv, reply) => RespondPaced(s, serv, reply, more, lo, hi);
    }
  }

  lemma AcceptPaced(s: State, fd: int, addr: int, lists: set<seq<int>>, lo: int, hi: real)
    requires Paced(s, lists, lo, hi)
    ensures Paced(AddClient(s, fd, addr), lists, lo, hi) && AddClient(s, fd, addr).alpha == s.alpha
  {
    FewerConns(s, AddClient(s, fd, addr), -1, lists, lo, hi);
  }

  lemma RespondPaced(s: State, serv: int, reply: Reply, lists: set<seq<int>>, lo: int, hi: real)
    requires Paced(s, lists, lo, hi) && Sampled(Respond(serv, reply), lo, hi) && 0.0 <= s.alpha <= 1.0 && 0 <= lo
    requires reply.ListXml? ==> reply.rates in lists
    ensures var r := Server2Client(s, serv, reply);
            r.Some? ==> Paced(r.value, lists, lo, hi) && r.value.alpha == s.alpha
  {
    hide Paced, TryOpen, TryClose, ServerGetConn, GetThru, Measure, Chosen;
    var r := Server2Client(s, serv, reply);
    if r.Some? {
      var k := ServerGetConn(s, s.servers[serv].value.fd);
      match reply
      case Useless => ClosePaced(s, k, lists, lo, hi);
      case PlainXml =>
      case ListXml(rates, reopen) =>
        ListPaced(s, rates, lists, lo, hi);
        if reopen.Some? {
          OpenPaced(s.(rates := rates), s.conns[k].value.clit, reopen.value.0, reopen.value.1, lists, lo, hi);
        }
      case Body(sum, elapsed, sent) =>
        var i := GetThru(s, s.clients[s.conns[k].value.clit].value.addr, s.servers[serv].value.addr);
        MeasurePaced(s, k, i, Rates.Sample(sum, elapsed), lists, lo, hi);
        ClosePaced(Measure(s, k, i, Rates.Sample(sum, elapsed)), k, lists, lo, hi);
    }
  }

  lemma ListPaced(s: State, rates: seq<int>, lists: set<seq<int>>, lo: int, hi: real)
    requires Paced(s, lists, lo, hi) && rates in lists
    ensures Paced(s.(rates := rates), lists, lo, hi)
  {
    hide Chosen, Between;
    assert forall k | LiveConn(s.(rates := rates), k) :: LiveConn(s, k);
  }

  // ------------------------------------------------------------------ all runs

  // The lists published during a run, and the empty one from the start.
  function Lists(events: seq<Event>): set<seq<int>> {
    if events == [] then {[]} else Lists(events[..|events| - 1]) + ListOf(events[|events| - 1])
  }

  // In every run from start-up whose samples lie between lo and hi: each stored average is
  // fresh or between them, and each bitrate is the initial one or the choice from a
  // published list for such an average.
  lemma {:induction false} RunIsPaced(listen: int, alpha: real, events: seq<Event>, lo: int, hi: real)
    requires 0.0 <= alpha <= 1.0 && 0 <= lo && forall e | e in events :: Sampled(e, lo, hi)
    ensures var r := Run(Init(listen, alpha), events);
            r.Some? ==> Paced(r.value, Lists(events), lo, hi) && r.value.alpha == alpha
    decreases |events|
  {
    hide Step, Sampled, Paced, Init;
    if events == [] {
      InitPaced(listen, alpha, lo, hi);
    } else {
      var p, e := events[..|events| - 1], events[|events| - 1];
      assert events == p + [e];
      RunIsPaced(listen, alpha, p, lo, hi);
      var s := Run(Init(listen, alpha), p);
      if s.Some? {
        StepPaced(s.value, e, Lists(p), lo, hi);
      }
    }
  }

  lemma InitPaced(listen: int, alpha: real, lo: int, hi: real)
    ensures Paced(Init(listen, alpha), {[]}, lo, hi) && Init(listen, alpha).alpha == alpha
  {
  }
}
