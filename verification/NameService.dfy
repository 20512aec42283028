/** The name server as a whole: one request read, checked, routed and answered, and what
    the resolver at the other end makes of the reply. */
module NameService {
  import opened Wrappers
  import opened Graphs
  import opened DnsNames
  import opened Router
  import C = DnsC
  import R = Routing
  import L = LsaDatabase
  import G = Generator
  import E = EndToEnd
  import T = DnsTheorems

  // ------------------------------------------------------------------ one request

  predicate Accepted(buffer: seq<byte>, reference: seq<byte>)
    requires 2 <= |reference| <= |buffer|
  {
    buffer[2..|reference|] == reference[2..]
  }

  // The query up to its end, after the attempt to set an error code.
  function Rejection(buffer: seq<byte>): seq<byte>
    requires C.HasQuery(buffer)
  {
    buffer[3 := 16 * (buffer[3] / 16) + C.HtonlNibble(3)][..C.QueryLength(buffer)]
  }

  // The reply to the query at the start of buffer; None stands for the crash when there
  // is no route. pton turns an address in text form into its four bytes.
  function Reply(route: Option<Name>, buffer: seq<byte>, reference: seq<byte>, pton: Name -> seq<byte>)
    : Option<seq<byte>>
    requires C.HasQuery(buffer) && 2 <= |reference| <= |buffer|
  {
    if !Accepted(buffer, reference) then Some(Rejection(buffer))
    else if route.None? then None
    else Some(C.Answer(buffer, pton(route.value)))
  }

  // The answer that the router's state gives to a request from this address.
  ghost function NextRoute(ospf: Ospf, from: Name, rrFlag: bool): Option<Name>
    reads ospf`table, ospf`db, ospf`queryCount
  {
    if rrFlag then R.Turn(ospf.db.order, ospf.queryCount) else R.Lookup(ospf.table, from)
  }

  method Serve(ospf: Ospf, reqBuf: array<byte>, resBuf: array<byte>, reference: seq<byte>, from: Name, rrFlag: bool,
               pton: Name -> seq<byte>)
    returns (reply: Option<seq<byte>>)
    requires ospf.DbValid() && ospf.RoutesValid()
    requires reqBuf != resBuf && C.HasQuery(reqBuf[..]) && 2 <= |reference| <= reqBuf.Length
    requires C.QueryLength(reqBuf[..]) + StrLen(reqBuf[..], 12) + 15 <= resBuf.Length
    requires forall n :: |pton(n)| == 4
    modifies ospf`queryCount, reqBuf, resBuf
    ensures ospf.DbValid() && ospf.RoutesValid()
    ensures reply == Reply(old(NextRoute(ospf, from, rrFlag)), old(reqBuf[..]), reference, pton)
    ensures ospf.queryCount ==
              if rrFlag && old(Accepted(reqBuf[..], reference)) && old(NextRoute(ospf, from, rrFlag)).Some?
              then R.NextCount(old(ospf.queryCount)) else old(ospf.queryCount)
  {
    hide C.Answer, StrLen, Ospf.DbValid, Ospf.RoutesValid, R.Turn, R.Lookup;
    var parsed := C.Parse(reqBuf, reference);
    assert ospf.Nodes() == old(ospf.Nodes());
    if parsed == -1 {
      var length := C.ResErr(reqBuf);
      assert ospf.Nodes() == old(ospf.Nodes());
      return Some(reqBuf[..length]);
    }
    var server := ospf.Route(from, rrFlag);
    if server.None? {
      return None;
    }
    var length := C.GenRes(reqBuf, resBuf, pton(server.value));
    assert ospf.Nodes() == old(ospf.Nodes());
    reply := Some(resBuf[..length]);
  }

  // ------------------------------------------------------------------ resolving

  // A resolver gets the routed address for the reference host, and for no other host,
  // if the reply buffer is large enough for an answer.
  lemma Resolution(route: Option<Name>, id: C.u16, src: seq<byte>, junk: seq<byte>, refId: C.u16, ref: seq<byte>,
                   room: seq<byte>, pton: Name -> seq<byte>)
    requires WellFormed(src, 255) && WellFormed(ref, 255) && |ref| <= |src| + |junk|
    requires forall n :: |pton(n)| == 4
    ensures var query, reference := C.QueryPacket(id, src), C.QueryPacket(refId, ref);
            && C.HasQuery(query + junk) && C.HasQuery(query) && |reference| == |ref| + 18 <= |query + junk|
            && |query| == C.QueryLength(query + junk) == |src| + 18
            && StrLen(query, 12) == StrLen(query + junk, 12) == |src| + 1
            && (var reply := Reply(route, query + junk, reference, pton);
                && (reply.None? <==> src == ref && route.None?)
                && (src != ref ==> reply == Some(query))
                && (src == ref && reply.Some? ==> |reply.value| == 2 * |src| + 34)
                && (reply.Some? && 2 * |src| + 34 <= |reply.value + room| ==>
                     C.ReadAnswer(query, reply.value + room) == if src == ref then Some(pton(route.value)) else None))
  {
    hide C.Answer, C.ReadAnswer, StrLen, Wire, WellFormed, T.Message, Rejection, C.QueryPacket;
    var query, reference := C.QueryPacket(id, src), C.QueryPacket(refId, ref);
    var buffer := query + junk;
    T.QueryInBuffer(id, src, junk);
    T.QuestionFound(id, T.QUERY_COUNTS, src, T.TYPE_A_CLASS_IN, junk);
    T.IsMessage(id, src);
    T.QuestionFound(id, T.QUERY_COUNTS, src, T.TYPE_A_CLASS_IN, []);
    T.Expected(id, src);
    T.Expected(refId, ref);
    T.AcceptsExactlyReference(id, T.QUERY_COUNTS, src, T.TYPE_A_CLASS_IN, junk, refId, ref);
    if src != ref {
      RejectedQuery(id, src, junk);
      assert Reply(route, buffer, reference, pton) == Some(query);
      if 2 * |src| + 34 <= |query + room| {
        T.RejectionIsNoAnswer(id, src, id, src, room);
      }
    } else if route.Some? {
      var ip := pton(route.value);
      T.AnswerIs(id, src, junk, ip);
      T.AnswerLength(id, src, ip);
      T.ResolverRoundTrip(id, src, id, src, ip, room);
    }
  }

  lemma RejectedQuery(id: C.u16, src: seq<byte>, junk: seq<byte>)
    requires C.HasQuery(C.QueryPacket(id, src) + junk) && C.QueryLength(C.QueryPacket(id, src) + junk) == |src| + 18
    requires |C.QueryPacket(id, src)| == |src| + 18
    ensures Rejection(C.QueryPacket(id, src) + junk) == C.QueryPacket(id, src)
  {
    hide Wire, StrLen;
    var buffer := C.QueryPacket(id, src) + junk;
    assert buffer[3] == 0;
    C.ErrorReplyEchoesQuery(buffer);
  }

  // The whole chain, from the link file over lost announcements, the database and the
  // search to the bytes of query and answer: if a client can reach a server at all,
  // start-up succeeds, and the client resolves the host to the address of a nearest
  // server of the real network.
  lemma ClientResolvesNearest(lines: seq<(Name, Name)>, sink: Name, rounds: nat, lost: (nat, nat) -> bool,
                              servers: seq<Name>, c: Name, id: C.u16, host: seq<byte>, junk: seq<byte>,
                              refId: C.u16, room: seq<byte>, pton: Name -> seq<byte>)
    returns (s: Name)
    requires L.IsClient(servers, G.Log(G.Links(lines), sink, rounds, lost), c)
    requires E.SilentDispensable(G.Links(lines), E.Senders(G.Log(G.Links(lines), sink, rounds, lost)))
    requires exists t :: t in servers && Reaches(G.Links(lines), c, t)
    requires WellFormed(host, 255) && forall n :: |pton(n)| == 4
    ensures R.Ready(L.Boot(servers, G.Log(G.Links(lines), sink, rounds, lost)))
    ensures Nearest(G.Links(lines), Elements(servers), c, s)
    ensures var query, reference := C.QueryPacket(id, host), C.QueryPacket(refId, host);
            && C.HasQuery(query + junk) && C.HasQuery(query) && |reference| <= |query + junk|
            && |query| == |host| + 18 && StrLen(query, 12) == |host| + 1
            && (var route := R.Route(L.Boot(servers, G.Log(G.Links(lines), sink, rounds, lost)), c);
                var reply := Reply(route, query + junk, reference, pton);
                && reply.Some? && |reply.value| == 2 * |host| + 34
                && C.ReadAnswer(query, reply.value + room) == Some(pton(s)))
  {
    hide *;
    E.RouteIsNearestInNetwork(G.Links(lines), sink, rounds, lost, servers, c);
    var route := R.Route(L.Boot(servers, G.Log(G.Links(lines), sink, rounds, lost)), c);
    Resolution(route, id, host, junk, refId, host, room, pton);
    s := route.value;
    ServiceStarts(lines, sink, rounds, lost, servers, c);
  }

  lemma ServiceStarts(lines: seq<(Name, Name)>, sink: Name, rounds: nat, lost: (nat, nat) -> bool,
                      servers: seq<Name>, c: Name)
    requires L.IsClient(servers, G.Log(G.Links(lines), sink, rounds, lost), c)
    requires E.SilentDispensable(G.Links(lines), E.Senders(G.Log(G.Links(lines), sink, rounds, lost)))
    requires exists t :: t in servers && Reaches(G.Links(lines), c, t)
    ensures R.Ready(L.Boot(servers, G.Log(G.Links(lines), sink, rounds, lost)))
  {
    hide E.SilentDispensable, R.Ready;
    var links := G.Links(lines);
    var t :| t in servers && Reaches(links, c, t);
    E.ClientIsHeard(links, sink, rounds, lost, servers, c);
    E.HeardAreReachable(links, sink, c);
    var j: nat :| Within(links, sink, c, j);
    var k: nat :| Within(links, c, t, k);
    WithinTransitive(links, sink, c, t, j, k);
    E.StartsWhenServerConnected(lines, sink, rounds, lost, servers, t);
  }

  // ------------------------------------------------------------------ a whole session

  datatype Outcome =
    | NotStarted
    | Crashed
    | Failed
    | Resolved(ip: seq<byte>)

  // What becomes of a request for src, asked of a server for ref that routes like this.
  function Expected(route: Option<Name>, src: seq<byte>, ref: seq<byte>, pton: Name -> seq<byte>): Outcome {
    if src != ref then Failed
    else if route.None? then Crashed
    else Resolved(pton(route.value))
  }

  // The name server starts on its files and answers one request for src of the resolver
  // at address c; all buffers have the same size.
  method Session(servers: seq<Name>, log: seq<L.Lsa>, ref: seq<byte>, refId: C.u16,
                 c: Name, src: seq<byte>, id: C.u16, size: nat, pton: Name -> seq<byte>)
    returns (outcome: Outcome)
    requires WellFormed(src, 255) && WellFormed(ref, 255) && forall n :: |pton(n)| == 4
    requires |ref| + 18 <= size && 2 * |src| + 34 <= size
    ensures outcome == if R.Ready(L.Boot(servers, log)) then Expected(R.Route(L.Boot(servers, log), c), src, ref, pton)
                       else NotStarted
  {
    hide C.QueryPacket, C.HasQuery, C.QueryLength, C.ReadAnswer, StrLen, WellFormed, Reply, NextRoute;
    hide Ospf.DbValid, Ospf.RoutesValid, R.Ready, R.Route, L.Boot;
    var pktBuf, reqBuf := new byte[size], new byte[size];
    var pktLen := C.BuildQuery(pktBuf, ref, refId);
    var length := C.BuildQuery(reqBuf, src, id);
    var query, reference := reqBuf[..length], pktBuf[..pktLen];
    var ospf, started := Start(servers, log);
    if !started {
      return NotStarted;
    }
    NextIsRoute(ospf, servers, log, c);
    ghost var route, junk, room := R.Route(L.Boot(servers, log), c), [], [];
    var reply, ip;
    reply, junk := AskServer(ospf, query, reference, c, size, id, src, refId, ref, pton);
    Resolution(route, id, src, junk, refId, ref, [], pton);
    if reply.None? {
      return Crashed;
    }
    ip, room := ReadReply(reqBuf, length, reply.value, size);
    Resolution(route, id, src, junk, refId, ref, room, pton);
    outcome := if ip.None? then Failed else Resolved(ip.value);
  }

  method Start(servers: seq<Name>, log: seq<L.Lsa>) returns (ospf: Ospf, started: bool)
    ensures fresh(ospf) && ospf.DbValid() && ospf.RoutesValid()
    ensures started <==> R.Ready(L.Boot(servers, log))
    ensures ospf.db == L.Boot(servers, log)
    ensures started ==> ospf.table == R.Routes(ospf.db, ospf.db.clits)
  {
    ospf := new Ospf();
    started := ospf.OspfInit(servers, log, false);
  }

  // The routing table answers as the database does.
  lemma NextIsRoute(ospf: Ospf, servers: seq<Name>, log: seq<L.Lsa>, c: Name)
    requires ospf.db == L.Boot(servers, log) && ospf.table == R.Routes(ospf.db, ospf.db.clits)
    ensures NextRoute(ospf, c, false) == R.Route(L.Boot(servers, log), c)
  {
    R.LookupFindsRoute(ospf.db, ospf.db.clits, c);
  }

  // The server's side of one exchange: the query arrives in a buffer with old contents.
  method AskServer(ospf: Ospf, query: seq<byte>, reference: seq<byte>, c: Name, size: nat, ghost id: C.u16,
                   ghost src: seq<byte>, ghost refId: C.u16, ghost ref: seq<byte>, pton: Name -> seq<byte>)
    returns (reply: Option<seq<byte>>, ghost junk: seq<byte>)
    requires ospf.DbValid() && ospf.RoutesValid()
    requires query == C.QueryPacket(id, src) && reference == C.QueryPacket(refId, ref)
    requires WellFormed(src, 255) && WellFormed(ref, 255) && forall n :: |pton(n)| == 4
    requires |query| == |src| + 18 && |ref| + 18 <= size && 2 * |src| + 34 <= size
    modifies ospf`queryCount
    ensures |query + junk| == size
    ensures C.HasQuery(query + junk) && 2 <= |reference| <= size
    ensures reply == Reply(old(NextRoute(ospf, c, false)), query + junk, reference, pton)
  {
    hide C.QueryPacket, C.HasQuery, C.QueryLength, StrLen, WellFormed, Reply, Ospf.DbValid, Ospf.RoutesValid;
    var reqBuf, resBuf := new byte[size], new byte[size];
    var end := C.Append(reqBuf, 0, query);
    junk := reqBuf[end..];
    assert reqBuf[..] == query + junk;
    Resolution(None, id, src, junk, refId, ref, [], pton);
    assert ospf.Nodes() == old(ospf.Nodes());
    reply := Serve(ospf, reqBuf, resBuf, reference, c, false, pton);
  }

  // The resolver's side: the reply arrives in a buffer with old contents.
  method ReadReply(reqBuf: array<byte>, length: nat, reply: seq<byte>, size: nat)
    returns (ip: Option<seq<byte>>, ghost room: seq<byte>)
    requires length <= reqBuf.Length && C.HasQuery(reqBuf[..length]) && |reply| <= size
    requires length + StrLen(reqBuf[..length], 12) + 15 <= size
    modifies reqBuf
    ensures |reply + room| == size
    ensures ip == C.ReadAnswer(old(reqBuf[..length]), reply + room)
  {
    hide *;
    var resBuf := new byte[size];
    var end := C.Append(resBuf, 0, reply);
    room := resBuf[end..];
    assert resBuf[..] == reply + room;
    ip := C.ParseRes(reqBuf, resBuf, length);
  }
}
