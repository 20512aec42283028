/** What the two sides of the name service make of each other's messages. */
module DnsTheorems {
  import opened Wrappers
  import opened DnsNames
  import C = DnsC
  import Py = DnsPython

  // A message in parts: identifier, flags and counts, question, whatever follows.
  function Message(id: C.u16, h: seq<byte>, src: seq<byte>, t: seq<byte>, post: seq<byte>): seq<byte> {
    C.BigEndian(id) + h + Wire(src) + t + post
  }

  const QUERY_COUNTS: seq<byte> := [0, 0, 0, 1, 0, 0, 0, 0, 0, 0]
  const ANSWER_COUNTS: seq<byte> := [132, 0, 0, 1, 0, 1, 0, 0, 0, 0]
  const TYPE_A_CLASS_IN: seq<byte> := [0, 1, 0, 1]

  lemma WireLength(src: seq<byte>)
    ensures |Wire(src)| == |src| + 2
  {
    LabelsLength(src);
  }

  lemma MessageParts(id: C.u16, h: seq<byte>, src: seq<byte>, t: seq<byte>, post: seq<byte>)
    requires |h| == 10 && |t| == 4
    ensures var m, n := Message(id, h, src, t, post), 14 + |src|;
            && |m| == n + 4 + |post|
            && m[..2] == C.BigEndian(id) && m[2..12] == h && m[12..n] == Wire(src) && m[n..n + 4] == t
            && m[n + 4..] == post
            && m == (C.BigEndian(id) + h) + Wire(src) + (t + post)
            && m[2..] == h + Wire(src) + t + post
  {
    hide Wire;
    WireLength(src);
    var a, w := C.BigEndian(id), Wire(src);
    assert |a| == 2;
    assert a + h + w + t + post == (a + h) + w + (t + post);
    Slices(a, h, w, t, post);
  }

  lemma Slices(a: seq<byte>, h: seq<byte>, w: seq<byte>, t: seq<byte>, post: seq<byte>)
    requires |a| == 2 && |h| == 10 && |t| == 4
    ensures var m, n := a + h + w + t + post, 12 + |w|;
            && m[..2] == a && m[2..12] == h && m[12..n] == w && m[n..n + 4] == t && m[n + 4..] == post
            && m[2..] == h + w + t + post
  {
  }

  // ------------------------------------------------------------------ C to C

  // The server finds the name and the end of the question in its larger buffer.
  lemma QuestionFound(id: C.u16, h: seq<byte>, src: seq<byte>, t: seq<byte>, post: seq<byte>)
    requires WellFormed(src, 255) && |h| == 10 && |t| == 4
    ensures var m := Message(id, h, src, t, post);
            && C.HasQuery(m) && C.QueryLength(m) == |src| + 18
            && StrLen(m, 12) == |src| + 1 && C.NameAt(m, 12) == Wire(src)
  {
    hide Wire, StrLen, Message, WellFormed;
    MessageParts(id, h, src, t, post);
    WireIsCString(C.BigEndian(id) + h, src, t + post);
  }

  // The server accepts a query exactly if flags, counts, name and question are those of
  // its reference; the identifier and what follows do not matter.
  lemma AcceptsExactlyReference(id: C.u16, h: seq<byte>, src: seq<byte>, t: seq<byte>, post: seq<byte>,
                                refId: C.u16, ref: seq<byte>)
    requires WellFormed(src, 255) && WellFormed(ref, 255) && |h| == 10 && |t| == 4
    requires |C.QueryPacket(refId, ref)| <= |Message(id, h, src, t, post)|
    ensures var reference := C.QueryPacket(refId, ref);
            Message(id, h, src, t, post)[2..|reference|] == reference[2..]
            <==> h == QUERY_COUNTS && src == ref && t == TYPE_A_CLASS_IN
  {
    hide Wire, Message, WellFormed;
    var m, reference := Message(id, h, src, t, post), C.QueryPacket(refId, ref);
    IsMessage(refId, ref);
    MessageParts(id, h, src, t, post);
    MessageParts(refId, QUERY_COUNTS, ref, TYPE_A_CLASS_IN, []);
    var n := |reference|;
    var x, y := h + Wire(src) + t + post, QUERY_COUNTS + Wire(ref) + TYPE_A_CLASS_IN;
    assert reference[2..] == y by {
      assert y + [] == y;
    }
    PrefixOfTail(m, x, n);
    if x[..n - 2] == y {
      SamePrefix(h, src, t, post, ref);
    }
  }

  lemma IsMessage(id: C.u16, src: seq<byte>)
    ensures C.QueryPacket(id, src) == Message(id, QUERY_COUNTS, src, TYPE_A_CLASS_IN, [])
  {
  }

  lemma PrefixOfTail(m: seq<byte>, x: seq<byte>, n: nat)
    requires 2 <= n <= |m| && m[2..] == x
    ensures n - 2 <= |x| && m[2..n] == x[..n - 2]
  {
  }

  lemma SamePrefix(h: seq<byte>, src: seq<byte>, t: seq<byte>, post: seq<byte>, ref: seq<byte>)
    requires WellFormed(src, 255) && WellFormed(ref, 255) && |h| == 10 && |t| == 4
    requires var y := QUERY_COUNTS + Wire(ref) + TYPE_A_CLASS_IN;
             var x := h + Wire(src) + t + post;
             |y| <= |x| && x[..|y|] == y
    ensures h == QUERY_COUNTS && src == ref && t == TYPE_A_CLASS_IN
  {
    hide Wire;
    var y := QUERY_COUNTS + Wire(ref) + TYPE_A_CLASS_IN;
    var x := h + Wire(src) + t + post;
    var rest := x[|y|..];
    assert x == y + rest;
    Halves(h, Wire(src), t, post, QUERY_COUNTS, Wire(ref), TYPE_A_CLASS_IN, rest);
    WirePrefixFree(src, ref, t + post, TYPE_A_CLASS_IN + rest);
    assert (t + post)[..4] == t && (TYPE_A_CLASS_IN + rest)[..4] == TYPE_A_CLASS_IN;
  }

  lemma Halves(h: seq<byte>, w: seq<byte>, t: seq<byte>, p: seq<byte>,
               h': seq<byte>, w': seq<byte>, t': seq<byte>, p': seq<byte>)
    requires |h| == |h'| && h + w + t + p == h' + w' + t' + p'
    ensures h == h' && w + (t + p) == w' + (t' + p')
  {
    var x := h + w + t + p;
    assert x[..|h|] == h && x[|h|..] == w + (t + p);
    assert x == h' + w' + t' + p';
    assert x[..|h'|] == h' && x[|h'|..] == w' + (t' + p');
  }

  // The answer to a query in full.
  function AnswerPacket(id: C.u16, src: seq<byte>, ip: seq<byte>): seq<byte> {
    Message(id, ANSWER_COUNTS, src, TYPE_A_CLASS_IN, Wire(src) + C.RESOURCE + ip)
  }

  lemma AnswerLength(id: C.u16, src: seq<byte>, ip: seq<byte>)
    ensures |AnswerPacket(id, src, ip)| == 2 * |src| + 30 + |ip|
  {
    hide Wire, Message;
    WireLength(src);
    MessageParts(id, ANSWER_COUNTS, src, TYPE_A_CLASS_IN, Wire(src) + C.RESOURCE + ip);
  }

  // The server's answer keeps identifier and question, sets three header fields, and
  // repeats the whole name before the record.
  lemma AnswerIs(id: C.u16, src: seq<byte>, junk: seq<byte>, ip: seq<byte>)
    requires WellFormed(src, 255)
    ensures var buffer := C.QueryPacket(id, src) + junk;
            C.HasQuery(buffer) && C.Answer(buffer, ip) == AnswerPacket(id, src, ip)
  {
    hide Wire, StrLen, WellFormed, Message;
    var buffer := C.QueryPacket(id, src) + junk;
    QueryInBuffer(id, src, junk);
    QuestionFound(id, QUERY_COUNTS, src, TYPE_A_CLASS_IN, junk);
    MessageParts(id, QUERY_COUNTS, src, TYPE_A_CLASS_IN, junk);
    HeaderMarked(id);
    var n := |src| + 18;
    assert buffer[..12] == buffer[..2] + buffer[2..12];
    assert buffer[12..n] == buffer[12..n - 4] + buffer[n - 4..n];
    InParts(id, src, ip);
  }

  lemma QueryInBuffer(id: C.u16, src: seq<byte>, junk: seq<byte>)
    ensures C.QueryPacket(id, src) + junk == Message(id, QUERY_COUNTS, src, TYPE_A_CLASS_IN, junk)
  {
  }

  lemma HeaderMarked(id: C.u16)
    ensures C.AnswerHeader(C.BigEndian(id) + QUERY_COUNTS) == C.BigEndian(id) + ANSWER_COUNTS
  {
  }

  lemma InParts(id: C.u16, src: seq<byte>, ip: seq<byte>)
    ensures (C.BigEndian(id) + ANSWER_COUNTS) + (Wire(src) + TYPE_A_CLASS_IN) + Wire(src) + C.RESOURCE + ip
         == AnswerPacket(id, src, ip)
  {
    hide Wire;
    var a, w := C.BigEndian(id) + ANSWER_COUNTS, Wire(src);
    assert a + (w + TYPE_A_CLASS_IN) + w + C.RESOURCE + ip == a + w + TYPE_A_CLASS_IN + (w + C.RESOURCE + ip);
  }

  // The resolver takes the address from the answer to its own query, and from no answer
  // with another identifier or another name.
  lemma ResolverRoundTrip(id: C.u16, src: seq<byte>, id': C.u16, src': seq<byte>, ip: seq<byte>, junk: seq<byte>)
    requires WellFormed(src, 255) && WellFormed(src', 255) && |ip| == 4
    requires 2 * |src| + 34 <= |AnswerPacket(id', src', ip) + junk|
    ensures var query, reply := C.QueryPacket(id, src), AnswerPacket(id', src', ip) + junk;
            && C.HasQuery(query) && |query| + StrLen(query, 12) + 15 <= |reply|
            && C.ReadAnswer(query, reply) == if id == id' && src == src' then Some(ip) else None
  {
    hide Wire, StrLen, WellFormed, Message;
    var query, reply := C.QueryPacket(id, src), AnswerPacket(id', src', ip) + junk;
    IsMessage(id, src);
    QuestionFound(id, QUERY_COUNTS, src, TYPE_A_CLASS_IN, []);
    var w := Wire(src);
    Expected(id, src);
    ReplyParts(id', src', ip, junk);
    var n := |query|;
    if reply[..n] == C.BigEndian(id) + ANSWER_COUNTS + w + TYPE_A_CLASS_IN {
      SameAnswer(id, src, id', src', reply, Wire(src') + C.RESOURCE + ip + junk);
      AddressAt(id, src, ip, junk);
    } else if id == id' && src == src' {
      ReplyHead(id, src, reply, Wire(src) + C.RESOURCE + ip + junk);
    }
  }

  // It takes the four bytes behind the record head of exactly those replies that begin
  // with its identifier, the header of an answer, and its question.
  lemma ResolverAcceptsIff(id: C.u16, src: seq<byte>, reply: seq<byte>)
    requires WellFormed(src, 255) && 2 * |src| + 34 <= |reply|
    ensures |C.QueryPacket(id, src)| == |src| + 18 && StrLen(C.QueryPacket(id, src), 12) == |src| + 1
    ensures C.HasQuery(C.QueryPacket(id, src))
    ensures C.ReadAnswer(C.QueryPacket(id, src), reply) ==
              if reply[..|src| + 18] == C.BigEndian(id) + ANSWER_COUNTS + Wire(src) + TYPE_A_CLASS_IN then
                Some(reply[2 * |src| + 30..2 * |src| + 34])
              else None
  {
    hide Wire, StrLen, WellFormed, Message;
    IsMessage(id, src);
    QuestionFound(id, QUERY_COUNTS, src, TYPE_A_CLASS_IN, []);
    Expected(id, src);
  }

  // The first flags byte of a header (RFC 1035, section 4.1.1).
  function FlagsByte(qr: nat, opcode: nat, aa: nat, tcRd: nat): byte
    requires qr < 2 && opcode < 16 && aa < 2 && tcRd < 4
  {
    128 * qr + 8 * opcode + 4 * aa + tcRd
  }

  // Marking a header sets qr and aa and the answer count, and leaves everything else alone.
  lemma MarkingSetsTwoFlags(h: seq<byte>, qr: nat, opcode: nat, aa: nat, tcRd: nat)
    requires |h| == 12 && qr < 2 && opcode < 16 && aa < 2 && tcRd < 4 && h[2] == FlagsByte(qr, opcode, aa, tcRd)
    ensures C.AnswerHeader(h)[2] == FlagsByte(1, opcode, 1, tcRd)
    ensures forall i | 0 <= i < 12 && i != 2 && i != 6 && i != 7 :: C.AnswerHeader(h)[i] == h[i]
    ensures Py.U16(C.AnswerHeader(h), 6) == 1
  {
    MarkFlags(qr, opcode, aa, tcRd);
    hide C.MarkAnswer;
  }

  lemma MarkFlags(qr: nat, opcode: nat, aa: nat, tcRd: nat)
    requires qr < 2 && opcode < 16 && aa < 2 && tcRd < 4
    ensures C.MarkAnswer(FlagsByte(qr, opcode, aa, tcRd)) == FlagsByte(1, opcode, 1, tcRd)
  {
    var b := FlagsByte(qr, opcode, aa, tcRd);
    assert b < 128 <==> qr == 0;
    var q := FlagsByte(1, opcode, aa, tcRd);
    assert q == 4 * (32 + 2 * opcode + aa) + tcRd;
    assert q / 4 == 32 + 2 * opcode + aa;
    assert (q / 4) % 2 == aa;
  }

  lemma Expected(id: C.u16, src: seq<byte>)
    ensures |C.QueryPacket(id, src)| == |src| + 18
    ensures C.AnswerHeader(C.QueryPacket(id, src)[..12]) + C.QueryPacket(id, src)[12..]
         == C.BigEndian(id) + ANSWER_COUNTS + Wire(src) + TYPE_A_CLASS_IN
  {
    hide Wire, Message;
    IsMessage(id, src);
    var m := C.QueryPacket(id, src);
    MessageParts(id, QUERY_COUNTS, src, TYPE_A_CLASS_IN, []);
    HeaderMarked(id);
    assert m[..12] == m[..2] + m[2..12];
    assert m[12..] == m[12..14 + |src|] + m[14 + |src|..14 + |src| + 4];
    var a := C.BigEndian(id) + ANSWER_COUNTS;
    assert a + (Wire(src) + TYPE_A_CLASS_IN) == a + Wire(src) + TYPE_A_CLASS_IN;
  }

  lemma ReplyParts(id: C.u16, src: seq<byte>, ip: seq<byte>, junk: seq<byte>)
    ensures AnswerPacket(id, src, ip) + junk
         == C.BigEndian(id) + ANSWER_COUNTS + Wire(src) + TYPE_A_CLASS_IN + (Wire(src) + C.RESOURCE + ip + junk)
  {
    hide Wire;
    var a, b := C.BigEndian(id) + ANSWER_COUNTS + Wire(src) + TYPE_A_CLASS_IN, Wire(src) + C.RESOURCE + ip;
    assert a + b + junk == a + (b + junk);
  }

  lemma SameAnswer(id: C.u16, src: seq<byte>, id': C.u16, src': seq<byte>, reply: seq<byte>, post: seq<byte>)
    requires WellFormed(src, 255) && WellFormed(src', 255)
    requires reply == C.BigEndian(id') + ANSWER_COUNTS + Wire(src') + TYPE_A_CLASS_IN + post
    requires |src| + 18 <= |reply|
    requires reply[..|src| + 18] == C.BigEndian(id) + ANSWER_COUNTS + Wire(src) + TYPE_A_CLASS_IN
    ensures id == id' && src == src'
  {
    hide Wire;
    var rest := reply[|src| + 18..];
    assert reply == C.BigEndian(id) + ANSWER_COUNTS + Wire(src) + TYPE_A_CLASS_IN + rest;
    Halves(C.BigEndian(id) + ANSWER_COUNTS, Wire(src), TYPE_A_CLASS_IN, rest,
           C.BigEndian(id') + ANSWER_COUNTS, Wire(src'), TYPE_A_CLASS_IN, post);
    WirePrefixFree(src, src', TYPE_A_CLASS_IN + rest, TYPE_A_CLASS_IN + post);
    SameId(id, id');
  }

  lemma SameId(id: C.u16, id': C.u16)
    requires C.BigEndian(id) + ANSWER_COUNTS == C.BigEndian(id') + ANSWER_COUNTS
    ensures id == id'
  {
    var a, b := C.BigEndian(id) + ANSWER_COUNTS, C.BigEndian(id') + ANSWER_COUNTS;
    assert a[0] == id / 256 && a[1] == id % 256 && b[0] == id' / 256 && b[1] == id' % 256;
  }

  lemma ReplyHead(id: C.u16, src: seq<byte>, reply: seq<byte>, post: seq<byte>)
    requires reply == C.BigEndian(id) + ANSWER_COUNTS + Wire(src) + TYPE_A_CLASS_IN + post
    ensures |src| + 18 <= |reply|
    ensures reply[..|src| + 18] == C.BigEndian(id) + ANSWER_COUNTS + Wire(src) + TYPE_A_CLASS_IN
  {
    hide Wire;
    WireLength(src);
  }

  lemma AddressAt(id: C.u16, src: seq<byte>, ip: seq<byte>, junk: seq<byte>)
    requires |ip| == 4
    ensures var reply, at := AnswerPacket(id, src, ip) + junk, 2 * |src| + 30;
            at + 4 <= |reply| && reply[at..at + 4] == ip
  {
    hide Wire;
    WireLength(src);
    ReplyParts(id, src, ip, junk);
    var a := C.BigEndian(id) + ANSWER_COUNTS + Wire(src) + TYPE_A_CLASS_IN;
    var b := Wire(src) + C.RESOURCE;
    assert a + (b + ip + junk) == (a + b) + ip + junk;
  }

  // What the server sends back for a query it does not accept is no answer to the
  // resolver.
  lemma RejectionIsNoAnswer(id: C.u16, src: seq<byte>, id': C.u16, src': seq<byte>, junk: seq<byte>)
    requires WellFormed(src, 255)
    requires 2 * |src| + 34 <= |C.QueryPacket(id', src') + junk|
    ensures |C.QueryPacket(id, src)| == |src| + 18 && StrLen(C.QueryPacket(id, src), 12) == |src| + 1
    ensures C.HasQuery(C.QueryPacket(id, src))
    ensures C.ReadAnswer(C.QueryPacket(id, src), C.QueryPacket(id', src') + junk) == None
  {
    OtherFlags(id, src, C.QueryPacket(id', src') + junk);
  }

  lemma OtherFlags(id: C.u16, src: seq<byte>, reply: seq<byte>)
    requires WellFormed(src, 255) && 2 * |src| + 34 <= |reply| && reply[2] != 132
    ensures |C.QueryPacket(id, src)| == |src| + 18 && StrLen(C.QueryPacket(id, src), 12) == |src| + 1
    ensures C.HasQuery(C.QueryPacket(id, src))
    ensures C.ReadAnswer(C.QueryPacket(id, src), reply) == None
  {
    hide Wire, StrLen, WellFormed, Message;
    IsMessage(id, src);
    QuestionFound(id, QUERY_COUNTS, src, TYPE_A_CLASS_IN, []);
    Expected(id, src);
    var n := |src| + 18;
    assert (C.BigEndian(id) + ANSWER_COUNTS + Wire(src) + TYPE_A_CLASS_IN)[2] == 132;
    assert reply[..n][2] == reply[2];
  }

  // Serialising swaps identifier, question and answer count into network order and loses
  // every error code; the other two counts stay as they lie in memory.
  lemma HeaderOnWire(h: C.Header)
    requires C.ValidHeader(h)
    ensures C.HeaderBytes(C.HostToNet(h)) ==
              C.BigEndian(h.id) + [4 * h.aa + 128 * h.qr, 0] + C.BigEndian(h.qdcount) + C.BigEndian(h.ancount)
                + [h.nscount % 256, h.nscount / 256] + [h.arcount % 256, h.arcount / 256]
  {
    assert C.HtonlNibble(h.rcode) == 0;
    C.SwappedIsBigEndian(h.id);
    C.SwappedIsBigEndian(h.qdcount);
    C.SwappedIsBigEndian(h.ancount);
  }

  // A label of 256 bytes or more has its length cut to one byte: of 256 to none at all.
  lemma LongLabel(piece: seq<byte>)
    requires |piece| >= 256
    ensures exists q: nat :: |piece| == 256 * q + Label(piece)[0]
    ensures |piece| == 256 ==> Label(piece)[0] == 0
  {
    assert |piece| == 256 * (|piece| / 256) + |piece| % 256;
  }

  // ------------------------------------------------------------------ Python to C

  function Counts(qr: nat, numAnswers: nat): seq<byte>
    requires qr < 2 && numAnswers < 2
  {
    [128 * qr, 0, 0, 1, 0, numAnswers, 0, 0, 0, 0]
  }

  lemma PythonMessage(id: C.u16, qr: nat, numAnswers: nat, src: seq<byte>, post: seq<byte>)
    requires qr < 2 && numAnswers < 2
    ensures Py.QueryMessage(id, qr, numAnswers, src) + post
         == Message(id, Counts(qr, numAnswers), src, TYPE_A_CLASS_IN, post)
  {
    hide Wire;
    assert Py.MessageHeader(id, qr, numAnswers) == C.BigEndian(id) + Counts(qr, numAnswers);
  }

  // A query written after a run of messages is the one the C side would write, and is
  // accepted for the reference host, exactly if no answer was written before it.
  lemma QueryAfterRun(calls: seq<bool>, id: C.u16, src: seq<byte>, post: seq<byte>, refId: C.u16, ref: seq<byte>)
    requires WellFormed(src, 255) && WellFormed(ref, 255)
    requires |ref| <= |src| + |post|
    ensures Py.Raised(calls) < 2
    ensures var query := Py.QueryMessage(id, Py.Raised(calls), Py.Raised(calls), src);
            var reference := C.QueryPacket(refId, ref);
            && (query == C.QueryPacket(id, src) <==> forall i | 0 <= i < |calls| :: calls[i])
            && |reference| <= |query + post|
            && ((query + post)[2..|reference|] == reference[2..] <==>
                 src == ref && forall i | 0 <= i < |calls| :: calls[i])
  {
    hide Wire, Message, WellFormed;
    Py.RaisedForever(calls);
    var raised := Py.Raised(calls);
    PythonMessage(id, raised, raised, src, post);
    PythonMessage(id, raised, raised, src, []);
    var query := Py.QueryMessage(id, raised, raised, src);
    assert query + [] == query;
    IsMessage(id, src);
    IsMessage(refId, ref);
    MessageParts(id, Counts(raised, raised), src, TYPE_A_CLASS_IN, []);
    MessageParts(id, Counts(raised, raised), src, TYPE_A_CLASS_IN, post);
    MessageParts(id, QUERY_COUNTS, src, TYPE_A_CLASS_IN, []);
    MessageParts(refId, QUERY_COUNTS, ref, TYPE_A_CLASS_IN, []);
    CountsDiffer(raised);
    AcceptsExactlyReference(id, Counts(raised, raised), src, TYPE_A_CLASS_IN, post, refId, ref);
  }

  lemma CountsDiffer(raised: nat)
    requires raised < 2
    ensures Counts(raised, raised) == QUERY_COUNTS <==> raised == 0
  {
    assert Counts(raised, raised)[0] == 128 * raised && QUERY_COUNTS[0] == 0;
  }

  // The resolver takes no answer written by the Python side: the authority bit is missing.
  lemma ResolverRejectsPythonAnswers(id: C.u16, src: seq<byte>, id': C.u16, src': seq<byte>, ip: seq<byte>,
                                     junk: seq<byte>)
    requires WellFormed(src, 255)
    requires 2 * |src| + 34 <= |Py.ResponseMessage(id', src', ip) + junk|
    ensures |C.QueryPacket(id, src)| == |src| + 18 && StrLen(C.QueryPacket(id, src), 12) == |src| + 1
    ensures C.HasQuery(C.QueryPacket(id, src))
    ensures C.ReadAnswer(C.QueryPacket(id, src), Py.ResponseMessage(id', src', ip) + junk) == None
  {
    hide Wire, StrLen, WellFormed;
    OtherFlags(id, src, Py.ResponseMessage(id', src', ip) + junk);
  }

  // ------------------------------------------------------------------ to Python

  // What the reader makes of a message with a name whose labels are neither empty nor
  // too long.
  lemma ParseQuestion(id: C.u16, h: seq<byte>, src: seq<byte>, t: seq<byte>, post: seq<byte>, query: bool)
    requires WellFormed(src, 255) && |h| == 10 && |t| == 4
    ensures var m := Message(id, h, src, t, post);
            var numAnswers := Py.U16(h, 4);
            var answer := if numAnswers != 0 then Py.RecordAt(m, 18 + |src|) else None;
            Py.Parse(m, query) ==
              if (numAnswers != 0 && answer.None?) || (numAnswers == 0 && !query) then None
              else
                Some(Py.Parsed(id, Py.U16(h, 0), Py.U16(h, 2), numAnswers, src, Py.U16(t, 0), Py.U16(t, 2), answer))
  {
    hide Wire, Message, WellFormed, Py.RecordAt;
    var m := Message(id, h, src, t, post);
    MessageParts(id, h, src, t, post);
    NameReadsBack(C.BigEndian(id) + h, src, t + post);
    Shifted(m, h, 0);
    Shifted(m, h, 2);
    Shifted(m, h, 4);
    var n := 14 + |src|;
    assert m[n..n + 4][0] == m[n] && m[n..n + 4][1] == m[n + 1];
    assert m[n..n + 4][2] == m[n + 2] && m[n..n + 4][3] == m[n + 3];
    assert m[..2][0] == m[0] && m[..2][1] == m[1];
    assert Py.U16(m, 0) == id;
  }

  // Flags, counts, type and class of any question are read as they were written.
  lemma QuestionReadsBack(id: C.u16, flags: C.u16, questions: C.u16, src: seq<byte>, qType: C.u16, qClass: C.u16,
                          rest: seq<byte>, post: seq<byte>)
    requires WellFormed(src, 255) && |rest| == 4
    ensures var h := C.BigEndian(flags) + C.BigEndian(questions) + C.BigEndian(0) + rest;
            var t := C.BigEndian(qType) + C.BigEndian(qClass);
            Py.Parse(Message(id, h, src, t, post), true) ==
              Some(Py.Parsed(id, flags, questions, 0, src, qType, qClass, None))
  {
    hide Message, WellFormed, Py.Parse;
    var h := C.BigEndian(flags) + C.BigEndian(questions) + C.BigEndian(0) + rest;
    var t := C.BigEndian(qType) + C.BigEndian(qClass);
    ParseQuestion(id, h, src, t, post, true);
    assert h[0] == flags / 256 && h[1] == flags % 256 && h[2] == questions / 256 && h[3] == questions % 256;
    assert t[0] == qType / 256 && t[1] == qType % 256 && t[2] == qClass / 256 && t[3] == qClass % 256;
  }

  lemma Shifted(m: seq<byte>, h: seq<byte>, i: nat)
    requires 12 <= |m| && m[2..12] == h && i + 2 <= 10
    ensures Py.U16(m, i + 2) == Py.U16(h, i)
  {
    assert m[2..12][i] == m[i + 2] && m[2..12][i + 1] == m[i + 3];
  }

  lemma NameReadsBack(pre: seq<byte>, src: seq<byte>, post: seq<byte>)
    requires WellFormed(src, 255)
    ensures ReadName(pre + Wire(src) + post, |pre|) == Some((src + [DOT], |pre| + |src| + 2))
    ensures Py.DropDot(src + [DOT]) == src
  {
    ReadWire(pre, src, post);
    assert (src + [DOT])[..|src|] == src;
  }

  // Type, class, time to live and length of a record, as numbers in network order.
  function Fields(rrType: C.u16, rrClass: C.u16, high: C.u16, low: C.u16, length: C.u16): seq<byte> {
    C.BigEndian(rrType) + C.BigEndian(rrClass) + C.BigEndian(high) + C.BigEndian(low) + C.BigEndian(length)
  }

  // A record at the end of a message is read as it was written, but for the time to live:
  // its upper half has only a 256th of its weight.
  lemma RecordReadsBack(pre: seq<byte>, rrType: C.u16, rrClass: C.u16, high: C.u16, low: C.u16, length: C.u16,
                        ip: seq<byte>, name: Option<seq<byte>>)
    requires |ip| == 4
    ensures var ttl := 0x1_0000 * high + low;
            Py.FieldsAt(pre + Fields(rrType, rrClass, high, low, length) + ip, |pre|, name)
            == Some(Py.Record(name, rrType, rrClass, ttl - 0xFF00 * high, length, ip))
  {
    var f := Fields(rrType, rrClass, high, low, length);
    var m, n := pre + f + ip, |pre|;
    assert m[n + 10..n + 14] == ip;
    forall i | 0 <= i < 10
      ensures m[n + i] == f[i]
    {
    }
    assert Py.U16(m, n) == rrType && Py.U16(m, n + 2) == rrClass && Py.U16(m, n + 8) == length;
    assert Py.U16(m, n + 4) == high && Py.U16(m, n + 6) == low;
  }

  lemma RecordFields(pre: seq<byte>, ip: seq<byte>, name: Option<seq<byte>>)
    requires |ip| == 4
    ensures Py.FieldsAt(pre + C.RESOURCE + ip, |pre|, name) == Some(Py.Record(name, 1, 1, 0, 4, ip))
  {
    assert Fields(1, 1, 0, 0, 4) == C.RESOURCE;
    RecordReadsBack(pre, 1, 1, 0, 0, 4, ip, name);
  }

  // The first label reads as a compression pointer; impossible with labels of at most 63
  // bytes (RFC 1035, section 4.1.4).
  predicate LooksCompressed(src: seq<byte>) {
    var first := Pieces(src)[0];
    |first| == 192 && first[0] == 12
  }

  lemma WireBegins(src: seq<byte>)
    requires WellFormed(src, 255)
    ensures |Wire(src)| > 2 && Wire(src)[0] == |Pieces(src)[0]| && Wire(src)[1] == Pieces(src)[0][0]
  {
    var pieces := Pieces(src);
    var p, rest := pieces[0], pieces[1..];
    assert pieces == [p] + rest;
    LabelsCons(p, rest);
    assert Wire(src) == Label(p) + (Labels(rest) + [0]);
  }

  // The record behind a question, when it repeats the name.
  lemma FullRecord(m: seq<byte>, pre: seq<byte>, src: seq<byte>, ip: seq<byte>)
    requires WellFormed(src, 255) && |ip| == 4
    requires m == pre + Wire(src) + (C.RESOURCE + ip)
    ensures Py.RecordAt(m, |pre|).Some?
    ensures !LooksCompressed(src) ==> Py.RecordAt(m, |pre|) == Some(Py.Record(Some(src), 1, 1, 0, 4, ip))
    ensures LooksCompressed(src) ==> Py.RecordAt(m, |pre|).value.name == None
  {
    hide Wire, WellFormed, ReadName;
    WireBegins(src);
    WireLength(src);
    NameReadsBack(pre, src, C.RESOURCE + ip);
    assert m == (pre + Wire(src)) + C.RESOURCE + ip;
    RecordFields(pre + Wire(src), ip, Some(src));
    assert m[|pre|] == Wire(src)[0] && m[|pre| + 1] == Wire(src)[1];
  }

  // The record behind a question, when it points back.
  lemma PointerRecord(m: seq<byte>, pre: seq<byte>, ip: seq<byte>)
    requires |ip| == 4 && m == pre + (Py.BACK_REFERENCE + C.RESOURCE + ip)
    ensures Py.RecordAt(m, |pre|) == Some(Py.Record(None, 1, 1, 0, 4, ip))
  {
    assert m == (pre + Py.BACK_REFERENCE) + C.RESOURCE + ip;
    RecordFields(pre + Py.BACK_REFERENCE, ip, None);
    assert m[|pre|] == 0xC0 && m[|pre| + 1] == 0x0C;
  }

  // The reader takes name and address out of the C server's answers, and takes their
  // record for an uncompressed one, exactly if the first label does not read as a
  // pointer.
  lemma CAnswerDecodes(id: C.u16, src: seq<byte>, ip: seq<byte>, query: bool)
    requires WellFormed(src, 255) && |ip| == 4
    ensures var r := Py.Parse(AnswerPacket(id, src, ip), query);
            && r.Some? && r.value == Py.Parsed(id, 0x8400, 1, 1, src, 1, 1, r.value.answer) && r.value.answer.Some?
            && (r.value.answer.value == Py.Record(Some(src), 1, 1, 0, 4, ip) <==> !LooksCompressed(src))
            && (r.value.answer.value.name == None <==> LooksCompressed(src))
  {
    hide Wire, Message, WellFormed, Py.RecordAt, LooksCompressed;
    var post := Wire(src) + C.RESOURCE + ip;
    var m := Message(id, ANSWER_COUNTS, src, TYPE_A_CLASS_IN, post);
    ParseQuestion(id, ANSWER_COUNTS, src, TYPE_A_CLASS_IN, post, query);
    MessageParts(id, ANSWER_COUNTS, src, TYPE_A_CLASS_IN, post);
    BehindQuestion(m, 18 + |src|, post);
    var pre := m[..18 + |src|];
    assert m == pre + Wire(src) + (C.RESOURCE + ip);
    FullRecord(m, pre, src, ip);
  }

  lemma BehindQuestion(m: seq<byte>, n: nat, post: seq<byte>)
    requires n <= |m| && m[n..] == post
    ensures m == m[..n] + post && |m[..n]| == n
  {
  }

  // And out of the Python server's answers, always as compressed ones.
  lemma PythonAnswerDecodes(id: C.u16, src: seq<byte>, ip: seq<byte>, query: bool)
    requires WellFormed(src, 255) && |ip| == 4
    ensures Py.Parse(Py.ResponseMessage(id, src, ip), query) ==
              Some(Py.Parsed(id, 0x8000, 1, 1, src, 1, 1, Some(Py.Record(None, 1, 1, 0, 4, ip))))
  {
    hide Wire, Message, WellFormed, Py.RecordAt, Py.Parse, Py.ResponseMessage;
    var post := Py.BACK_REFERENCE + C.RESOURCE + ip;
    PythonAnswerIs(id, src, ip);
    var m := Message(id, Counts(1, 1), src, TYPE_A_CLASS_IN, post);
    ParseQuestion(id, Counts(1, 1), src, TYPE_A_CLASS_IN, post, query);
    MessageParts(id, Counts(1, 1), src, TYPE_A_CLASS_IN, post);
    BehindQuestion(m, 18 + |src|, post);
    PointerRecord(m, m[..18 + |src|], ip);
  }

  lemma PythonAnswerIs(id: C.u16, src: seq<byte>, ip: seq<byte>)
    requires WellFormed(src, 255) && |ip| == 4
    ensures Py.ResponseMessage(id, src, ip) ==
              Message(id, Counts(1, 1), src, TYPE_A_CLASS_IN, Py.BACK_REFERENCE + C.RESOURCE + ip)
  {
    hide Wire, Message, WellFormed;
    var q, post := Py.QueryMessage(id, 1, 1, src), Py.BACK_REFERENCE + C.RESOURCE + ip;
    PythonMessage(id, 1, 1, src, post);
    assert q + Py.BACK_REFERENCE + C.RESOURCE + ip == q + post;
  }

  // Names within the limits of RFC 1035, section 3.1: both answer forms give the name and
  // the address that went in, and the two forms are told apart.
  lemma AnswersDecodeAlike(id: C.u16, src: seq<byte>, junk: seq<byte>, ip: seq<byte>)
    requires WellFormed(src, 63) && |ip| == 4
    ensures C.HasQuery(C.QueryPacket(id, src) + junk)
    ensures var fromC := Py.Parse(C.Answer(C.QueryPacket(id, src) + junk, ip), false);
            var fromPy := Py.Parse(Py.ResponseMessage(id, src, ip), false);
            && fromC.Some? && fromC.value.name == src
            && fromC.value.answer == Some(Py.Record(Some(src), 1, 1, 0, 4, ip))
            && fromPy.Some? && fromPy.value.name == src
            && fromPy.value.answer == Some(Py.Record(None, 1, 1, 0, 4, ip))
  {
    hide Wire, Message, Py.RecordAt, Py.Parse, StrLen, C.Answer;
    AnswerIs(id, src, junk, ip);
    CAnswerDecodes(id, src, ip, false);
    PythonAnswerDecodes(id, src, ip, false);
    assert !LooksCompressed(src);
  }

  // Queries of either side reach the Python server with their name, unless the answer
  // count was left raised: then it fails to read them. As replies no query can be read,
  // so a rejected query raises an exception in the Python client.
  lemma QueriesDecode(calls: seq<bool>, id: C.u16, src: seq<byte>)
    requires WellFormed(src, 255)
    ensures Py.Raised(calls) < 2
    ensures var r := Py.Parse(Py.QueryMessage(id, Py.Raised(calls), Py.Raised(calls), src), true);
            && (r.Some? <==> forall i | 0 <= i < |calls| :: calls[i])
            && (r.Some? ==> r.value.transId == id && r.value.name == src && r.value.answer == None)
    ensures Py.Parse(C.QueryPacket(id, src), true).Some? && Py.Parse(C.QueryPacket(id, src), true).value.name == src
    ensures Py.Parse(C.QueryPacket(id, src), false) == None
  {
    hide Wire, Message, WellFormed, Py.Parse, Py.Raised, Py.QueryMessage, C.QueryPacket;
    Py.RaisedForever(calls);
    var raised := Py.Raised(calls);
    RaisedQueryDecodes(raised, id, src);
    IsMessage(id, src);
    ParseQuestion(id, QUERY_COUNTS, src, TYPE_A_CLASS_IN, [], true);
    ParseQuestion(id, QUERY_COUNTS, src, TYPE_A_CLASS_IN, [], false);
  }

  lemma RaisedQueryDecodes(raised: nat, id: C.u16, src: seq<byte>)
    requires WellFormed(src, 255) && raised < 2
    ensures var r := Py.Parse(Py.QueryMessage(id, raised, raised, src), true);
            && (r.Some? <==> raised == 0)
            && (r.Some? ==> r.value.transId == id && r.value.name == src && r.value.answer == None)
  {
    hide Wire, Message, WellFormed, Py.Parse;
    var query := Py.QueryMessage(id, raised, raised, src);
    PythonMessage(id, raised, raised, src, []);
    assert query + [] == query;
    MessageParts(id, Counts(raised, raised), src, TYPE_A_CLASS_IN, []);
    ParseQuestion(id, Counts(raised, raised), src, TYPE_A_CLASS_IN, [], true);
  }

  // So the time to live is right only below 2^16.
  lemma TimeToLive(data: seq<byte>, i: nat, name: Option<seq<byte>>)
    requires i + 14 <= |data|
    ensures Py.FieldsAt(data, i, name).value.ttl == 0x1_0000 * Py.U16(data, i + 4) + Py.U16(data, i + 6)
            <==> data[i + 4] == 0 && data[i + 5] == 0
  {
  }

  // A written name is read back in full, and reading ends behind it, exactly if no label
  // is empty.
  lemma NameReadsBackIff(pre: seq<byte>, src: seq<byte>, post: seq<byte>)
    requires forall i | 0 <= i < |Pieces(src)| :: |Pieces(src)[i]| <= 255
    ensures ReadName(pre + Wire(src) + post, |pre|) == Some((src + [DOT], |pre| + |src| + 2)) <==>
              forall i | 0 <= i < |Pieces(src)| :: Pieces(src)[i] != []
  {
    hide ReadName;
    assert pre + Wire(src) + post == pre + Labels(Pieces(src)) + [0] + post;
    LabelsLength(src);
    ReadStopsAtEmptyLabel(pre, Pieces(src), post);
    if forall i | 0 <= i < |Pieces(src)| :: Pieces(src)[i] != [] {
      ReadWire(pre, src, post);
    }
  }
}
