/** The C side of the name service: packet structs in little-endian memory, the resolver
    that writes queries and reads answers, and the name server that checks queries and
    writes answers, all over byte buffers. */
module DnsC {
  import opened Wrappers
  import opened DnsNames

  // ------------------------------------------------------------------ structs in memory

  type u16 = n: int | 0 <= n < 65536

  // How a 16-bit field lies in memory, and the byte swap of htons.
  function InMemory(n: u16): seq<byte> {
    [n % 256, n / 256]
  }

  function Htons(n: u16): u16 {
    256 * (n % 256) + n / 256
  }

  // Network byte order.
  function BigEndian(n: u16): seq<byte> {
    [n / 256, n % 256]
  }

  lemma SwappedIsBigEndian(n: u16)
    ensures InMemory(Htons(n)) == BigEndian(n)
  {
  }

  // The first field of struct header_t that is not 0 in a query, and the counts; the
  // flag bits are those of byte 2 (rd, tc, aa, opcode, qr) and byte 3 (rcode, z, ra).
  datatype Header = Header(id: u16, qr: nat, aa: nat, rcode: nat,
                           qdcount: u16, ancount: u16, nscount: u16, arcount: u16)

  predicate ValidHeader(h: Header) {
    h.qr < 2 && h.aa < 2 && h.rcode < 16
  }

  function HeaderBytes(h: Header): (r: seq<byte>)
    requires ValidHeader(h)
    ensures |r| == 12
  {
    InMemory(h.id) + [4 * h.aa + 128 * h.qr, h.rcode]
      + InMemory(h.qdcount) + InMemory(h.ancount) + InMemory(h.nscount) + InMemory(h.arcount)
  }

  // htonl moves a small number out of the four bits that are kept of it.
  function HtonlNibble(n: nat): nat
    requires n < 16
  {
    (n * 0x100_0000) % 16
  }

  function HostToNet(h: Header): Header
    requires ValidHeader(h)
  {
    h.(id := Htons(h.id), rcode := HtonlNibble(h.rcode), qdcount := Htons(h.qdcount), ancount := Htons(h.ancount))
  }

  class DataPacket {
    var header: Header
    const qname: array<byte>
    var qtype: u16
    var qclass: u16

    constructor (header: Header, size: nat, qtype: u16, qclass: u16)
      ensures this.header == header && this.qtype == qtype && this.qclass == qclass
      ensures fresh(qname) && qname.Length == size
    {
      this.header, this.qtype, this.qclass := header, qtype, qclass;
      qname := new byte[size];
    }
  }

  // ------------------------------------------------------------------ buffers

  // memcpy of src to position at.
  method Copy(buf: array<byte>, at: nat, src: seq<byte>)
    requires at + |src| <= buf.Length
    modifies buf
    ensures buf[..] == old(buf[..at]) + src + old(buf[at + |src|..])
  {
    forall i | 0 <= i < |src| {
      buf[at + i] := src[i];
    }
  }

  // memcpy behind what has been written so far.
  method Append(buf: array<byte>, at: nat, src: seq<byte>) returns (end: nat)
    requires at + |src| <= buf.Length
    modifies buf
    ensures end == at + |src| && buf[..end] == old(buf[..at]) + src
  {
    Copy(buf, at, src);
    end := at + |src|;
  }

  // The name of a query or answer, from its first length byte to its zero byte.
  ghost predicate HasName(data: seq<byte>, i: nat) {
    i <= |data| && i + StrLen(data, i) < |data|
  }

  function NameAt(data: seq<byte>, i: nat): seq<byte>
    requires i <= |data| && i + StrLen(data, i) < |data|
  {
    data[i..i + StrLen(data, i) + 1]
  }

  // strlen as the library's loop.
  method Strlen(buf: array<byte>, at: nat) returns (n: nat)
    requires HasName(buf[..], at)
    ensures n == StrLen(buf[..], at)
  {
    n := 0;
    while buf[at + n] != 0
      invariant at + n < buf.Length
      invariant StrLen(buf[..], at) == n + StrLen(buf[..], at + n)
      decreases buf.Length - (at + n)
    {
      n := n + 1;
    }
  }

  // ------------------------------------------------------------------ queries

  // Copies src into name with each dot turned into the length of the label after it.
  method Dot2Len(name: array<byte>, src: seq<byte>)
    requires |src| + 2 <= name.Length
    modifies name
    ensures name[..|src| + 2] == Wire(src)
  {
    var full := src + [DOT];
    var pos, w := 0, 0;
    ghost var done: seq<seq<byte>> := [];
    for i := 0 to |full|
      invariant 0 <= pos <= i && w == pos
      invariant Pieces(full[..i]) == done + [full[pos..i]]
      invariant name[..w] == Labels(done)
    {
      PiecesStep(full, i, pos, done);
      if full[i] == DOT {
        WriteLabel(name, w, full[pos..i]);
        LabelsSnoc(done, full[pos..i]);
        done := done + [full[pos..i]];
        w := i + 1;
        pos := i + 1;
      }
    }
    assert full[..|full|] == full;
    LastPiece(src, done, full[pos..]);
    assert pos == |full|;
    name[w] := 0;
    assert name[..w + 1] == name[..w] + [0];
  }

  // One more character closes the current label or lengthens it.
  lemma PiecesStep(full: seq<byte>, i: nat, pos: nat, done: seq<seq<byte>>)
    requires pos <= i < |full| && Pieces(full[..i]) == done + [full[pos..i]]
    ensures Pieces(full[..i + 1]) ==
              if full[i] == DOT then done + [full[pos..i]] + [full[i + 1..i + 1]]
              else done + [full[pos..i + 1]]
  {
    var next, p := full[..i + 1], done + [full[pos..i]];
    assert next[..|next| - 1] == full[..i] && next[|next| - 1] == full[i];
    assert p[..|p| - 1] == done;
    assert full[pos..i + 1] == full[pos..i] + [full[i]];
    assert full[i + 1..i + 1] == [];
  }

  lemma LastPiece(src: seq<byte>, done: seq<seq<byte>>, last: seq<byte>)
    requires Pieces(src + [DOT]) == done + [last]
    ensures done == Pieces(src) && last == []
  {
    assert (src + [DOT])[..|src|] == src;
    assert (done + [last])[..|done|] == done && (done + [last])[|done|] == last;
    assert (Pieces(src) + [[]])[..|Pieces(src)|] == Pieces(src);
  }

  method WriteLabel(name: array<byte>, at: nat, label_: seq<byte>)
    requires at + 1 + |label_| <= name.Length
    modifies name
    ensures name[..at + 1 + |label_|] == old(name[..at]) + Label(label_)
  {
    name[at] := CharOf(|label_|);
    forall k | 0 <= k < |label_| {
      name[at + 1 + k] := label_[k];
    }
  }

  function QueryHeader(id: u16): Header {
    Header(id, 0, 0, 0, 1, 0, 0, 0)
  }

  method MakeQueryPkt(node: seq<byte>, id: u16) returns (pkt: DataPacket)
    ensures fresh(pkt) && fresh(pkt.qname)
    ensures pkt.header == QueryHeader(id) && pkt.qtype == 1 && pkt.qclass == 1
    ensures pkt.qname[..] == Wire(node)
  {
    pkt := new DataPacket(QueryHeader(id), |node| + 2, 1, 1);
    Dot2Len(pkt.qname, node);
    assert pkt.qname[..] == pkt.qname[..|node| + 2];
  }

  // Serialises a packet without an answer part; the packet's numbers are swapped in place.
  method PktToBuf(buf: array<byte>, pkt: DataPacket) returns (index: nat)
    requires ValidHeader(pkt.header) && HasName(pkt.qname[..], 0)
    requires 12 + StrLen(pkt.qname[..], 0) + 5 <= buf.Length
    requires buf != pkt.qname
    modifies buf, pkt
    ensures index == 12 + StrLen(pkt.qname[..], 0) + 5
    ensures buf[..index] == HeaderBytes(HostToNet(old(pkt.header))) + NameAt(pkt.qname[..], 0)
                              + BigEndian(old(pkt.qtype)) + BigEndian(old(pkt.qclass))
    ensures pkt.header == HostToNet(old(pkt.header))
    ensures pkt.qtype == Htons(old(pkt.qtype)) && pkt.qclass == Htons(old(pkt.qclass))
  {
    pkt.header := HostToNet(pkt.header);
    SwappedIsBigEndian(pkt.qtype);
    SwappedIsBigEndian(pkt.qclass);
    pkt.qtype := Htons(pkt.qtype);
    pkt.qclass := Htons(pkt.qclass);
    var hdr := HeaderBytes(pkt.header);
    index := Append(buf, 0, hdr);
    var n := Strlen(pkt.qname, 0);
    index := Append(buf, index, pkt.qname[..n + 1]);
    index := Append(buf, index, InMemory(pkt.qtype) + InMemory(pkt.qclass));
  }

  // A query as it should be on the wire (RFC 1035, sections 4.1.1 and 4.1.2).
  function QueryPacket(id: u16, src: seq<byte>): seq<byte> {
    BigEndian(id) + [0, 0, 0, 1, 0, 0, 0, 0, 0, 0] + Wire(src) + [0, 1, 0, 1]
  }

  // The buffer of a query for a well-formed name, as init_ref and resolve build it.
  method BuildQuery(buf: array<byte>, node: seq<byte>, id: u16) returns (length: nat)
    requires WellFormed(node, 255) && |node| + 18 <= buf.Length
    modifies buf
    ensures length == |node| + 18 && buf[..length] == QueryPacket(id, node)
  {
    var pkt := MakeQueryPkt(node, id);
    QueryName(node);
    SwappedIsBigEndian(id);
    length := PktToBuf(buf, pkt);
    assert HeaderBytes(HostToNet(QueryHeader(id))) == BigEndian(id) + [0, 0, 0, 1, 0, 0, 0, 0, 0, 0];
  }

  lemma QueryName(node: seq<byte>)
    requires WellFormed(node, 255)
    ensures |Wire(node)| == |node| + 2 && HasName(Wire(node), 0)
    ensures StrLen(Wire(node), 0) == |node| + 1 && NameAt(Wire(node), 0) == Wire(node)
  {
    LabelsLength(node);
    WireIsCString([], node, []);
    assert [] + Wire(node) + [] == Wire(node);
  }

  // ------------------------------------------------------------------ the name server

  // The length of a query: header, name, question.
  function QueryLength(data: seq<byte>): nat
    requires 12 <= |data|
  {
    12 + StrLen(data, 12) + 1 + 4
  }

  ghost predicate HasQuery(data: seq<byte>) {
    12 <= |data| && QueryLength(data) <= |data|
  }

  // memcmp of everything but the identifier against the reference query.
  method Parse(buf: array<byte>, reference: seq<byte>) returns (r: int)
    requires 2 <= |reference| <= buf.Length
    ensures r == 0 || r == -1
    ensures r == 0 <==> buf[2..|reference|] == reference[2..]
  {
    for i := 2 to |reference|
      invariant forall j | 2 <= j < i :: buf[j] == reference[j]
    {
      if buf[i] != reference[i] {
        assert buf[2..|reference|][i - 2] != reference[2..][i - 2];
        return -1;
      }
    }
    return 0;
  }

  // Setting the qr bit and the aa bit of a flags byte.
  function MarkAnswer(b: byte): byte {
    var q := if b < 128 then b + 128 else b;
    if (q / 4) % 2 == 0 then q + 4 else q
  }

  // The header of the answer to a query.
  function AnswerHeader(h: seq<byte>): seq<byte>
    requires |h| == 12
  {
    h[2 := MarkAnswer(h[2])][6 := 0][7 := 1]
  }

  // Type A, class IN, no caching, four bytes of data (RFC 1035, section 4.1.3).
  const RESOURCE: seq<byte> := [0, 1, 0, 1, 0, 0, 0, 0, 0, 4]

  // The answer: the query with its header marked, then the full name again, then the
  // record. The two padding bytes of struct answer_t are not sent.
  function Answer(query: seq<byte>, ip: seq<byte>): seq<byte>
    requires HasQuery(query)
  {
    var n := QueryLength(query);
    AnswerHeader(query[..12]) + query[12..n] + NameAt(query, 12) + RESOURCE + ip
  }

  method GenRes(reqBuf: array<byte>, resBuf: array<byte>, ip: seq<byte>) returns (length: nat)
    requires reqBuf != resBuf && |ip| == 4 && HasQuery(reqBuf[..])
    requires QueryLength(reqBuf[..]) + StrLen(reqBuf[..], 12) + 15 <= resBuf.Length
    modifies resBuf
    ensures length == |Answer(reqBuf[..], ip)| <= resBuf.Length && resBuf[..length] == Answer(reqBuf[..], ip)
  {
    hide MarkAnswer, StrLen;
    ghost var query := reqBuf[..];
    var strlen := Strlen(reqBuf, 12);
    length := Append(resBuf, 0, reqBuf[..12 + strlen + 1 + 4]);
    assert resBuf[..length] == query[..length];
    assert resBuf[..12] == query[..12] && resBuf[12..length] == query[12..length];
    MarkHeader(resBuf, length);
    var written := resBuf[..length];
    BehindHeader(written, AnswerHeader(query[..12]), query, length, strlen + 1);
    length := Append(resBuf, length, written[12..12 + strlen + 1]);
    length := Append(resBuf, length, RESOURCE);
    length := Append(resBuf, length, ip);
  }

  lemma BehindHeader(data: seq<byte>, header: seq<byte>, query: seq<byte>, n: nat, k: nat)
    requires |header| == 12 && 12 + k <= n <= |query|
    requires data == header + query[12..n]
    ensures data[12..12 + k] == query[12..12 + k]
  {
    assert data[12..] == query[12..n];
    assert data[12..12 + k] == data[12..][..k];
    assert query[12..12 + k] == query[12..n][..k];
  }

  // The three header updates, in place.
  method MarkHeader(buf: array<byte>, n: nat)
    requires 12 <= n <= buf.Length
    modifies buf
    ensures buf[..n] == AnswerHeader(old(buf[..12])) + old(buf[12..n])
  {
    buf[2] := MarkAnswer(buf[2]);
    buf[6], buf[7] := 0, 1;
  }

  // The reply to a query that is not accepted: an attempt to set the error code to 3.
  method ResErr(origin: array<byte>) returns (length: nat)
    requires HasQuery(origin[..])
    modifies origin
    ensures length == QueryLength(old(origin[..]))
    ensures origin[..] == old(origin[..])[3 := 16 * (old(origin[3]) / 16) + HtonlNibble(3)]
  {
    var n := Strlen(origin, 12);
    length := 12 + n + 1 + 4;
    origin[3] := 16 * (origin[3] / 16) + HtonlNibble(3);
  }

  // The byte swap throws the error code away: a query comes back unchanged.
  lemma ErrorReplyEchoesQuery(query: seq<byte>)
    requires 3 < |query| && query[3] % 16 == 0
    ensures query[3 := 16 * (query[3] / 16) + HtonlNibble(3)] == query
  {
  }

  // ------------------------------------------------------------------ the resolver

  // What the resolver makes of a reply to its query of the given length; None is -1.
  function ReadAnswer(query: seq<byte>, reply: seq<byte>): Option<seq<byte>>
    requires HasQuery(query) && |query| <= |reply|
    requires |query| + StrLen(query, 12) + 15 <= |reply|
  {
    var expected := AnswerHeader(query[..12]) + query[12..];
    if expected != reply[..|query|] then None
    else
      var at := |query| + StrLen(query, 12) + 1 + 10;
      Some(reply[at..at + 4])
  }

  method ParseRes(reqBuf: array<byte>, resBuf: array<byte>, length: nat) returns (ip: Option<seq<byte>>)
    requires reqBuf != resBuf && length <= reqBuf.Length && HasQuery(reqBuf[..length])
    requires length + StrLen(reqBuf[..length], 12) + 15 <= resBuf.Length
    modifies reqBuf
    ensures ip == ReadAnswer(old(reqBuf[..length]), resBuf[..])
  {
    ghost var query := reqBuf[..length];
    var strlen := Strlen(reqBuf, 12) by {
      StrLenPrefix(reqBuf[..], length, 12);
    }
    StrLenPrefix(reqBuf[..], length, 12);
    MarkHeader(reqBuf, length);
    assert reqBuf[..length] == AnswerHeader(query[..12]) + query[12..];
    if reqBuf[..length] != resBuf[..length] {
      return None;
    }
    var offset := length + strlen + 1 + 10;
    return Some(resBuf[offset..offset + 4]);
  }

  lemma {:induction false} StrLenPrefix(data: seq<byte>, n: nat, i: nat)
    requires i <= n <= |data| && i + StrLen(data[..n], i) < n
    ensures StrLen(data, i) == StrLen(data[..n], i)
    decreases n - i
  {
    if data[i] != 0 {
      StrLenPrefix(data, n, i + 1);
    }
  }
}
