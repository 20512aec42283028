/** The Python side of the name service: a message writer with global state that is
    never reset, label lengths computed in a separate pass, a compressed answer name,
    and a reader that also takes uncompressed ones. */
module DnsPython {
  import opened Wrappers
  import opened DnsNames
  import C = DnsC

  // ------------------------------------------------------------------ writing names

  function Lengths(pieces: seq<seq<byte>>): (r: seq<nat>)
    ensures |r| == |pieces| && forall i | 0 <= i < |r| :: r[i] == |pieces[i]|
  {
    seq(|pieces|, i requires 0 <= i < |pieces| => |pieces[i]|)
  }

  function Sum(ns: seq<nat>): nat {
    if ns == [] then 0 else Sum(ns[..|ns| - 1]) + ns[|ns| - 1]
  }

  lemma SumSnoc(ns: seq<nat>, n: nat)
    ensures Sum(ns + [n]) == Sum(ns) + n
  {
    assert (ns + [n])[..|ns|] == ns;
  }

  lemma LengthsSnoc(pieces: seq<seq<byte>>, p: seq<byte>)
    ensures Lengths(pieces + [p]) == Lengths(pieces) + [|p|]
  {
  }

  // After i characters of query the labels in done are complete and the current one
  // began at pos.
  ghost predicate Split(query: seq<byte>, i: nat, pos: nat, done: seq<seq<byte>>) {
    pos <= i <= |query| && Pieces(query[..i]) == done + [query[pos..i]]
  }

  lemma SplitStart(query: seq<byte>)
    ensures Split(query, 0, 0, [])
  {
  }

  lemma SplitStep(query: seq<byte>, i: nat, pos: nat, done: seq<seq<byte>>)
    requires Split(query, i, pos, done) && i < |query|
    ensures query[i] == DOT ==> Split(query, i + 1, i + 1, done + [query[pos..i]])
    ensures query[i] != DOT ==> Split(query, i + 1, pos, done)
  {
    C.PiecesStep(query, i, pos, done);
  }

  lemma SplitEnd(query: seq<byte>, pos: nat, done: seq<seq<byte>>)
    requires Split(query, |query|, pos, done)
    ensures Pieces(query) == done + [query[pos..]]
  {
    assert query[..|query|] == query;
  }

  // The complete labels of a prefix are labels of the whole name.
  lemma SplitGrows(query: seq<byte>, i: nat, pos: nat, done: seq<seq<byte>>)
    requires Split(query, i, pos, done)
    ensures |done| < |Pieces(query)| && Pieces(query)[..|done|] == done
    decreases |query| - i
  {
    if i == |query| {
      SplitEnd(query, pos, done);
    } else {
      SplitStep(query, i, pos, done);
      if query[i] == DOT {
        SplitGrows(query, i + 1, i + 1, done + [query[pos..i]]);
        assert Pieces(query)[..|done|] == Pieces(query)[..|done| + 1][..|done|];
      } else {
        SplitGrows(query, i + 1, pos, done);
      }
    }
  }

  // The lengths of all labels: those before a dot by scanning, the last one by
  // subtraction from the whole.
  method LabelLengths(query: seq<byte>) returns (lens: seq<nat>)
    ensures lens == Lengths(Pieces(query))
  {
    hide Split, Pieces, Lengths, Sum;
    lens := [];
    var i := 0;
    ghost var done: seq<seq<byte>> := [];
    ghost var pos := 0;
    SplitStart(query);
    NoLengths();
    while i < |query|
      invariant 0 <= pos <= i <= |query|
      invariant pos < i ==> i == |query|
      invariant Split(query, i, pos, done)
      invariant lens == Lengths(done) && Sum(lens) + |lens| == pos
      decreases |query| - i
    {
      var k, j := 0, i;
      while j < |query| && query[j] != DOT
        invariant pos == i <= j <= |query| && k == j - i
        invariant Split(query, j, pos, done)
      {
        SplitStep(query, j, pos, done);
        k, j := k + 1, j + 1;
      }
      if j < |query| {
        SplitStep(query, j, pos, done);
        SumSnoc(lens, k);
        LengthsSnoc(done, query[pos..j]);
        lens := lens + [k];
        done := done + [query[pos..j]];
        pos := j + 1;
        i := j + 1;
      } else {
        i := j;
      }
    }
    SplitEnd(query, pos, done);
    LengthsSnoc(done, query[pos..]);
    var totalRead := Sum(lens) + |lens|;
    lens := lens + [|query| - totalRead];
  }

  lemma NoLengths()
    ensures Lengths([]) == [] && Sum([]) == 0
  {
  }

  // A message part with complete labels and the start of one that has n bytes.
  function Open(done: seq<seq<byte>>, n: byte, part: seq<byte>): seq<byte> {
    Labels(done) + [n] + part
  }

  lemma OpenMore(done: seq<seq<byte>>, n: byte, part: seq<byte>, c: byte)
    ensures Open(done, n, part) + [c] == Open(done, n, part + [c])
  {
  }

  lemma OpenClose(done: seq<seq<byte>>, p: seq<byte>)
    requires |p| < 256
    ensures Open(done, |p|, p) == Labels(done + [p])
  {
    LabelsSnoc(done, p);
  }

  lemma OpenNext(done: seq<seq<byte>>, p: seq<byte>, n: byte)
    requires |p| < 256
    ensures Open(done, |p|, p) + [n] == Open(done + [p], n, [])
  {
    OpenClose(done, p);
  }

  // The name as the message writer emits it; None is a label too long for one byte.
  method GenName(query: seq<byte>) returns (name: Option<seq<byte>>)
    ensures name.Some? <==> forall i | 0 <= i < |Pieces(query)| :: |Pieces(query)[i]| < 256
    ensures name.Some? ==> name.value == Wire(query)
  {
    hide Split, Open, Labels, Pieces;
    var lens := LabelLengths(query);
    ghost var pieces := Pieces(query);
    if lens[0] >= 256 {
      return None;
    }
    var message: seq<byte> := [lens[0]];
    var l := 1;
    ghost var done: seq<seq<byte>> := [];
    ghost var pos := 0;
    SplitStart(query);
    NoLabels(lens[0]);
    assert query[0..0] == [];
    for i := 0 to |query|
      invariant 0 <= pos <= i && 1 <= l == |done| + 1 <= |pieces|
      invariant Split(query, i, pos, done)
      invariant forall j | 0 <= j < l :: |pieces[j]| < 256
      invariant message == Open(done, lens[l - 1], query[pos..i])
    {
      SplitStep(query, i, pos, done);
      if query[i] == DOT {
        ghost var p := query[pos..i];
        SplitGrows(query, i + 1, i + 1, done + [p]);
        assert pieces[..l][l - 1] == p;
        if lens[l] >= 256 {
          return None;
        }
        OpenNext(done, p, lens[l]);
        message := message + [lens[l]];
        l := l + 1;
        done := done + [p];
        pos := i + 1;
        assert query[pos..i + 1] == [];
      } else {
        OpenMore(done, lens[l - 1], query[pos..i], query[i]);
        assert query[pos..i + 1] == query[pos..i] + [query[i]];
        message := message + [query[i]];
      }
    }
    SplitEnd(query, pos, done);
    OpenClose(done, query[pos..]);
    assert query[pos..|query|] == query[pos..];
    name := Some(message + [0]);
  }

  lemma NoLabels(n: byte)
    ensures Open([], n, []) == [n]
  {
  }

  // ------------------------------------------------------------------ messages

  // Header of a message with one question (RFC 1035, section 4.1.1).
  function MessageHeader(transId: C.u16, qr: nat, numAnswers: nat): seq<byte>
    requires qr < 2 && numAnswers < 2
  {
    C.BigEndian(transId) + [128 * qr, 0] + [0, 1] + [0, numAnswers] + [0, 0] + [0, 0]
  }

  // A pointer to offset 12 (RFC 1035, section 4.1.4), then the record.
  const BACK_REFERENCE: seq<byte> := [0xC0, 0x0C]

  function QueryMessage(transId: C.u16, qr: nat, numAnswers: nat, name: seq<byte>): seq<byte>
    requires qr < 2 && numAnswers < 2
  {
    MessageHeader(transId, qr, numAnswers) + Wire(name) + [0, 1, 0, 1]
  }

  function ResponseMessage(transId: C.u16, name: seq<byte>, ip: seq<byte>): seq<byte> {
    QueryMessage(transId, 1, 1, name) + BACK_REFERENCE + C.RESOURCE + ip
  }

  // The flag and the answer count after a run of messages, queries and answers.
  function Raised(calls: seq<bool>): nat {
    if calls == [] then 0 else if calls[|calls| - 1] then Raised(calls[..|calls| - 1]) else 1
  }

  lemma {:induction false} RaisedForever(calls: seq<bool>)
    ensures Raised(calls) < 2
    ensures Raised(calls) == 0 <==> forall i | 0 <= i < |calls| :: calls[i]
  {
    if calls != [] {
      var before := calls[..|calls| - 1];
      RaisedForever(before);
      assert forall i | 0 <= i < |before| :: before[i] == calls[i];
      assert forall i | 0 <= i < |calls| - 1 :: calls[i] == before[i];
    }
  }

  // The module's globals; calls records which messages were queries.
  class Globals {
    var transId: C.u16
    var flagsQr: nat
    var numAnswers: nat

    ghost var calls: seq<bool>

    // Throughout every run the flag and the count say whether an answer was written.
    ghost predicate Valid()
      reads this
    {
      flagsQr == numAnswers == Raised(calls) < 2
    }

    constructor (transId: C.u16)
      ensures Valid() && this.transId == transId && calls == []
    {
      this.transId, flagsQr, numAnswers := transId, 0, 0;
      calls := [];
    }

    // Both globals are raised for a response and never lowered again.
    method GenFlags(query: bool)
      requires Valid()
      modifies this`flagsQr, this`numAnswers, this`calls
      ensures Valid() && calls == old(calls) + [query]
      ensures flagsQr == (if query then old(flagsQr) else 1)
      ensures numAnswers == (if query then old(numAnswers) else 1)
    {
      if !query {
        flagsQr, numAnswers := 1, 1;
      }
      calls := calls + [query];
      assert calls[..|calls| - 1] == old(calls);
    }

    // ip are the four numbers of the chosen server's address.
    method GenMessage(queryStr: seq<byte>, query: bool, ip: seq<byte>) returns (message: Option<seq<byte>>)
      requires Valid()
      modifies this`flagsQr, this`numAnswers, this`calls
      ensures Valid() && calls == old(calls) + [query]
      ensures flagsQr == (if query then old(flagsQr) else 1)
      ensures numAnswers == (if query then old(numAnswers) else 1)
      ensures message.Some? <==> forall i | 0 <= i < |Pieces(queryStr)| :: |Pieces(queryStr)[i]| < 256
      ensures message.Some? ==>
                message.value == if query then QueryMessage(transId, Raised(old(calls)), Raised(old(calls)), queryStr)
                                 else ResponseMessage(transId, queryStr, ip)
    {
      GenFlags(query);
      var m := MessageHeader(transId, flagsQr, numAnswers);
      var name := GenName(queryStr);
      if name.None? {
        return None;
      }
      m := m + name.value + [0, 1, 0, 1];
      if !query {
        m := m + BACK_REFERENCE + C.RESOURCE + ip;
      }
      message := Some(m);
    }

    // Reads a message; the identifier of a query is remembered for the answer.
    method ParseMessage(data: seq<byte>, query: bool) returns (r: Option<Parsed>)
      requires Valid()
      modifies this`transId
      ensures Valid()
      ensures r == Parse(data, query)
      ensures transId == if query && |data| >= 2 then U16(data, 0) else old(transId)
    {
      if |data| < 2 {
        return None;
      }
      var rTransId := U16(data, 0);
      if query {
        transId := rTransId;
      }
      if |data| < 13 {
        return None;
      }
      var rFlags := U16(data, 2);
      var numQuestions, rNumAnswers := U16(data, 4), U16(data, 6);
      var name := ReadLabelsLoop(data, 12);
      if name.None? {
        return None;
      }
      var i := name.value.1;
      if i + 4 > |data| {
        return None;
      }
      var qType, qClass := U16(data, i), U16(data, i + 2);
      i := i + 4;
      var answer: Option<Record> := None;
      if rNumAnswers != 0 {
        answer := ReadRecord(data, i);
        if answer.None? {
          return None;
        }
      } else if !query {
        return None;
      }
      r := Some(Parsed(rTransId, rFlags, numQuestions, rNumAnswers, DropDot(name.value.0), qType, qClass, answer));
    }
  }

  // ------------------------------------------------------------------ reading messages

  // name is None for the compressed form.
  datatype Record = Record(name: Option<seq<byte>>, rrType: int, rrClass: int, ttl: int, dataLength: int,
                           addr: seq<byte>)

  datatype Parsed = Parsed(transId: int, flags: int, numQuestions: int, numAnswers: int,
                           name: seq<byte>, qType: int, qClass: int, answer: Option<Record>)

  function U16(data: seq<byte>, i: nat): C.u16
    requires i + 2 <= |data|
  {
    var high: int, low: int := data[i], data[i + 1];
    256 * high + low
  }

  // [:-1]
  function DropDot(s: seq<byte>): seq<byte> {
    if s == [] then [] else s[..|s| - 1]
  }

  // Reading on with left bytes of the current label to go.
  function ReadOn(data: seq<byte>, i: nat, left: nat): Option<(seq<byte>, nat)>
    decreases |data| - i
  {
    if left == 0 then Some(([], i))
    else if i >= |data| then None
    else if left == 1 then
      if i + 1 >= |data| then None else Behind([data[i], DOT], ReadOn(data, i + 2, data[i + 1]))
    else Behind([data[i]], ReadOn(data, i + 1, left - 1))
  }

  function Behind(head: seq<byte>, rest: Option<(seq<byte>, nat)>): Option<(seq<byte>, nat)> {
    if rest.None? then None else Some((head + rest.value.0, rest.value.1))
  }

  lemma {:induction false} ReadOnIsReadName(data: seq<byte>, i: nat, left: nat)
    requires 0 < left
    ensures ReadOn(data, i, left) ==
              if i + left > |data| then None else Behind(data[i..i + left] + [DOT], ReadName(data, i + left))
    decreases |data| - i, left
  {
    if i < |data| {
      if left == 1 {
        if i + 1 < |data| {
          assert data[i..i + 1] + [DOT] == [data[i], DOT];
          if data[i + 1] > 0 {
            ReadOnIsReadName(data, i + 2, data[i + 1]);
          }
        }
      } else {
        ReadOnIsReadName(data, i + 1, left - 1);
        if i + left <= |data| {
          assert data[i..i + left] == [data[i]] + data[i + 1..i + left];
          BehindBehind([data[i]], data[i + 1..i + left] + [DOT], ReadName(data, i + left));
          assert data[i..i + left] + [DOT] == [data[i]] + (data[i + 1..i + left] + [DOT]);
        }
      }
    }
  }

  lemma BehindBehind(a: seq<byte>, b: seq<byte>, rest: Option<(seq<byte>, nat)>)
    ensures Behind(a, Behind(b, rest)) == Behind(a + b, rest)
  {
    if rest.Some? {
      assert a + (b + rest.value.0) == (a + b) + rest.value.0;
    }
  }

  lemma ReadOnIsReading(data: seq<byte>, start: nat)
    requires start < |data|
    ensures Behind([], ReadOn(data, start + 1, data[start])) == ReadName(data, start)
  {
    if data[start] > 0 {
      ReadOnIsReadName(data, start + 1, data[start]);
    }
    BehindNothing(ReadOn(data, start + 1, data[start]));
  }

  lemma BehindNothing(rest: Option<(seq<byte>, nat)>)
    ensures Behind([], rest) == rest
  {
    if rest.Some? {
      assert [] + rest.value.0 == rest.value.0;
    }
  }

  // The byte-by-byte loop of the reader; None is an index out of range.
  method ReadLabelsLoop(data: seq<byte>, start: nat) returns (r: Option<(seq<byte>, nat)>)
    requires start < |data|
    ensures r == ReadName(data, start)
  {
    hide ReadName;
    var l: nat := data[start];
    var i := start + 1;
    var input: seq<byte> := [];
    ReadOnIsReading(data, start);
    ghost var goal := ReadName(data, start);
    while l != 0
      invariant start < i
      invariant goal == Behind(input, ReadOn(data, i, l))
      decreases |data| - i, l
    {
      if i >= |data| {
        return None;
      }
      if l == 1 && i + 1 >= |data| {
        return None;
      }
      BehindBehind(input, if l == 1 then [data[i], DOT] else [data[i]],
                   if l == 1 then ReadOn(data, i + 2, data[i + 1]) else ReadOn(data, i + 1, l - 1));
      input := input + [data[i]];
      i := i + 1;
      l := l - 1;
      if l == 0 {
        l := data[i];
        i := i + 1;
        assert input + [DOT] == input[..|input| - 1] + [input[|input| - 1], DOT];
        input := input + [DOT];
      }
    }
    assert input + [] == input;
    r := Some((input, i));
  }

  // The answer part from position i on.
  function RecordAt(data: seq<byte>, i: nat): Option<Record> {
    if i + 2 > |data| then None
    else if U16(data, i) == 0xC00C then FieldsAt(data, i + 2, None)
    else
      var name := ReadName(data, i);
      if name.None? then None else FieldsAt(data, name.value.1, Some(DropDot(name.value.0)))
  }

  // The time to live is put together from its halves with a shift of 8 instead of 16.
  function FieldsAt(data: seq<byte>, i: nat, name: Option<seq<byte>>): Option<Record> {
    if i + 14 > |data| then None
    else Some(Record(name, U16(data, i), U16(data, i + 2), 256 * U16(data, i + 4) + U16(data, i + 6),
                     U16(data, i + 8), data[i + 10..i + 14]))
  }

  method ReadRecord(data: seq<byte>, at: nat) returns (r: Option<Record>)
    ensures r == RecordAt(data, at)
  {
    if at + 2 > |data| {
      return None;
    }
    var i, rrName := at + 2, None;
    if U16(data, at) != 0xC00C {
      var name := ReadLabelsLoop(data, at);
      if name.None? {
        return None;
      }
      i, rrName := name.value.1, Some(DropDot(name.value.0));
    }
    return FieldsAt(data, i, rrName);
  }

  // What parseMessage returns; None is any of its exceptions. A reply without answers
  // raises one too, because the record's variables are unset.
  function Parse(data: seq<byte>, query: bool): Option<Parsed> {
    if |data| < 13 then None
    else
      var name := ReadName(data, 12);
      if name.None? || name.value.1 + 4 > |data| then None
      else
        var i, numAnswers := name.value.1, U16(data, 6);
        var answer := if numAnswers != 0 then RecordAt(data, i + 4) else None;
        if (numAnswers != 0 && answer.None?) || (numAnswers == 0 && !query) then None
        else Some(Parsed(U16(data, 0), U16(data, 2), U16(data, 4), numAnswers,
                         DropDot(name.value.0), U16(data, i), U16(data, i + 2), answer))
  }
}
