/** Domain names on the wire: sequences of length-prefixed labels closed by a zero byte
    (RFC 1035, section 3.1), and how they are split, written and read back. */
module DnsNames {
  import opened Wrappers

  type byte = b: int | 0 <= b < 256

  const DOT: byte := 46

  // The labels of a dotted name; always at least one, possibly empty.
  function Pieces(src: seq<byte>): (r: seq<seq<byte>>)
    ensures |r| >= 1
  {
    if src == [] then [[]]
    else
      var p, c := Pieces(src[..|src| - 1]), src[|src| - 1];
      if c == DOT then p + [[]] else p[..|p| - 1] + [p[|p| - 1] + [c]]
  }

  function Join(pieces: seq<seq<byte>>): seq<byte>
    requires |pieces| >= 1
  {
    if |pieces| == 1 then pieces[0]
    else Join(pieces[..|pieces| - 1]) + [DOT] + pieces[|pieces| - 1]
  }

  // Joining undoes splitting, and labels hold no dots.
  lemma {:induction false} JoinPieces(src: seq<byte>)
    ensures Join(Pieces(src)) == src
    ensures forall i | 0 <= i < |Pieces(src)| :: DOT !in Pieces(src)[i]
  {
    if src != [] {
      var q, c := src[..|src| - 1], src[|src| - 1];
      JoinPieces(q);
      var p := Pieces(q);
      assert src == q + [c];
      if c == DOT {
        assert (p + [[]])[..|p|] == p;
      } else {
        JoinLonger(p, c);
      }
    }
  }

  // Lengthening the last label.
  lemma JoinLonger(p: seq<seq<byte>>, c: byte)
    requires |p| >= 1 && c != DOT && forall i | 0 <= i < |p| :: DOT !in p[i]
    ensures var r := p[..|p| - 1] + [p[|p| - 1] + [c]];
            Join(r) == Join(p) + [c] && forall i | 0 <= i < |r| :: DOT !in r[i]
  {
    var last := p[|p| - 1] + [c];
    var r := p[..|p| - 1] + [last];
    assert r[..|r| - 1] == p[..|p| - 1];
  }

  // ------------------------------------------------------------------ writing

  // What storing n in a char leaves of it.
  function CharOf(n: nat): byte {
    if n < 256 then n else n % 256
  }

  function Label(piece: seq<byte>): seq<byte> {
    [CharOf(|piece|)] + piece
  }

  function Labels(pieces: seq<seq<byte>>): seq<byte> {
    if pieces == [] then []
    else Labels(pieces[..|pieces| - 1]) + Label(pieces[|pieces| - 1])
  }

  function Wire(src: seq<byte>): seq<byte> {
    Labels(Pieces(src)) + [0]
  }

  lemma LabelsSnoc(pieces: seq<seq<byte>>, p: seq<byte>)
    ensures Labels(pieces + [p]) == Labels(pieces) + Label(p)
  {
    assert (pieces + [p])[..|pieces|] == pieces;
  }

  lemma {:induction false} LabelsCons(p: seq<byte>, pieces: seq<seq<byte>>)
    ensures Labels([p] + pieces) == Label(p) + Labels(pieces)
  {
    if pieces == [] {
      assert [p] + pieces == [] + [p];
      LabelsSnoc([], p);
    } else {
      var q, last := pieces[..|pieces| - 1], pieces[|pieces| - 1];
      LabelsCons(p, q);
      assert [p] + pieces == ([p] + q) + [last];
      LabelsSnoc([p] + q, last);
      assert (Label(p) + Labels(q)) + Label(last) == Label(p) + (Labels(q) + Label(last));
    }
  }

  // A name grows by two bytes: one more length than there are dots, and the end.
  lemma {:induction false} LabelsLength(src: seq<byte>)
    ensures |Labels(Pieces(src))| == |src| + 1
  {
    if src != [] {
      var q, c := src[..|src| - 1], src[|src| - 1];
      LabelsLength(q);
      var p := Pieces(q);
      LabelsSnoc(p, []);
      LabelsSnoc(p[..|p| - 1], p[|p| - 1]);
      LabelsSnoc(p[..|p| - 1], p[|p| - 1] + [c]);
      assert p == p[..|p| - 1] + [p[|p| - 1]];
    } else {
      LabelsSnoc([], []);
      assert Pieces(src) == [] + [[]];
    }
  }

  // ------------------------------------------------------------------ well-formed names

  // Labels of 1 to max bytes, none of them zero.
  predicate WellFormed(src: seq<byte>, max: nat) {
    && (forall i | 0 <= i < |Pieces(src)| :: 1 <= |Pieces(src)[i]| <= max)
    && 0 !in src
  }

  // ------------------------------------------------------------------ reading

  function Prepend(head: seq<byte>, rest: Option<(seq<byte>, nat)>): Option<(seq<byte>, nat)> {
    if rest.None? then None else Some((head + [DOT] + rest.value.0, rest.value.1))
  }

  // Reading labels from position i on: the bytes with a dot after every label, and the
  // position after the zero byte. None is an index out of range.
  function ReadName(data: seq<byte>, i: nat): Option<(seq<byte>, nat)>
    decreases |data| - i
  {
    if i >= |data| then None
    else if data[i] == 0 then Some(([], i + 1))
    else if i + 1 + data[i] > |data| then None
    else Prepend(data[i + 1..i + 1 + data[i]], ReadName(data, i + 1 + data[i]))
  }

  function Dotted(pieces: seq<seq<byte>>): seq<byte> {
    if pieces == [] then [] else pieces[0] + [DOT] + Dotted(pieces[1..])
  }

  lemma ReadOneLabel(data: seq<byte>, i: nat, p: seq<byte>)
    requires 1 <= |p| <= 255 && i + 1 + |p| <= |data|
    requires data[i] == |p| && data[i + 1..i + 1 + |p|] == p
    ensures ReadName(data, i) == Prepend(p, ReadName(data, i + 1 + |p|))
  {
  }

  lemma LabelSlice(data: seq<byte>, pre: seq<byte>, p: seq<byte>, tail: seq<byte>)
    requires 1 <= |p| <= 255 && data == pre + Label(p) + tail
    ensures |pre| + 1 + |p| <= |data|
    ensures data[|pre|] == |p| && data[|pre| + 1..|pre| + 1 + |p|] == p
  {
  }

  lemma {:induction false} ReadLabels(pre: seq<byte>, pieces: seq<seq<byte>>, post: seq<byte>)
    requires forall i | 0 <= i < |pieces| :: 1 <= |pieces[i]| <= 255
    ensures ReadName(pre + Labels(pieces) + [0] + post, |pre|)
         == Some((Dotted(pieces), |pre| + |Labels(pieces)| + 1))
    decreases |pieces|
  {
    var data := pre + Labels(pieces) + [0] + post;
    if pieces == [] {
      assert data[|pre|] == 0;
    } else {
      var p, rest := pieces[0], pieces[1..];
      ReadFirst(data, pre, pieces, post);
      assert forall i | 0 <= i < |rest| :: rest[i] == pieces[i + 1];
      ReadLabels(pre + Label(p), rest, post);
    }
  }

  lemma FirstLabel(pre: seq<byte>, pieces: seq<seq<byte>>, post: seq<byte>)
    requires pieces != []
    ensures var p, rest := pieces[0], pieces[1..];
            && pre + Labels(pieces) + [0] + post == (pre + Label(p)) + Labels(rest) + [0] + post
            && pre + Labels(pieces) + [0] + post == pre + Label(p) + (Labels(rest) + [0] + post)
            && |Labels(pieces)| == 1 + |p| + |Labels(rest)| && |Label(p)| == 1 + |p|
  {
    var p, rest := pieces[0], pieces[1..];
    assert pieces == [p] + rest;
    LabelsCons(p, rest);
    assert |Label(p)| == 1 + |p|;
    Reassociate(pre, Label(p), Labels(rest), [0], post);
  }

  lemma Reassociate(a: seq<byte>, b: seq<byte>, c: seq<byte>, d: seq<byte>, e: seq<byte>)
    ensures a + (b + c) + d + e == (a + b) + c + d + e
    ensures a + (b + c) + d + e == a + b + (c + d + e)
  {
  }

  // The first of several labels, and the message seen from behind it.
  lemma ReadFirst(data: seq<byte>, pre: seq<byte>, pieces: seq<seq<byte>>, post: seq<byte>)
    requires pieces != [] && 1 <= |pieces[0]| <= 255
    requires data == pre + Labels(pieces) + [0] + post
    ensures var p, rest := pieces[0], pieces[1..];
            && data == (pre + Label(p)) + Labels(rest) + [0] + post
            && |pre + Label(p)| == |pre| + 1 + |p| <= |data|
            && |Labels(pieces)| == 1 + |p| + |Labels(rest)|
            && ReadName(data, |pre|) == Prepend(p, ReadName(data, |pre + Label(p)|))
  {
    hide ReadName, Prepend, Label, Labels;
    var p, rest := pieces[0], pieces[1..];
    FirstLabel(pre, pieces, post);
    LabelSlice(data, pre, p, Labels(rest) + [0] + post);
    ReadOneLabel(data, |pre|, p);
  }

  lemma {:induction false} DottedIsJoin(pieces: seq<seq<byte>>)
    requires |pieces| >= 1
    ensures Dotted(pieces) == Join(pieces) + [DOT]
  {
    if |pieces| == 1 {
      assert Dotted(pieces[1..]) == [];
    } else {
      var q, last := pieces[..|pieces| - 1], pieces[|pieces| - 1];
      DottedIsJoin(q);
      DottedSnoc(q, last);
      assert q + [last] == pieces;
    }
  }

  lemma {:induction false} DottedSnoc(pieces: seq<seq<byte>>, p: seq<byte>)
    ensures Dotted(pieces + [p]) == Dotted(pieces) + p + [DOT]
    decreases |pieces|
  {
    if pieces == [] {
      assert [] + [p] == [p] && [p][1..] == [];
    } else {
      DottedSnoc(pieces[1..], p);
      assert (pieces + [p])[1..] == pieces[1..] + [p];
    }
  }

  // Reading a written name gives it back, dot-terminated, wherever it stands.
  lemma ReadWire(pre: seq<byte>, src: seq<byte>, post: seq<byte>)
    requires forall i | 0 <= i < |Pieces(src)| :: 1 <= |Pieces(src)[i]| <= 255
    ensures ReadName(pre + Wire(src) + post, |pre|) == Some((src + [DOT], |pre| + |src| + 2))
  {
    hide ReadName, Pieces, Labels, Dotted, Join;
    ReadLabels(pre, Pieces(src), post);
    DottedIsJoin(Pieces(src));
    JoinPieces(src);
    LabelsLength(src);
    assert pre + Wire(src) + post == pre + Labels(Pieces(src)) + [0] + post;
  }

  // So encodings are injective, even as prefixes of longer messages.
  lemma WirePrefixFree(src: seq<byte>, src': seq<byte>, post: seq<byte>, post': seq<byte>)
    requires forall i | 0 <= i < |Pieces(src)| :: 1 <= |Pieces(src)[i]| <= 255
    requires forall i | 0 <= i < |Pieces(src')| :: 1 <= |Pieces(src')[i]| <= 255
    requires Wire(src) + post == Wire(src') + post'
    ensures src == src' && post == post'
  {
    hide Wire, ReadName, Pieces;
    var m := Wire(src) + post;
    ReadWire([], src, post);
    ReadWire([], src', post');
    assert [] + Wire(src) + post == m && [] + Wire(src') + post' == m;
    DropLast(src, src');
    assert post == m[|Wire(src)|..] && post' == m[|Wire(src')|..];
  }

  lemma DropLast(a: seq<byte>, b: seq<byte>)
    requires a + [DOT] == b + [DOT]
    ensures a == b
  {
    assert (a + [DOT])[..|a|] == a && (b + [DOT])[..|b|] == b;
  }

  // Reading names that the encoders did write, but with an empty label, stops early:
  // the position is past the name exactly when no label is empty.
  lemma {:induction false} ReadStopsAtEmptyLabel(pre: seq<byte>, pieces: seq<seq<byte>>, post: seq<byte>)
    requires forall i | 0 <= i < |pieces| :: |pieces[i]| <= 255
    ensures ReadName(pre + Labels(pieces) + [0] + post, |pre|).Some?
    ensures ReadName(pre + Labels(pieces) + [0] + post, |pre|).value.1 == |pre| + |Labels(pieces)| + 1 <==>
              forall i | 0 <= i < |pieces| :: pieces[i] != []
    ensures ReadName(pre + Labels(pieces) + [0] + post, |pre|).value.1 <= |pre| + |Labels(pieces)| + 1
    decreases |pieces|
  {
    var data := pre + Labels(pieces) + [0] + post;
    if pieces == [] {
      assert data[|pre|] == 0;
    } else {
      var p, rest := pieces[0], pieces[1..];
      if p != [] {
        ReadFirst(data, pre, pieces, post);
        assert forall i | 0 <= i < |rest| :: rest[i] == pieces[i + 1];
        ReadStopsAtEmptyLabel(pre + Label(p), rest, post);
      } else {
        assert pieces == [p] + rest;
        LabelsCons(p, rest);
        assert data[|pre|] == 0;
      }
    }
  }

  // ------------------------------------------------------------------ C strings

  // strlen from position i on; the size of the buffer if there is no zero byte.
  function StrLen(data: seq<byte>, i: nat): nat
    requires i <= |data|
    decreases |data| - i
  {
    if i == |data| || data[i] == 0 then 0 else 1 + StrLen(data, i + 1)
  }

  lemma {:induction false} StrLenFinds(data: seq<byte>, i: nat, n: nat)
    requires i + n < |data| && data[i + n] == 0
    requires forall j | i <= j < i + n :: data[j] != 0
    ensures StrLen(data, i) == n
    decreases n
  {
    if n > 0 {
      StrLenFinds(data, i + 1, n - 1);
    }
  }

  lemma {:induction false} LabelsHaveNoZero(pieces: seq<seq<byte>>)
    requires forall i | 0 <= i < |pieces| :: 1 <= |pieces[i]| <= 255 && 0 !in pieces[i]
    ensures 0 !in Labels(pieces)
  {
    if pieces != [] {
      LabelsHaveNoZero(pieces[..|pieces| - 1]);
    }
  }

  lemma {:induction false} PiecesBytes(src: seq<byte>, x: byte)
    requires x !in src
    ensures forall i | 0 <= i < |Pieces(src)| :: x !in Pieces(src)[i]
  {
    if src != [] {
      var q, c := src[..|src| - 1], src[|src| - 1];
      PiecesBytes(q, x);
      var p := Pieces(q);
      assert c in src;
      if c != DOT {
        var r := p[..|p| - 1] + [p[|p| - 1] + [c]];
        forall i | 0 <= i < |r|
          ensures x !in r[i]
        {
          if i < |r| - 1 {
            assert r[i] == p[i];
          }
        }
      }
    }
  }

  // In C terms a well-formed encoded name is a string of length |src| + 1.
  lemma WireIsCString(pre: seq<byte>, src: seq<byte>, post: seq<byte>)
    requires WellFormed(src, 255)
    ensures StrLen(pre + Wire(src) + post, |pre|) == |src| + 1
  {
    var data := pre + Wire(src) + post;
    PiecesBytes(src, 0);
    LabelsHaveNoZero(Pieces(src));
    LabelsLength(src);
    hide Labels, Pieces, StrLen, WellFormed;
    var labels := Labels(Pieces(src));
    assert data == pre + labels + [0] + post;
    ZeroBehind(pre, labels, post);
  }

  lemma ZeroBehind(pre: seq<byte>, s: seq<byte>, post: seq<byte>)
    requires 0 !in s
    ensures StrLen(pre + s + [0] + post, |pre|) == |s|
  {
    var data := pre + s + [0] + post;
    forall j | |pre| <= j < |pre| + |s|
      ensures data[j] != 0
    {
      assert data[j] == s[j - |pre|];
    }
    StrLenFinds(data, |pre|, |s|);
  }
}
