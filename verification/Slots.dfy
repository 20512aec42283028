/** Fixed tables of optional entries: what the proxy's four pointer arrays have in common. */
module Slots {
  import opened Wrappers

  // The first index from i on that is free, or the table size.
  function FirstFree<T>(slots: seq<Option<T>>, i: nat := 0): (r: nat)
    requires i <= |slots|
    ensures i <= r <= |slots|
    ensures r < |slots| ==> slots[r].None?
    ensures forall j | i <= j < r :: slots[j].Some?
    decreases |slots| - i
  {
    if i == |slots| || slots[i].None? then i else FirstFree(slots, i + 1)
  }

  // The first live index from i up to the high-water mark that p accepts, or -1.
  function Scan<T>(slots: seq<Option<T>>, max: int, p: T -> bool, i: nat := 0): (r: int)
    requires -1 <= max < |slots|
    decreases max + 1 - i
  {
    if i > max then -1
    else if slots[i].Some? && p(slots[i].value) then i
    else Scan(slots, max, p, i + 1)
  }

  ghost predicate HighWater<T>(slots: seq<Option<T>>, max: int) {
    && -1 <= max < |slots|
    && forall i | 0 <= i < |slots| && slots[i].Some? :: i <= max
  }

  ghost predicate Accepted<T>(slots: seq<Option<T>>, p: T -> bool, i: int) {
    0 <= i < |slots| && slots[i].Some? && p(slots[i].value)
  }

  // The bounded scan misses nothing: it finds the first match of the whole table.
  lemma {:induction false} ScanIsComplete<T>(slots: seq<Option<T>>, max: int, p: T -> bool, i: nat)
    requires HighWater(slots, max)
    ensures var r := Scan(slots, max, p, i);
            if r == -1 then forall j | i <= j :: !Accepted(slots, p, j)
            else i <= r && Accepted(slots, p, r) && forall j | i <= j < r :: !Accepted(slots, p, j)
    decreases max + 1 - i
  {
    if i <= max && !(slots[i].Some? && p(slots[i].value)) {
      ScanIsComplete(slots, max, p, i + 1);
    }
  }

  // ------------------------------------------------------------------ counting

  ghost function Count<T>(slots: seq<Option<T>>, p: T -> bool): nat {
    if slots == [] then 0
    else
      Count(slots[..|slots| - 1], p)
        + if Accepted(slots, p, |slots| - 1) then 1 else 0
  }

  lemma {:induction false} CountUpdate<T>(slots: seq<Option<T>>, p: T -> bool, i: nat, x: Option<T>)
    requires i < |slots|
    ensures Count(slots[i := x], p) ==
              Count(slots, p)
                - (if Accepted(slots, p, i) then 1 else 0)
                + (if x.Some? && p(x.value) then 1 else 0)
  {
    var n := |slots| - 1;
    if i == n {
      assert slots[i := x][..n] == slots[..n];
    } else {
      assert slots[i := x][..n] == slots[..n][i := x];
      CountUpdate(slots[..n], p, i, x);
    }
  }

  lemma {:induction false} CountIsZero<T>(slots: seq<Option<T>>, p: T -> bool)
    ensures Count(slots, p) == 0 <==> forall i :: !Accepted(slots, p, i)
  {
    if slots != [] {
      var q := slots[..|slots| - 1];
      CountIsZero(q, p);
      if Count(slots, p) == 0 {
        forall i
          ensures !Accepted(slots, p, i)
        {
          assert i < |q| ==> !Accepted(q, p, i);
        }
      } else if Count(q, p) != 0 {
        var i :| Accepted(q, p, i);
        assert Accepted(slots, p, i);
      } else {
        assert Accepted(slots, p, |q|);
      }
    }
  }

  lemma CountOfTwo<T>(slots: seq<Option<T>>, p: T -> bool, i: int, j: int)
    requires Accepted(slots, p, i) && i != j
    ensures Accepted(slots, p, j) ==> Count(slots, p) >= 2
  {
    var without := slots[i := None];
    CountUpdate(slots, p, i, None);
    CountIsZero(without, p);
    assert Accepted(slots, p, j) ==> Accepted(without, p, j);
  }

  ghost function Everything<T>(): T -> bool {
    (x: T) => true
  }

  ghost function Live<T>(slots: seq<Option<T>>): nat {
    Count(slots, Everything())
  }

  // A table has as many live entries as slots only if no slot is free.
  lemma {:induction false} LiveFillsTable<T>(slots: seq<Option<T>>)
    ensures Live(slots) <= |slots|
    ensures Live(slots) == |slots| <==> forall i | 0 <= i < |slots| :: slots[i].Some?
  {
    if slots != [] {
      var q := slots[..|slots| - 1];
      LiveFillsTable(q);
      if forall i | 0 <= i < |slots| :: slots[i].Some? {
        assert forall i | 0 <= i < |q| :: q[i] == slots[i];
      } else if Live(slots) == |slots| {
        assert forall i | 0 <= i < |q| :: q[i] == slots[i];
      }
    }
  }

  lemma LiveUpdate<T>(slots: seq<Option<T>>, i: nat, x: Option<T>)
    requires i < |slots|
    ensures Live(slots[i := x]) ==
              Live(slots) - (if slots[i].Some? then 1 else 0) + (if x.Some? then 1 else 0)
  {
    CountUpdate(slots, Everything(), i, x);
  }

  // ------------------------------------------------------------------ keys

  ghost function Keys<T(!new), K(!new)>(slots: seq<Option<T>>, key: T -> K): set<K> {
    set i | 0 <= i < |slots| && slots[i].Some? :: key(slots[i].value)
  }

  ghost predicate KeysDiffer<T(!new), K(!new)>(slots: seq<Option<T>>, key: T -> K) {
    forall i, j | 0 <= i < j < |slots| && slots[i].Some? && slots[j].Some? ::
      key(slots[i].value) != key(slots[j].value)
  }

  // Live entries with different keys are as many as their keys.
  lemma {:induction false} KeysCount<T(!new), K(!new)>(slots: seq<Option<T>>, key: T -> K)
    requires KeysDiffer(slots, key)
    ensures |Keys(slots, key)| == Live(slots)
  {
    if slots != [] {
      var n := |slots| - 1;
      var q, x := slots[..n], slots[n];
      KeysCount(q, key);
      if x.Some? {
        assert key(x.value) !in Keys(q, key);
        KeysSnoc(q, x, key);
      } else {
        KeysSnoc(q, x, key);
      }
      assert slots == q + [x];
    }
  }

  lemma KeysSnoc<T(!new), K(!new)>(q: seq<Option<T>>, x: Option<T>, key: T -> K)
    ensures Keys(q + [x], key) == Keys(q, key) + if x.Some? then {key(x.value)} else {}
  {
    var s := q + [x];
    forall k | k in Keys(q, key)
      ensures k in Keys(s, key)
    {
      var i :| 0 <= i < |q| && q[i].Some? && key(q[i].value) == k;
      assert s[i] == q[i];
    }
    if x.Some? {
      assert s[|q|] == x;
    }
  }

  lemma {:induction false} BoundedSet(s: set<int>, n: nat)
    requires forall x | x in s :: 0 <= x < n
    ensures |s| <= n
  {
    if n == 0 {
      assert forall x :: x !in s;
    } else {
      BoundedSet(s - {n - 1}, n - 1);
    }
  }

  lemma SubsetSize<K>(a: set<K>, b: set<K>)
    requires a <= b
    ensures |a| <= |b|
  {
    assert b == a + (b - a);
  }

  lemma AnElement<K>(s: set<K>) returns (x: K)
    requires |s| > 0
    ensures x in s
  {
    x :| x in s;
  }
}
