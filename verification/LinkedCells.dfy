/** The hand-written doubly linked list. Every operation is stated against the ghost
    sequence of cells that the list threads through. */
module LinkedCells {
  import opened Wrappers

  class Cell<T> {
    const data: T
    var prev: Cell?<T>
    var next: Cell?<T>

    // The object whose list this cell was made for, and whether it is still allocated.
    ghost const owner: object
    ghost var live: bool

    constructor (data: T, ghost owner: object)
      ensures this.data == data && this.owner == owner
      ensures prev == null && next == null && live
    {
      this.data := data;
      this.owner := owner;
      prev, next, live := null, null, true;
    }
  }

  function Data<T>(cells: seq<Cell<T>>): (r: seq<T>)
    ensures |r| == |cells| && forall i | 0 <= i < |cells| :: r[i] == cells[i].data
  {
    seq(|cells|, i requires 0 <= i < |cells| => cells[i].data)
  }

  // The cell at index i, or null on either side of the sequence.
  function At<T>(cells: seq<Cell<T>>, i: int): Cell?<T> {
    if 0 <= i < |cells| then cells[i] else null
  }

  // From list onwards the links run through exactly these live cells of owner and end;
  // prev inverts next, and no cell occurs twice. What precedes the first cell is left open, because the queue
  // appends through its tail.
  ghost predicate Chain<T>(owner: object, list: Cell?<T>, cells: seq<Cell<T>>)
    reads set c | c in cells
  {
    && list == At(cells, 0)
    && (forall i | 0 <= i < |cells| :: cells[i].live && cells[i].owner == owner)
    && (forall i {:trigger cells[i].next} | 0 <= i < |cells| :: cells[i].next == At(cells, i + 1))
    && (forall i {:trigger cells[i].prev} | 0 < i < |cells| :: cells[i].prev == At(cells, i - 1))
    && (forall i, j | 0 <= i < j < |cells| :: cells[i] != cells[j])
  }

  ghost predicate IsList<T>(owner: object, list: Cell?<T>, cells: seq<Cell<T>>)
    reads set c | c in cells
  {
    Chain(owner, list, cells) && (list != null ==> list.prev == null)
  }

  lemma ListIsChain<T>(owner: object, list: Cell?<T>, cells: seq<Cell<T>>)
    requires IsList(owner, list, cells)
    ensures Chain(owner, list, cells)
  {
  }

  // The cells of a list are determined by its head: there is only one chain.
  lemma {:induction false} ChainIsUnique<T>(owner: object, list: Cell?<T>, cells: seq<Cell<T>>, cells': seq<Cell<T>>)
    requires Chain(owner, list, cells) && Chain(owner, list, cells')
    ensures cells == cells'
  {
    if cells != [] {
      assert Chain(owner, list.next, cells[1..]);
      assert Chain(owner, list.next, cells'[1..]);
      ChainIsUnique(owner, list.next, cells[1..], cells'[1..]);
      assert cells == [list] + cells[1..] && cells' == [list] + cells'[1..];
    }
  }

  // A chain whose last cell now points to c is one cell longer.
  lemma ChainGrows<T>(owner: object, list: Cell?<T>, cells: seq<Cell<T>>, c: Cell<T>)
    requires cells != [] && list == cells[0]
    requires forall i | 0 <= i < |cells| :: cells[i].live && cells[i].owner == owner
    requires forall i {:trigger cells[i].next} | 0 <= i < |cells| - 1 :: cells[i].next == At(cells, i + 1)
    requires forall i {:trigger cells[i].prev} | 0 < i < |cells| :: cells[i].prev == At(cells, i - 1)
    requires cells[|cells| - 1].next == c
    requires c.prev == cells[|cells| - 1] && c.next == null && c.live && c.owner == owner
    requires c !in cells && forall i, j | 0 <= i < j < |cells| :: cells[i] != cells[j]
    ensures Chain(owner, list, cells + [c])
  {
  }

  method Last<T>(list: Cell?<T>, ghost owner: object, ghost cells: seq<Cell<T>>) returns (last: Cell?<T>)
    requires Chain(owner, list, cells)
    ensures last == At(cells, |cells| - 1)
  {
    last := list;
    if last != null {
      ghost var i := 0;
      while last.next != null
        invariant 0 <= i < |cells| && last == cells[i]
        decreases |cells| - i
      {
        last := last.next;
        i := i + 1;
      }
    }
  }

  method Append<T>(list: Cell?<T>, data: T, ghost owner: object, ghost cells: seq<Cell<T>>)
    returns (r: Cell<T>, ghost c: Cell<T>)
    requires Chain(owner, list, cells)
    modifies (if cells == [] then {} else {cells[|cells| - 1]})`next
    ensures fresh(c) && c.data == data
    ensures c.prev == At(cells, |cells| - 1)
    ensures Chain(owner, r, cells + [c])
    ensures old(IsList(owner, list, cells)) ==> IsList(owner, r, cells + [c])
    ensures cells != [] ==> r == list
  {
    var newList := new Cell(data, owner);
    c := newList;
    if list != null {
      var last := Last(list, owner, cells);
      last.next := newList;
      newList.prev := last;
      r := list;
      ChainGrows(owner, list, cells, c);
    } else {
      r := newList;
    }
  }

  method GetData<T>(list: Cell?<T>, n: nat, ghost owner: object, ghost cells: seq<Cell<T>>) returns (r: Option<T>)
    requires Chain(owner, list, cells)
    ensures r == if n < |cells| then Some(cells[n].data) else None
  {
    var cur, left := list, n;
    ghost var i := 0;
    while left > 0 && cur != null
      invariant 0 <= i <= |cells| && cur == At(cells, i)
      invariant i + left == n
      decreases |cells| - i
    {
      left := left - 1;
      cur := cur.next;
      i := i + 1;
    }
    r := if cur != null then Some(cur.data) else None;
  }

  // r is the first cell that holds this very pointer.
  ghost predicate IsFirst<T>(cells: seq<Cell<T>>, data: T, r: Cell<T>) {
    exists i :: 0 <= i < |cells| && r == cells[i] && r.data == data && forall j | 0 <= j < i :: cells[j].data != data
  }

  method Find<T(==)>(list: Cell?<T>, data: T, ghost owner: object, ghost cells: seq<Cell<T>>) returns (r: Cell?<T>)
    requires Chain(owner, list, cells)
    ensures r == null <==> data !in Data(cells)
    ensures r != null ==> r in cells && r.data == data && IsFirst(cells, data, r)
  {
    r := list;
    ghost var i := 0;
    while r != null
      invariant 0 <= i <= |cells| && r == At(cells, i)
      invariant forall j | 0 <= j < i :: cells[j].data != data
      decreases |cells| - i
    {
      if r.data == data {
        assert Data(cells)[i] == data;
        break;
      }
      r := r.next;
      i := i + 1;
    }
  }

  // The first cell whose data the comparison accepts.
  method FindCustom<T>(list: Cell?<T>, accepts: T -> bool, ghost owner: object, ghost cells: seq<Cell<T>>)
    returns (r: Cell?<T>, ghost at: nat)
    requires Chain(owner, list, cells)
    ensures at <= |cells| && r == At(cells, at)
    ensures forall j | 0 <= j < at :: !accepts(cells[j].data)
    ensures r != null ==> accepts(r.data)
  {
    r := list;
    at := 0;
    while r != null
      invariant at <= |cells| && r == At(cells, at)
      invariant forall j | 0 <= j < at :: !accepts(cells[j].data)
      decreases |cells| - at
    {
      if accepts(r.data) {
        return;
      }
      r := r.next;
      at := at + 1;
    }
  }

  method Length<T>(list: Cell?<T>, ghost owner: object, ghost cells: seq<Cell<T>>) returns (n: nat)
    requires Chain(owner, list, cells)
    ensures n == |cells|
  {
    var cur := list;
    n := 0;
    while cur != null
      invariant n <= |cells| && cur == At(cells, n)
      decreases |cells| - n
    {
      n := n + 1;
      cur := cur.next;
    }
  }

  // Releases every cell of the list, last one first.
  method Free<T>(list: Cell?<T>, ghost owner: object, ghost cells: seq<Cell<T>>)
    requires Chain(owner, list, cells)
    modifies (set c | c in cells)`live
    ensures forall c | c in cells :: !c.live
    decreases |cells|
  {
    if list == null {
      return;
    }
    assert Chain(owner, list.next, cells[1..]);
    Free(list.next, owner, cells[1..]);
    list.live := false;
    assert cells == [list] + cells[1..];
  }
}
