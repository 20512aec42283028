/** The queue on top of the linked list: head, tail and a length counter. */
module MyQueue {
  import opened Wrappers
  import opened LinkedCells

  // Appending through a one-cell segment: the new cell is the segment's successor.
  lemma AppendedAt<T>(segment: seq<Cell<T>>, c: Cell<T>, r: Cell<T>, owner: object)
    requires Chain(owner, r, segment + [c]) && |segment| <= 1
    ensures segment == [] ==> r == c && c.next == null
    ensures segment != [] ==> r == segment[0] && r.next == c && c.next == null
    ensures c.live && c.owner == owner
  {
    var all := segment + [c];
    assert all[|segment|] == c && c.next == At(all, |segment| + 1);
    assert all[0].next == At(all, 1);
  }

  // The last cell of a list is a list of its own, but for its prev pointer.
  lemma SegmentIsChain<T>(owner: object, head: Cell?<T>, cells: seq<Cell<T>>)
    requires IsList(owner, head, cells)
    ensures Chain(owner, head, cells)
    ensures head == At(cells, 0) && (head != null ==> head.prev == null)
    ensures forall i | 0 <= i < |cells| :: cells[i].live && cells[i].owner == owner
    ensures forall i {:trigger cells[i].next} | 0 <= i < |cells| :: cells[i].next == At(cells, i + 1)
    ensures forall i {:trigger cells[i].prev} | 0 < i < |cells| :: cells[i].prev == At(cells, i - 1)
    ensures forall i, j | 0 <= i < j < |cells| :: cells[i] != cells[j]
    ensures cells == [] ==> Chain(owner, null, cells)
    ensures cells != [] ==> Chain(owner, cells[|cells| - 1], [cells[|cells| - 1]])
  {
  }

  lemma DataGrows<T>(cells: seq<Cell<T>>, c: Cell<T>)
    ensures Data(cells + [c]) == Data(cells) + [c.data]
  {
  }

  class Queue<T> {
    var head: Cell?<T>
    var tail: Cell?<T>
    var length: nat

    ghost var cells: seq<Cell<T>>

    ghost predicate Valid()
      reads this, set c | c in cells
    {
      && IsList(this, head, cells)
      && tail == At(cells, |cells| - 1)
      && length == |cells|
    }

    // The queue as a plain sequence.
    ghost function Contents(): seq<T>
      reads this
    {
      Data(cells)
    }

    constructor ()
      ensures Valid() && cells == [] && Contents() == []
    {
      head, tail, length := null, null, 0;
      cells := [];
    }

    method IsEmpty() returns (r: bool)
      requires Valid()
      ensures r <==> Contents() == []
    {
      r := head == null;
    }

    method PushTail(data: T)
      requires Valid()
      modifies this, set c | c in cells
      ensures Valid()
      ensures |cells| == |old(cells)| + 1 && cells[..|old(cells)|] == old(cells) && fresh(cells[|old(cells)|])
      ensures Contents() == old(Contents()) + [data]
    {
      hide Chain;
      ghost var before, head0 := cells, head;
      SegmentIsChain(this, head, cells);
      ghost var segment := if tail == null then [] else [tail];
      var r, c := Append(tail, data, this, segment);
      AppendedAt(segment, c, r, this);
      tail := r;
      if tail.next != null {
        tail := tail.next;
      } else {
        head := tail;
      }
      DataGrows(cells, c);
      length := length + 1;
      cells := cells + [c];
      if before != [] {
        ChainGrows(this, head0, before, c);
      }
      assert IsList(this, head, before + [c]);
    }

    method PopHead() returns (r: Option<T>)
      requires Valid()
      modifies this, set c | c in cells
      ensures Valid()
      ensures old(Contents()) == [] ==> r == None && cells == old(cells)
      ensures old(Contents()) != [] ==>
                && r == Some(old(Contents())[0])
                && cells == old(cells)[1..]
                && Contents() == old(Contents())[1..]
                && !old(cells)[0].live
    {
      if head != null {
        var node := head;
        var data := node.data;
        head := node.next;
        if head != null {
          head.prev := null;
        } else {
          tail := null;
        }
        node.live := false;
        length := length - 1;
        cells := cells[1..];
        return Some(data);
      }
      return None;
    }
  }
}
