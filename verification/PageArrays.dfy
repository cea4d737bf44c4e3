/** Tree pages as fixed arrays: shifting, copying and searching in place. */
module PageArrays {
  import opened Table
  import opened TreeShape
  import opened TreeInsert
  import opened TreePages
  import opened TreeSteps
  import opened BPlusTree

  /** Make room at `from`: everything up to `to` moves one place right, last first. */
  method ShiftRight<T>(a: array<T>, from: nat, to: nat)
    requires from <= to < a.Length
    modifies a
    ensures a[..from] == old(a[..from]) && a[from + 1..to + 1] == old(a[from..to])
  {
    var i := to;
    while i > from
      invariant from <= i <= to
      invariant forall k :: 0 <= k < i ==> a[k] == old(a[k])
      invariant forall k :: i < k <= to ==> a[k] == old(a[k - 1])
    {
      a[i] := a[i - 1];
      i := i - 1;
    }
  }

  class LeafArray {
    const array_: array<Entry>
    var size: nat

    ghost predicate Valid()
      reads this
    {
      size <= array_.Length
    }

    ghost function Contents(): seq<Entry>
      requires Valid()
      reads this, array_
    {
      array_[..size]
    }

    /** A page of `capacity` slots, none in use. */
    constructor (capacity: nat)
      ensures Valid() && Contents() == [] && array_.Length == capacity && fresh(array_)
    {
      array_ := new Entry[capacity](_ => Entry(0, Rid(0, 0)));
      size := 0;
    }

    method KeyIndexOf(k: Key) returns (r: nat)
      requires Valid() && Sorted(Contents())
      ensures r == KeyIndex(Contents(), k)
    {
      r := LowerBound(array_[..size], k);
    }

    method Lookup(k: Key) returns (r: Option<Rid>)
      requires Valid() && Sorted(Contents())
      ensures r.Some? ==> Entry(k, r.value) in Contents()
      ensures r.None? ==> forall e :: e in Contents() ==> e.key != k
    {
      var pos := KeyIndexOf(k);
      FindIs(Contents(), k);
      if pos < size && array_[pos].key == k {
        assert array_[pos] in Contents();
        return Some(array_[pos].value);
      }
      return None;
    }

    /** Shift everything from the insert position one to the right, then write the entry. */
    method Insert(e: Entry)
      requires Valid() && size < array_.Length && Sorted(Contents())
      modifies this, array_
      ensures Valid() && Contents() == InsertAt(old(Contents()), e)
    {
      hide KeyIndex, Sorted;
      var position := KeyIndexOf(e.key);
      ghost var was := Contents();
      ShiftRight(array_, position, size);
      assert array_[..position] == was[..position] && array_[position + 1..size + 1] == was[position..];
      array_[position] := e;
      size := size + 1;
      assert array_[..size] == was[..position] + [e] + was[position..];
    }

    /** The upper half, counted from (size + 1) / 2, moves to an empty page. */
    method MoveHalfTo(recipient: LeafArray)
      requires Valid() && recipient.Valid() && recipient.size == 0 && recipient.array_ != array_ && recipient != this
      requires size / 2 <= recipient.array_.Length
      modifies this, recipient, recipient.array_
      ensures Valid() && recipient.Valid() && array_[..] == old(array_[..])
      ensures var was := old(Contents()); var m := (|was| + 1) / 2;
        Contents() == was[..m] && recipient.Contents() == was[m..]
    {
      ghost var was := Contents();
      var start := (size + 1) / 2;
      var moved := size - start;
      var i := 0;
      while i < moved
        invariant i <= moved && recipient.array_[..i] == was[start..start + i]
        invariant array_[..] == old(array_[..]) && size == |was| && recipient.size == 0
      {
        recipient.array_[i] := array_[start + i];
        i := i + 1;
      }
      size := size - moved;
      recipient.size := moved;
      assert was[start..start + moved] == was[start..];
    }
  }

  class InnerArray {
    const array_: array<Slot>
    var size: nat

    ghost predicate Valid()
      reads this
    {
      size <= array_.Length
    }

    ghost function Contents(): seq<Slot>
      requires Valid()
      reads this, array_
    {
      array_[..size]
    }

    method IndexOf(child: int) returns (r: int)
      requires Valid()
      ensures r == ValueIndex(Contents(), child)
    {
      r := 0;
      while r < size
        invariant 0 <= r <= size && forall i :: 0 <= i < r ==> array_[i].child != child
      {
        if array_[r].child == child {
          return;
        }
        r := r + 1;
      }
      r := -1;
    }

    /** Insert a slot right after the one that holds `child`, shifting the rest to the right. */
    method InsertNodeAfter(child: int, s: Slot)
      requires Valid() && size < array_.Length
      modifies this, array_
      ensures Valid() && Contents() == InsertAfter(old(Contents()), ValueIndex(old(Contents()), child), s)
    {
      hide ValueIndex;
      var index := IndexOf(child);
      ghost var was := Contents();
      ShiftRight(array_, index + 1, size);
      assert array_[..index + 1] == was[..index + 1] && array_[index + 2..size + 1] == was[index + 1..];
      array_[index + 1] := s;
      size := size + 1;
      assert array_[..size] == was[..index + 1] + [s] + was[index + 1..];
    }
  }
}
