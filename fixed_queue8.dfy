// The C binding's fixed-capacity circular byte queue (FixedQueue8).
// The storage is an array of `sizeMax` bytes; `head` is the read cursor,
// `tail` the write cursor and `size` the number of stored bytes. Both cursors
// wrap by "increment, reset to 0 at capacity", never by a division.
module FixedQueue8 {

  class FixedQueue8 {
    const sizeMax: nat
    const elements: array<bv8>
    var head: nat
    var tail: nat
    var size: nat
    /** The stored bytes, oldest first. */
    ghost var Contents: seq<bv8>

    ghost predicate Valid()
      reads this, elements
    {
      elements.Length == sizeMax && 0 < sizeMax &&
      head < sizeMax && size <= sizeMax &&
      tail == (if head + size < sizeMax then head + size else head + size - sizeMax) &&
      |Contents| == size &&
      forall i {:trigger Slot(i)} :: 0 <= i < size ==> Contents[i] == elements[Slot(i)]
    }

    /** The array index of the i-th oldest element: i slots after `head`, wrapping once. */
    function Slot(i: nat): nat
      reads this
    {
      if head + i < sizeMax then head + i else head + i - sizeMax
    }

    /** The ctor after a successful allocation: an empty queue of `size_max` slots. */
    constructor (size_max: nat)
      requires size_max > 0
      ensures Valid() && fresh(elements)
      ensures sizeMax == size_max && Contents == []
      ensures head == 0 && tail == 0 && size == 0
    {
      sizeMax := size_max;
      elements := new bv8[size_max];
      head, tail, size := 0, 0, 0;
      Contents := [];
    }

    /** Logically empties the queue; the storage is not touched. */
    method Clear()
      requires Valid()
      modifies this
      ensures Valid() && Contents == []
      ensures head == 0 && tail == 0 && size == 0
    {
      head := 0;
      tail := 0;
      size := 0;
      Contents := [];
    }

    method Push(element: bv8)
      requires Valid() && size < sizeMax
      modifies this, elements
      ensures Valid() && Contents == old(Contents) + [element]
      ensures head == old(head) && size == old(size) + 1
    {
      elements[tail] := element;
      tail := tail + 1;
      if tail == sizeMax { tail := 0; }
      size := size + 1;
      Contents := Contents + [element];
      forall i | 0 <= i < size
        ensures Contents[i] == elements[Slot(i)]
      {
        if i < size - 1 {
          assert old(Slot(i)) == Slot(i) != old(tail);
        }
      }
    }

    method Pop()
      requires Valid() && size > 0
      modifies this
      ensures Valid() && Contents == old(Contents)[1..]
      ensures tail == old(tail) && size == old(size) - 1
    {
      head := head + 1;
      if head == sizeMax { head := 0; }
      size := size - 1;
      Contents := Contents[1..];
      forall i | 0 <= i < size
        ensures Contents[i] == elements[Slot(i)]
      {
        assert old(Slot(i + 1)) == Slot(i);
      }
    }

    /** The oldest stored byte (declared as `peek` in the header). */
    function Front(): (r: bv8)
      reads this, elements
      requires Valid() && size > 0
      ensures r == Contents[0]
    {
      assert Slot(0) == head;
      elements[head]
    }

    function Empty(): (r: bool)
      reads this, elements
      requires Valid()
      ensures r <==> Contents == []
    {
      if size != 0 then false else true
    }

    function Full(): (r: bool)
      reads this, elements
      requires Valid()
      ensures r <==> |Contents| == sizeMax
    {
      if size < sizeMax then false else true
    }

    function Size(): (r: nat)
      reads this, elements
      requires Valid()
      ensures r == |Contents| <= sizeMax
    {
      size
    }

    function AvailableSize(): (r: nat)
      reads this, elements
      requires Valid()
      ensures r + |Contents| == sizeMax
    {
      sizeMax - size
    }

    function MaxSize(): (r: nat)
      reads this, elements
      requires Valid()
      ensures r == elements.Length > 0
    {
      sizeMax
    }
  }

  /**
   * FixedQueue8_create with its ctor: capacity 0 is refused with a non-zero
   * code before anything is allocated; otherwise an empty queue comes back.
   */
  method Create(size_max: nat) returns (q: FixedQueue8?, rc: int)
    ensures rc != 0 <==> size_max == 0
    ensures rc != 0 ==> q == null
    ensures rc == 0 ==> q != null && fresh(q) && fresh(q.elements) && q.Valid()
    ensures rc == 0 ==> q.Contents == [] && q.MaxSize() == size_max
  {
    if size_max == 0 {
      return null, 1;
    }
    q := new FixedQueue8(size_max);
    rc := 0;
  }

  /** The ring layout: the i-th oldest byte sits i slots after `head`, modulo the capacity. */
  lemma ContentsAt(q: FixedQueue8, i: nat)
    requires q.Valid() && i < q.size
    ensures q.Contents[i] == q.elements[(q.head + i) % q.sizeMax]
  {
    ModOnce(q.head + i, q.sizeMax);
    assert q.Slot(i) == (q.head + i) % q.sizeMax;
  }

  /** The cursor invariant as the source states it: tail == (head + size) mod sizeMax. */
  lemma TailFollowsHead(q: FixedQueue8)
    requires q.Valid()
    ensures q.tail == (q.head + q.size) % q.sizeMax
  {
    ModOnce(q.head + q.size, q.sizeMax);
  }

  lemma ModOnce(x: nat, n: nat)
    requires 0 < n && x < 2 * n
    ensures x % n == if x < n then x else x - n
  {
  }

  /**
   * A queue of capacity 4: push 'A','B','C','D' makes it full; one pop
   * makes 'B' the front; pushing 'E' then fills it again.
   */
  method Scenario() returns (fullAfterFour: bool, frontAfterPop: bv8, sizeAtEnd: nat)
    ensures fullAfterFour && frontAfterPop == 'B' as bv8 && sizeAtEnd == 4
  {
    var q := new FixedQueue8(4);
    q.Push('A' as bv8);
    q.Push('B' as bv8);
    q.Push('C' as bv8);
    q.Push('D' as bv8);
    fullAfterFour := q.Full();
    q.Pop();
    frontAfterPop := q.Front();
    q.Push('E' as bv8);
    sizeAtEnd := q.Size();
  }
}
