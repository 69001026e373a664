// The C++ binding's fixed-capacity circular queue, FixedQueue<T>.
// Same layout and wrap-around as the C FixedQueue8, but the constructor has
// no zero check: a queue of capacity 0 is legal and is always both empty and
// full. push/pop/peek carry only documented "not full"/"not empty"
// preconditions, which become `requires` here.
module FixedQueue {

  class FixedQueue<T(0)> {
    const kSizeMax: nat
    const elements: array<T>
    var head: nat
    var tail: nat
    var size: nat
    /** The stored elements, oldest first. */
    ghost var Contents: seq<T>

    ghost predicate Valid()
      reads this, elements
    {
      elements.Length == kSizeMax &&
      (head < kSizeMax || head == 0 == kSizeMax) && size <= kSizeMax &&
      tail == (if head + size < kSizeMax then head + size else head + size - kSizeMax) &&
      |Contents| == size &&
      forall i {:trigger Slot(i)} :: 0 <= i < size ==> Contents[i] == elements[Slot(i)]
    }

    /** The array index of the i-th oldest element: i slots after `head`, wrapping once. */
    function Slot(i: nat): nat
      reads this
    {
      if head + i < kSizeMax then head + i else head + i - kSizeMax
    }

    constructor (size_max: nat)
      ensures Valid() && fresh(elements)
      ensures kSizeMax == size_max && Contents == []
      ensures head == 0 && tail == 0 && size == 0
    {
      kSizeMax := size_max;
      elements := new T[size_max];
      head, tail, size := 0, 0, 0;
      Contents := [];
    }

    method Clear()
      requires Valid()
      modifies this
      ensures Valid() && Contents == []
      ensures head == 0 && tail == 0 && size == 0
    {
      head := 0;
      tail := 0;
      size := 0;
      Contents := [];
    }

    method Push(element: T)
      requires Valid() && size < kSizeMax
      modifies this, elements
      ensures Valid() && Contents == old(Contents) + [element]
      ensures head == old(head) && size == old(size) + 1
    {
      elements[tail] := element;
      tail := tail + 1;
      if tail == kSizeMax { tail := 0; }
      size := size + 1;
      Contents := Contents + [element];
      forall i | 0 <= i < size
        ensures Contents[i] == elements[Slot(i)]
      {
        if i < size - 1 {
          assert old(Slot(i)) == Slot(i) != old(tail);
        }
      }
    }

    method Pop()
      requires Valid() && size > 0
      modifies this
      ensures Valid() && Contents == old(Contents)[1..]
      ensures tail == old(tail) && size == old(size) - 1
    {
      head := head + 1;
      if head == kSizeMax { head := 0; }
      size := size - 1;
      Contents := Contents[1..];
      forall i | 0 <= i < size
        ensures Contents[i] == elements[Slot(i)]
      {
        assert old(Slot(i + 1)) == Slot(i);
      }
    }

    /** The element at the read cursor, i.e. the oldest one still stored. */
    function Peek(): (r: T)
      reads this, elements
      requires Valid() && size > 0
      ensures r == Contents[0]
    {
      assert Slot(0) == head;
      elements[head]
    }

    function Empty(): (r: bool)
      reads this, elements
      requires Valid()
      ensures r <==> Contents == []
    {
      if size != 0 then false else true
    }

    function Full(): (r: bool)
      reads this, elements
      requires Valid()
      ensures r <==> |Contents| == kSizeMax
    {
      if size < kSizeMax then false else true
    }

    function Size(): (r: nat)
      reads this, elements
      requires Valid()
      ensures r == |Contents| <= kSizeMax
    {
      size
    }

    function AvailableSize(): (r: nat)
      reads this, elements
      requires Valid()
      ensures r + |Contents| == kSizeMax
    {
      kSizeMax - size
    }

    function MaxSize(): (r: nat)
      reads this, elements
      requires Valid()
      ensures r == elements.Length
    {
      kSizeMax
    }
  }

  /** A capacity-0 queue is empty and full at once, so no push can be issued on it. */
  method ZeroCapacity() returns (empty: bool, full: bool)
    ensures empty && full
  {
    var q := new FixedQueue<bv8>(0);
    empty := q.Empty();
    full := q.Full();
  }
}
