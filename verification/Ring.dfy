/** A queue in a circular array, with three policies for pushing onto a full one. */
module Rings {

  datatype RingPolicy = Grow | Reject | Overwrite

  /** Where the element `k` places after index `head` sits. */
  lemma WrapAround(head: nat, k: nat, capacity: nat)
    requires head < capacity && k <= capacity
    ensures (head + k) % capacity == if head + k < capacity then head + k else head + k - capacity
  {
    if head + k < capacity {
      assert head + k == 0 * capacity + (head + k);
    } else {
      ModOnce(head + k - capacity, capacity);
    }
  }

  lemma ModOnce(r: nat, capacity: nat)
    requires r <= capacity && 0 < capacity
    ensures (r + capacity) % capacity == if r == capacity then 0 else r
  {
    if r == capacity {
      assert (2 * capacity) % capacity == 0;
    }
  }

  class Ring<T(0)> {
    const policy: RingPolicy
    const minGrowSize: nat
    var buffer: array<T>
    var head: nat
    var tail: nat
    var size: nat

    /** The queued elements, oldest first. */
    ghost var contents: seq<T>

    ghost predicate Valid()
      reads this, buffer
    {
      && 0 < buffer.Length && head < buffer.Length && tail < buffer.Length
      && size == |contents| <= buffer.Length
      && tail == Index(size)
      && (policy == Grow ==> 0 < minGrowSize)
      && forall k {:trigger Holds(k)} | 0 <= k < size :: Holds(k)
    }

    /** The k-th queued element is where it should be. */
    ghost predicate Holds(k: nat)
      reads this, buffer
      requires 0 < buffer.Length && head < buffer.Length && k < |contents| <= buffer.Length
    {
      buffer[Index(k)] == contents[k]
    }

    /** The array index of the k-th element. */
    ghost function Index(k: nat): (i: nat)
      reads this
      requires 0 < buffer.Length && head < buffer.Length && k <= buffer.Length
      ensures i < buffer.Length
    {
      if head + k < buffer.Length then head + k else head + k - buffer.Length
    }

    function Next(i: nat): (r: nat)
      reads this
      requires i < buffer.Length
      ensures r == if i + 1 == buffer.Length then 0 else i + 1
    {
      WrapAround(i, 1, buffer.Length);
      (i + 1) % buffer.Length
    }

    function Prev(i: nat): nat
      reads this
      requires i < buffer.Length
    {
      if i == 0 then buffer.Length - 1 else i - 1
    }

    constructor (capacity: nat, policy: RingPolicy, minGrowSize: nat)
      requires 0 < capacity && (policy == Grow <==> 0 < minGrowSize)
      ensures Valid() && fresh(buffer) && contents == [] && buffer.Length == capacity
      ensures this.policy == policy && this.minGrowSize == minGrowSize
    {
      this.policy, this.minGrowSize := policy, minGrowSize;
      buffer := new T[capacity];
      head, tail, size := 0, 0, 0;
      contents := [];
    }

    predicate Full()
      reads this, buffer
      requires Valid()
      ensures Full() <==> |contents| == buffer.Length
    {
      size == buffer.Length
    }

    /** Moves the elements, in order, to the front of a larger array. */
    method Enlarge()
      requires Valid() && policy == Grow && size == buffer.Length
      modifies this`buffer, this`head, this`tail
      ensures Valid() && fresh(buffer) && buffer.Length == old(buffer.Length) + minGrowSize
    {
      var newBuffer := new T[buffer.Length + minGrowSize];
      for k := 0 to size
        invariant Valid() && size == buffer.Length && buffer == old(buffer)
        invariant forall j | 0 <= j < k :: newBuffer[j] == contents[j]
      {
        WrapAround(head, k, buffer.Length);
        assert (head + k) % buffer.Length == Index(k) && Holds(k);
        newBuffer[k] := buffer[(head + k) % buffer.Length];
      }
      head := 0;
      tail := size;
      buffer := newBuffer;
    }

    /** Appends, except that a full ring rejects the element, drops its oldest one, or grows. */
    method Push(item: T) returns (pushed: bool)
      requires Valid()
      modifies this, buffer
      ensures Valid() && (buffer == old(buffer) || fresh(buffer))
      ensures policy != Grow ==> buffer == old(buffer)
      ensures pushed <==> !(old(|contents|) == old(buffer.Length) && policy == Reject)
      ensures contents ==
        if old(|contents|) < old(buffer.Length) || policy == Grow then old(contents) + [item]
        else if policy == Overwrite then old(contents)[1..] + [item]
        else old(contents)
      ensures buffer.Length ==
        old(buffer.Length) + if old(|contents|) == old(buffer.Length) && policy == Grow then minGrowSize else 0
    {
      if size == buffer.Length {
        if policy == Grow {
          Enlarge();
        } else if policy == Overwrite {
          PopFront();
        } else {
          return false;
        }
      }
      Store(item);
      pushed := true;
    }

    method Store(item: T)
      requires Valid() && size < buffer.Length
      modifies this`tail, this`size, this`contents, buffer
      ensures Valid() && contents == old(contents) + [item]
    {
      buffer[tail] := item;
      tail := Next(tail);
      size := size + 1;
      contents := contents + [item];
      forall k | 0 <= k < size - 1 ensures Holds(k) {
        assert old(Holds(k));
      }
    }

    method Front() returns (item: T)
      requires Valid() && contents != []
      ensures item == contents[0]
    {
      item := buffer[head];
      assert Index(0) == head && Holds(0);
    }

    method Back() returns (item: T)
      requires Valid() && contents != []
      ensures item == contents[|contents| - 1]
    {
      item := buffer[Prev(tail)];
      assert Index(size - 1) == Prev(tail) && Holds(size - 1);
    }

    method PopFront()
      requires Valid() && contents != []
      modifies this`head, this`size, this`contents
      ensures Valid() && contents == old(contents)[1..]
    {
      head := Next(head);
      size := size - 1;
      contents := contents[1..];
      forall k | 0 <= k < size ensures Holds(k) {
        assert old(Holds(k + 1)) && Index(k) == old(Index(k + 1));
      }
    }

    method PopBack()
      requires Valid() && contents != []
      modifies this`tail, this`size, this`contents
      ensures Valid() && contents == old(contents)[..old(|contents|) - 1]
    {
      tail := Prev(tail);
      size := size - 1;
      contents := contents[..size];
      forall k | 0 <= k < size ensures Holds(k) {
        assert old(Holds(k));
      }
    }

    method Clear()
      requires Valid()
      modifies this`head, this`tail, this`size, this`contents
      ensures Valid() && contents == []
    {
      head, tail, size := 0, 0, 0;
      contents := [];
    }
  }
}
