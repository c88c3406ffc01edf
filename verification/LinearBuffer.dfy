/** A byte queue addressed by absolute offsets: pushed at the back, discarded at the front, and moved
    about in memory without any offset changing its byte. */
module LinearBuffers {
  import opened Bytes

  class LinearBuffer<T(0)> {
    static const START_CAPACITY: nat := 64 * 1024
    static const MIN_GROW: nat := 16 * 1024

    var data: array<T>
    var head: nat
    var tail: nat
    var baseAbs: nat

    /** Everything pushed since the last reset; the byte at absolute offset x is stream[x]. */
    ghost var stream: seq<T>

    ghost predicate Valid()
      reads this, data
    {
      && head <= tail <= data.Length && 0 < data.Length
      && baseAbs + tail == |stream|
      && data[head..tail] == stream[baseAbs + head..]
    }

    constructor ()
      ensures Valid() && fresh(data) && stream == [] && HeadAbs() == 0
    {
      data := new T[START_CAPACITY];
      head, tail, baseAbs := 0, 0, 0;
      stream := [];
    }

    /** The absolute offset of the first readable element: how many were discarded. */
    function HeadAbs(): nat
      reads this
    {
      baseAbs + head
    }

    function ReadableSize(): nat
      reads this, data
      requires Valid()
    {
      tail - head
    }

    /** The readable elements are what was pushed and not yet discarded. */
    method Readable() returns (view: seq<T>)
      requires Valid()
      ensures view == stream[HeadAbs()..]
    {
      view := data[head..tail];
    }

    function ReadableRelToAbs(rel: nat): nat
      reads this
    {
      baseAbs + (head + rel)
    }

    function AbsToReadableRel(abs: nat): (rel: nat)
      reads this
      requires HeadAbs() <= abs
      ensures ReadableRelToAbs(rel) == abs
    {
      abs - baseAbs - head
    }

    /** Elements put behind the live ones, where those are the stream from `abs` on. */
    lemma Joined(was: seq<T>, now: seq<T>, head: nat, tail: nat, items: seq<T>, stream: seq<T>, abs: nat)
      requires head <= tail && tail + |items| <= |was| && abs <= |stream|
      requires now == was[..tail] + items + was[tail + |items|..]
      requires was[head..tail] == stream[abs..]
      ensures now[head..tail + |items|] == (stream + items)[abs..]
    {
      assert now[head..tail + |items|] == was[head..tail] + items;
    }

    /** Appends to the stream; nothing that was there changes its offset. */
    method Push(items: seq<T>)
      requires Valid()
      modifies this, data
      ensures Valid() && stream == old(stream) + items && HeadAbs() == old(HeadAbs())
      ensures data == old(data) || fresh(data)
      ensures data == old(data) <==> old(tail - head) + |items| <= old(data.Length)
    {
      EnsureWritable(|items|);
      ghost var was := data[..];
      forall i | 0 <= i < |items| { data[tail + i] := items[i]; }
      assert data[..] == was[..tail] + items + was[tail + |items|..];
      Joined(was, data[..], head, tail, items, stream, HeadAbs());
      tail := tail + |items|;
      stream := stream + items;
    }

    /** Moves the discard point; the stream stays. Less than half of the array is left unused in front. */
    method DiscardPrefix(count: nat)
      requires Valid() && count <= ReadableSize()
      modifies this, data
      ensures Valid() && stream == old(stream) && HeadAbs() == old(HeadAbs()) + count
      ensures data == old(data) && (head == 0 || head < data.Length / 2)
    {
      ghost var live := data[head..tail];
      head := head + count;
      assert data[head..tail] == live[count..];
      if head == tail {
        baseAbs := baseAbs + head;
        head, tail := 0, 0;
        return;
      }
      if head >= data.Length / 2 {
        Compact();
      }
    }

    /** Moves the live elements to the front of the array. */
    method Compact()
      requires Valid()
      modifies this, data
      ensures Valid() && stream == old(stream) && HeadAbs() == old(HeadAbs())
      ensures data == old(data) && head == 0 && tail == old(tail - head)
    {
      var live := tail - head;
      if live == 0 {
        baseAbs := baseAbs + head;
        head, tail := 0, 0;
        return;
      }
      ghost var elements := data[head..tail];
      forall i | 0 <= i < live { data[i] := data[head + i]; }
      assert data[0..live] == elements;
      baseAbs := baseAbs + head;
      head, tail := 0, live;
    }

    /** Makes room for `n` more elements behind the live ones. A larger array is taken exactly if they do not fit
        the one there is. */
    method EnsureWritable(n: nat)
      requires Valid()
      modifies this, data
      ensures Valid() && stream == old(stream) && HeadAbs() == old(HeadAbs())
      ensures tail + n <= data.Length
      ensures old(tail - head) + n <= old(data.Length) ==> data == old(data)
      ensures old(tail - head) + n > old(data.Length) ==>
        fresh(data) && data.Length == old(data.Length) + Max(n, MIN_GROW)
    {
      if tail + n <= data.Length { return; }
      var live := tail - head;
      if head > 0 && live + n <= data.Length {
        Compact();
        return;
      }
      Grow(n);
    }

    method Grow(n: nat)
      requires Valid()
      modifies this
      ensures Valid() && stream == old(stream) && HeadAbs() == old(HeadAbs())
      ensures fresh(data) && tail + n <= data.Length == old(data.Length) + Max(n, MIN_GROW)
    {
      var live := tail - head;
      var required := live + n;
      var newCapacity := data.Length + Max(n, MIN_GROW);
      if newCapacity < required {
        newCapacity := required;
      }
      var newData := new T[newCapacity];
      forall i | 0 <= i < live { newData[i] := data[head + i]; }
      ghost var elements := data[head..tail];
      assert forall i | 0 <= i < live :: newData[0..live][i] == elements[i];
      assert newData[0..live] == elements;
      data := newData;
      baseAbs := baseAbs + head;
      head, tail := 0, live;
    }

    method Reset()
      requires Valid()
      modifies this
      ensures Valid() && stream == [] && HeadAbs() == 0 && data == old(data)
    {
      baseAbs, head, tail := 0, 0, 0;
      stream := [];
    }
  }
}
