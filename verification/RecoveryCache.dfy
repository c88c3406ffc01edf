/** The recovery cache: received wires filed by sequence number, kept back to back in one growing
    byte buffer with a table of 512 slots over it. */
module RecoveryCaches {
  import opened Bytes
  import opened SessionSpec

  datatype MessageBounds = MessageBounds(offset: nat, size: nat)

  const K_EMPTY := MessageBounds(0, 0)
  const INITIAL_CAPACITY: nat := 1024 * 64
  const MIN_CAPACITY_GROWTH: nat := 1024 * 32

  /** The slice `b` of the buffer holds `w`. */
  predicate Holds(buf: Wire, b: MessageBounds, w: Wire) {
    b.size > 0 && b.offset + b.size <= |buf| && buf[b.offset..b.offset + b.size] == w
  }

  /** Two slices share no byte. */
  predicate Apart(a: MessageBounds, b: MessageBounds) {
    a.offset + a.size <= b.offset || b.offset + b.size <= a.offset
  }

  /** The slot of number `k` holds what is cached under `k`. */
  ghost predicate Entry(c: map<nat, Wire>, base: nat, slots: seq<MessageBounds>, buf: Wire, k: nat)
    requires |slots| == WINDOW && k in c
  {
    InWindow(base, k) && Holds(buf, slots[k - base], c[k])
  }

  /** Slot `i` is taken exactly when its number is cached. */
  ghost predicate Taken(c: map<nat, Wire>, base: nat, slots: seq<MessageBounds>, i: nat)
    requires |slots| == WINDOW && i < WINDOW
  {
    slots[i] != K_EMPTY <==> base + i in c
  }

  ghost predicate Disjoint(slots: seq<MessageBounds>, i: nat, j: nat)
    requires i < |slots| && j < |slots|
  {
    slots[i] != K_EMPTY && slots[j] != K_EMPTY ==> Apart(slots[i], slots[j])
  }

  /** A slot table over the used part of a buffer stands for the map `c`: a slot is taken exactly when
      its number is cached, its slice holds the bytes, and live slices are disjoint. */
  ghost predicate Files(c: map<nat, Wire>, base: nat, slots: seq<MessageBounds>, buf: Wire) {
    && |slots| == WINDOW
    && (forall k {:trigger Entry(c, base, slots, buf, k)} | k in c :: Entry(c, base, slots, buf, k))
    && (forall i {:trigger Taken(c, base, slots, i)} | 0 <= i < WINDOW :: Taken(c, base, slots, i))
    && (forall i, j {:trigger Disjoint(slots, i, j)} | 0 <= i < j < WINDOW :: Disjoint(slots, i, j))
  }

  lemma FilesNothing(base: nat, slots: seq<MessageBounds>)
    requires |slots| == WINDOW && forall i | 0 <= i < WINDOW :: slots[i] == K_EMPTY
    ensures Files(map[], base, slots, [])
  {
  }

  lemma FilesBounds(c: map<nat, Wire>, base: nat, slots: seq<MessageBounds>, buf: Wire, i: nat)
    requires Files(c, base, slots, buf) && i < WINDOW && slots[i] != K_EMPTY
    ensures base + i in c && Holds(buf, slots[i], c[base + i])
  {
    assert Taken(c, base, slots, i);
    assert Entry(c, base, slots, buf, base + i);
  }

  lemma HoldsAppended(buf: Wire, more: Wire, b: MessageBounds, w: Wire)
    requires Holds(buf, b, w)
    ensures Holds(buf + more, b, w)
  {
    assert (buf + more)[b.offset..b.offset + b.size] == buf[b.offset..b.offset + b.size];
  }

  /** Appending to the buffer and pointing a free slot at the new slice adds one entry and disturbs
      none. */
  lemma FilesInsert(c: map<nat, Wire>, base: nat, slots: seq<MessageBounds>, buf: Wire, num: nat, w: Wire)
    requires Files(c, base, slots, buf) && InWindow(base, num) && num !in c && w != []
    ensures Files(c[num := w], base, slots[num - base := MessageBounds(|buf|, |w|)], buf + w)
  {
    var b := MessageBounds(|buf|, |w|);
    var c', slots' := c[num := w], slots[num - base := b];
    forall k | k in c' ensures Entry(c', base, slots', buf + w, k) {
      if k != num {
        assert Entry(c, base, slots, buf, k);
        HoldsAppended(buf, w, slots[k - base], c[k]);
      }
    }
    forall i | 0 <= i < WINDOW ensures Taken(c', base, slots', i) {
      assert Taken(c, base, slots, i);
    }
    forall i, j | 0 <= i < j < WINDOW ensures Disjoint(slots', i, j) {
      assert Disjoint(slots, i, j);
      if slots[i] != K_EMPTY { FilesBounds(c, base, slots, buf, i); }
      if slots[j] != K_EMPTY { FilesBounds(c, base, slots, buf, j); }
    }
  }

  /** Emptying a slot removes one entry; with none left the buffer may be used from its start. */
  lemma FilesConsume(c: map<nat, Wire>, base: nat, slots: seq<MessageBounds>, buf: Wire, num: nat)
    requires Files(c, base, slots, buf) && num in c
    ensures InWindow(base, num)
    ensures Files(c - {num}, base, slots[num - base := K_EMPTY], buf)
    ensures c - {num} == map[] ==> Files(c - {num}, base, slots[num - base := K_EMPTY], [])
  {
    assert Entry(c, base, slots, buf, num);
    var c', slots' := c - {num}, slots[num - base := K_EMPTY];
    forall k | k in c' ensures Entry(c', base, slots', buf, k) {
      assert Entry(c, base, slots, buf, k);
    }
    forall i | 0 <= i < WINDOW ensures Taken(c', base, slots', i) {
      assert Taken(c, base, slots, i);
    }
    forall i, j | 0 <= i < j < WINDOW ensures Disjoint(slots', i, j) {
      assert Disjoint(slots, i, j);
    }
  }

  /** At most one entry for each number of the window. */
  lemma FilesFit(c: map<nat, Wire>, base: nat, slots: seq<MessageBounds>, buf: Wire)
    requires Files(c, base, slots, buf)
    ensures |c| <= WINDOW
  {
    forall k | k in c ensures InWindow(base, k) {
      assert Entry(c, base, slots, buf, k);
    }
    RangeFits(c.Keys, base, WINDOW);
  }

  lemma {:induction false} RangeFits(numbers: set<nat>, base: nat, n: nat)
    requires forall k | k in numbers :: base <= k < base + n
    ensures |numbers| <= n
  {
    if n == 0 {
      assert numbers == {};
    } else {
      RangeFits(numbers - {base + n - 1}, base, n - 1);
    }
  }

  class RecoveryCache {
    const slots: array<MessageBounds>
    var base: nat
    var data: array<byte>
    var buffSize: nat
    var size: nat

    /** What is cached, by sequence number. */
    ghost var contents: map<nat, Wire>

    ghost predicate Valid()
      reads this, slots, data
    {
      && buffSize <= data.Length
      && size == |contents|
      && Files(contents, base, slots[..], data[..buffSize])
    }

    constructor ()
      ensures Valid() && fresh(slots) && fresh(data)
      ensures contents == map[] && base == 0
    {
      slots := new MessageBounds[WINDOW](_ => K_EMPTY);
      data := new byte[INITIAL_CAPACITY];
      base, buffSize, size := 0, 0, 0;
      contents := map[];
    }

    predicate Empty()
      reads this, slots, data
      requires Valid()
      ensures Empty() <==> contents == map[]
    {
      size == 0
    }

    /** The slot test is membership. */
    predicate Contains(num: nat)
      reads this, slots, data
      requires Valid()
      ensures Contains(num) <==> num in contents
    {
      assert num in contents ==> Entry(contents, base, slots[..], data[..buffSize], num);
      assert InWindow(base, num) ==> Taken(contents, base, slots[..], num - base);
      InWindow(base, num) && slots[num - base] != K_EMPTY
    }

    method Reset()
      requires Valid()
      modifies this, slots
      ensures Valid() && contents == map[] && base == 0 && data == old(data)
      ensures buffSize == 0 && forall i | 0 <= i < WINDOW :: slots[i] == K_EMPTY
    {
      buffSize, base, size := 0, 0, 0;
      forall i | 0 <= i < slots.Length { slots[i] := K_EMPTY; }
      contents := map[];
      FilesNothing(0, slots[..]);
    }

    method Start(num: nat)
      requires Valid()
      modifies this, slots
      ensures Valid() && contents == map[] && base == num && data == old(data)
    {
      Reset();
      base := num;
      FilesNothing(num, slots[..]);
    }

    method GrowBuffer(extraCapacity: nat)
      requires buffSize <= data.Length
      modifies this`data
      ensures fresh(data) && data.Length == old(data.Length) + extraCapacity
      ensures data[..buffSize] == old(data[..buffSize])
    {
      var newData := new byte[data.Length + extraCapacity];
      forall i | 0 <= i < buffSize { newData[i] := data[i]; }
      assert newData[..buffSize] == data[..buffSize];
      data := newData;
    }

    /** Appends `w` to the used part of the buffer, growing it if need be. */
    method InsertMessage(w: Wire) returns (b: MessageBounds)
      requires buffSize <= data.Length
      modifies this`data, this`buffSize, data
      ensures b == MessageBounds(old(buffSize), |w|)
      ensures buffSize == old(buffSize) + |w| <= data.Length
      ensures data[..buffSize] == old(data[..buffSize]) + w
      ensures data == old(data) || fresh(data)
    {
      if buffSize + |w| > data.Length {
        var extraNeeded := buffSize + |w| - data.Length;
        GrowBuffer(Max(extraNeeded, MIN_CAPACITY_GROWTH));
      }
      var offset := buffSize;
      forall i | 0 <= i < |w| { data[offset + i] := w[i]; }
      buffSize := buffSize + |w|;
      assert data[..offset] == old(data[..buffSize]);
      assert data[..buffSize] == data[..offset] + w;
      b := MessageBounds(offset, |w|);
    }

    /** Files `w` under `num`, which is in the window and not cached yet. Every other entry stays,
        also when the buffer is moved to a larger one. */
    method Insert(num: nat, w: Wire)
      requires Valid() && InWindow(base, num) && num !in contents && w != []
      modifies this, slots, data
      ensures Valid() && contents == old(contents)[num := w] && base == old(base)
      ensures data == old(data) || fresh(data)
      ensures buffSize == old(buffSize) + |w|
    {
      FilesInsert(contents, base, slots[..], data[..buffSize], num, w);
      ghost var table := slots[..];
      var b := InsertMessage(w);
      slots[num - base] := b;
      size := size + 1;
      contents := contents[num := w];
      assert slots[..] == table[num - base := b];
    }

    method Get(num: nat) returns (w: Wire)
      requires Valid() && num in contents
      ensures w == contents[num]
    {
      assert Entry(contents, base, slots[..], data[..buffSize], num);
      var b := slots[num - base];
      w := data[b.offset..b.offset + b.size];
      assert w == data[..buffSize][b.offset..b.offset + b.size];
    }

    /** Forgets `num`. When nothing is left the buffer is used again from its start. */
    method Consume(num: nat)
      requires Valid() && num in contents
      modifies this, slots
      ensures Valid() && contents == old(contents) - {num} && base == old(base) && data == old(data)
      ensures buffSize == if contents == map[] then 0 else old(buffSize)
    {
      FilesConsume(contents, base, slots[..], data[..buffSize], num);
      ghost var table := slots[..];
      slots[num - base] := K_EMPTY;
      assert slots[..] == table[num - base := K_EMPTY];
      size := size - 1;
      contents := contents - {num};
      if size == 0 {
        buffSize := 0;
      }
    }
  }
}
