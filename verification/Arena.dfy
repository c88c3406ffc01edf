/** A block allocator whose free list lives in the free blocks: the first four bytes of a free block
    are the number of the next one. Handles own blocks, or heap memory where no block fits. */
module Arenas {
  import opened Bytes

  const BLOCK_SIZE: nat := 8 * 1024
  const BLOCK_COUNT: nat := 16
  const SIZE: nat := BLOCK_SIZE * BLOCK_COUNT
  const END: nat := 0xFFFF_FFFF

  // ---- links in memory ----

  function Word(b0: int, b1: int, b2: int, b3: int): int {
    b0 + 0x100 * b1 + 0x1_0000 * b2 + 0x100_0000 * b3
  }

  /** The little-endian number in the first four bytes of block `i`. */
  function Link(m: Wire, i: nat): nat
    requires |m| == SIZE && i < BLOCK_COUNT
  {
    var a := BLOCK_SIZE * i;
    Word(m[a], m[a + 1], m[a + 2], m[a + 3])
  }

  /** Four bytes put at the front of block `i`. */
  function SetBytes(m: Wire, i: nat, b0: byte, b1: byte, b2: byte, b3: byte): (r: Wire)
    requires |m| == SIZE && i < BLOCK_COUNT
    ensures |r| == SIZE
  {
    var a := BLOCK_SIZE * i;
    m[a := b0][a + 1 := b1][a + 2 := b2][a + 3 := b3]
  }

  function SetLink(m: Wire, i: nat, n: nat): (r: Wire)
    requires |m| == SIZE && i < BLOCK_COUNT && n <= END
    ensures |r| == SIZE
  {
    SetBytes(m, i, n % 0x100, n / 0x100 % 0x100, n / 0x1_0000 % 0x100, n / 0x100_0000)
  }

  /** Four bytes hold a 32-bit number. */
  lemma WordOf(n: nat)
    requires n <= END
    ensures n / 0x100_0000 < 0x100
    ensures Word(n % 0x100, n / 0x100 % 0x100, n / 0x1_0000 % 0x100, n / 0x100_0000) == n
  {
    var a := n / 0x100;
    var b := a / 0x100;
    assert n / 0x1_0000 == b && n / 0x100_0000 == b / 0x100;
    assert n == 0x100 * a + n % 0x100 && a == 0x100 * b + a % 0x100 && b == 0x100 * (b / 0x100) + b % 0x100;
  }

  lemma UpdatedAt(m: Wire, a: nat, b0: byte, b1: byte, b2: byte, b3: byte, k: nat)
    requires a + 4 <= |m| && k < |m|
    ensures
      var r := m[a := b0][a + 1 := b1][a + 2 := b2][a + 3 := b3];
      && (k < a || a + 4 <= k ==> r[k] == m[k])
      && r[a] == b0 && r[a + 1] == b1 && r[a + 2] == b2 && r[a + 3] == b3
  {
  }

  lemma Apart(i: nat, j: nat)
    requires i != j
    ensures BLOCK_SIZE * i + 4 <= BLOCK_SIZE * j || BLOCK_SIZE * j + 4 <= BLOCK_SIZE * i
  {
  }

  lemma BytesSet(m: Wire, i: nat, b0: byte, b1: byte, b2: byte, b3: byte, j: nat)
    requires |m| == SIZE && i < BLOCK_COUNT && j < BLOCK_COUNT
    ensures Link(SetBytes(m, i, b0, b1, b2, b3), j) == if j == i then Word(b0, b1, b2, b3) else Link(m, j)
  {
    var a, b := BLOCK_SIZE * i, BLOCK_SIZE * j;
    UpdatedAt(m, a, b0, b1, b2, b3, b);
    if i != j {
      Apart(i, j);
      UpdatedAt(m, a, b0, b1, b2, b3, b + 1);
      UpdatedAt(m, a, b0, b1, b2, b3, b + 2);
      UpdatedAt(m, a, b0, b1, b2, b3, b + 3);
    }
  }

  lemma LinkSet(m: Wire, i: nat, n: nat, j: nat)
    requires |m| == SIZE && i < BLOCK_COUNT && j < BLOCK_COUNT && n <= END
    ensures Link(SetLink(m, i, n), j) == if j == i then n else Link(m, j)
  {
    WordOf(n);
    BytesSet(m, i, n % 0x100, n / 0x100 % 0x100, n / 0x1_0000 % 0x100, n / 0x100_0000, j);
  }

  /** The bytes of block `j`. */
  function Block(m: Wire, j: nat): (r: Wire)
    requires |m| == SIZE && j < BLOCK_COUNT
    ensures |r| == BLOCK_SIZE
  {
    m[BLOCK_SIZE * j..BLOCK_SIZE * j + BLOCK_SIZE]
  }

  lemma BlockAfterSetLink(m: Wire, i: nat, n: nat, j: nat)
    requires |m| == SIZE && i < BLOCK_COUNT && j < BLOCK_COUNT && n <= END && i != j
    ensures Block(SetLink(m, i, n), j) == Block(m, j)
  {
  }

  lemma BlockAfterWrite(m: Wire, i: nat, k: nat, b: byte, j: nat)
    requires |m| == SIZE && i < BLOCK_COUNT && j < BLOCK_COUNT && k < BLOCK_SIZE
    ensures Block(m[BLOCK_SIZE * i + k := b], j) == if i == j then Block(m, j)[k := b] else Block(m, j)
    ensures i != j ==> Link(m[BLOCK_SIZE * i + k := b], j) == Link(m, j)
  {
  }

  // ---- the chain ----

  /** The free list that starts at `f`: these blocks, in this order, and then the sentinel. */
  predicate Chain(m: Wire, f: nat, free: seq<nat>)
    requires |m| == SIZE
    decreases |free|
  {
    if free == [] then f == END
    else f == free[0] && f < BLOCK_COUNT && Chain(m, Link(m, f), free[1..])
  }

  /** Memory and start determine the list. */
  lemma {:induction false} ChainUnique(m: Wire, f: nat, a: seq<nat>, b: seq<nat>)
    requires |m| == SIZE && Chain(m, f, a) && Chain(m, f, b)
    ensures a == b
    decreases |a|
  {
    if a != [] && b != [] {
      ChainUnique(m, Link(m, f), a[1..], b[1..]);
      assert a == [a[0]] + a[1..] && b == [b[0]] + b[1..];
    }
  }

  lemma {:induction false} ChainSuffix(m: Wire, f: nat, free: seq<nat>, i: nat)
    requires |m| == SIZE && Chain(m, f, free) && i < |free|
    ensures free[i] < BLOCK_COUNT && Chain(m, free[i], free[i..])
    decreases i
  {
    if i > 0 {
      ChainSuffix(m, Link(m, f), free[1..], i - 1);
      assert free[1..][i - 1..] == free[i..];
    } else {
      assert free[0..] == free;
    }
  }

  /** A list that comes to the sentinel does not come back to a block. */
  lemma ChainAcyclic(m: Wire, f: nat, free: seq<nat>, i: nat, j: nat)
    requires |m| == SIZE && Chain(m, f, free) && i < j < |free|
    ensures free[i] != free[j]
  {
    ChainSuffix(m, f, free, i);
    ChainSuffix(m, f, free, j);
    if free[i] == free[j] {
      ChainUnique(m, free[i], free[i..], free[j..]);
    }
  }

  predicate SameLink(m: Wire, n: Wire, i: nat)
    requires |m| == |n| == SIZE
  {
    i < BLOCK_COUNT ==> Link(m, i) == Link(n, i)
  }

  /** Only the links of the free blocks matter. */
  lemma {:induction false} ChainFrame(m: Wire, n: Wire, f: nat, free: seq<nat>)
    requires |m| == |n| == SIZE && Chain(m, f, free)
    requires forall k: nat | k < |free| :: SameLink(m, n, free[k])
    ensures Chain(n, f, free)
    decreases |free|
  {
    if free != [] {
      assert SameLink(m, n, free[0]);
      forall k: nat | k < |free[1..]| ensures SameLink(m, n, free[1..][k]) {
        assert SameLink(m, n, free[k + 1]);
      }
      ChainFrame(m, n, Link(m, f), free[1..]);
    }
  }

  /** The blocks of the list are those that are not owned. */
  ghost predicate Split(free: seq<nat>, owned: set<nat>) {
    && (forall i: nat | i < BLOCK_COUNT :: i in free <==> i !in owned)
    && (forall i | i in owned :: i < BLOCK_COUNT)
  }

  lemma SplitTake(m: Wire, f: nat, free: seq<nat>, owned: set<nat>)
    requires |m| == SIZE && Chain(m, f, free) && free != [] && Split(free, owned)
    ensures f == free[0] && f < BLOCK_COUNT && f !in owned
    ensures Chain(m, Link(m, f), free[1..]) && Split(free[1..], owned + {f})
  {
    FirstIsOnce(m, f, free);
    assert f in free;
    forall i: nat | i < BLOCK_COUNT ensures i in free[1..] <==> i !in owned + {f} {
      assert free == [f] + free[1..];
    }
  }

  lemma SplitGive(m: Wire, f: nat, free: seq<nat>, owned: set<nat>, i: nat)
    requires |m| == SIZE && Chain(m, f, free) && Split(free, owned) && i in owned && f <= END
    ensures i < BLOCK_COUNT
    ensures Chain(SetLink(m, i, f), i, [i] + free) && Split([i] + free, owned - {i})
  {
    var n := SetLink(m, i, f);
    LinkSet(m, i, f, i);
    forall k: nat | k < |free| ensures SameLink(m, n, free[k]) {
      assert free[k] in free;
      if free[k] < BLOCK_COUNT {
        LinkSet(m, i, f, free[k]);
      }
    }
    ChainFrame(m, n, f, free);
    assert ([i] + free)[1..] == free;
  }

  function From(i: nat): (r: seq<nat>)
    requires i <= BLOCK_COUNT
    ensures forall j: nat :: j in r <==> i <= j < BLOCK_COUNT
    decreases BLOCK_COUNT - i
  {
    if i == BLOCK_COUNT then [] else [i] + From(i + 1)
  }

  lemma {:induction false} FirstChain(m: Wire, i: nat)
    requires |m| == SIZE && i <= BLOCK_COUNT
    requires forall j: nat | j < BLOCK_COUNT - 1 :: Link(m, j) == j + 1
    requires Link(m, BLOCK_COUNT - 1) == END
    ensures Chain(m, if i == BLOCK_COUNT then END else i, From(i))
    decreases BLOCK_COUNT - i
  {
    if i < BLOCK_COUNT {
      FirstChain(m, i + 1);
    }
  }

  // ---- the arena and its handles ----

  datatype Source = FromArena | FromHeap | Nothing

  class ArenaHandle {
    var arena: Arena?
    var source: Source
    var index: nat
    var heap: array?<byte>
    var cap: nat

    constructor ()
      ensures source == Nothing && arena == null && heap == null && cap == 0
    {
      arena, source, index, heap, cap := null, Nothing, END, null, 0;
    }

    method Clear()
      modifies this
      ensures source == Nothing && arena == null && heap == null && cap == 0
    {
      arena, source, index, heap, cap := null, Nothing, END, null, 0;
    }

    method TakeFrom(src: ArenaHandle)
      requires src != this
      modifies this, src
      ensures arena == old(src.arena) && source == old(src.source) && index == old(src.index)
      ensures heap == old(src.heap) && cap == old(src.cap)
      ensures src.source == Nothing && src.cap == 0 && src.heap == null && src.arena == null
    {
      arena, source, index, heap, cap := src.arena, src.source, src.index, src.heap, src.cap;
      src.Clear();
    }
  }

  class Arena {
    const memory: array<byte>
    var freeIndex: nat
    /** The free blocks in list order, the handles there are, and who owns which block. */
    ghost var free: seq<nat>
    ghost var handles: set<ArenaHandle>
    ghost var owner: map<nat, ArenaHandle>

    ghost predicate HandleOk(h: ArenaHandle)
      reads this, h
    {
      match h.source
      case FromArena =>
        h.arena == this && h.index < BLOCK_COUNT && h.cap == BLOCK_SIZE && h.index in owner && owner[h.index] == h
      case FromHeap => h.heap != null && h.heap != memory && h.cap == h.heap.Length
      case Nothing => h.cap == 0
    }

    /** Heap memory has one owner. */
    ghost predicate HeapsApart(g: ArenaHandle, h: ArenaHandle)
      reads g, h
    {
      g == h || g.source != FromHeap || h.source != FromHeap || g.heap != h.heap
    }

    ghost predicate Valid()
      reads this, memory, handles
    {
      && memory.Length == SIZE && Chain(memory[..], freeIndex, free) && Split(free, owner.Keys)
      && freeIndex <= END
      && (forall h | h in handles :: HandleOk(h))
      && (forall i | i in owner :: owner[i] in handles && owner[i].source == FromArena && owner[i].index == i)
      && (forall g, h {:trigger HeapsApart(g, h)} | g in handles && h in handles :: HeapsApart(g, h))
    }

    constructor ()
      ensures Valid() && handles == {} && free == From(0) && fresh(memory)
    {
      memory := new byte[SIZE];
      freeIndex, handles, owner, free := 0, {}, map[], From(0);
      new;
      LinkAll();
      FirstChain(memory[..], 0);
    }

    /** Every block links to the next one, the last one to the sentinel. */
    method LinkAll()
      requires memory.Length == SIZE
      modifies memory
      ensures forall j: nat | j < BLOCK_COUNT - 1 :: Link(memory[..], j) == j + 1
      ensures Link(memory[..], BLOCK_COUNT - 1) == END
    {
      for i := 0 to BLOCK_COUNT
        invariant forall j: nat | j < i :: Link(memory[..], j) == j + 1
      {
        WriteNext(i, i + 1);
      }
      WriteNext(BLOCK_COUNT - 1, END);
    }

    method WriteNext(idx: nat, next: nat)
      requires memory.Length == SIZE && idx < BLOCK_COUNT && next <= END
      modifies memory
      ensures memory[..] == SetLink(old(memory[..]), idx, next)
      ensures forall j: nat | j < BLOCK_COUNT ::
        Link(memory[..], j) == if j == idx then next else old(Link(memory[..], j))
    {
      var a := BLOCK_SIZE * idx;
      memory[a], memory[a + 1] := next % 0x100, next / 0x100 % 0x100;
      memory[a + 2], memory[a + 3] := next / 0x1_0000 % 0x100, next / 0x100_0000;
      assert memory[..] == SetLink(old(memory[..]), idx, next);
      forall j: nat | j < BLOCK_COUNT
        ensures Link(memory[..], j) == if j == idx then next else old(Link(memory[..], j))
      {
        LinkSet(old(memory[..]), idx, next, j);
      }
    }

    function ReadNext(idx: nat): (next: nat)
      reads this, memory
      requires memory.Length == SIZE && idx < BLOCK_COUNT
      ensures next == Link(memory[..], idx)
    {
      var a := BLOCK_SIZE * idx;
      Word(memory[a], memory[a + 1], memory[a + 2], memory[a + 3])
    }

    /** What the owner of a handle has written. */
    ghost function Bytes(h: ArenaHandle): Wire
      reads this, memory, h, h.heap
      requires memory.Length == SIZE && HandleOk(h)
    {
      match h.source
      case FromArena => Block(memory[..], h.index)
      case FromHeap => h.heap[..]
      case Nothing => []
    }

    method AllocateHeap(size: nat) returns (h: ArenaHandle)
      requires Valid()
      modifies this`handles
      ensures Valid() && fresh(h) && handles == old(handles) + {h}
      ensures h.source == FromHeap && h.cap == size && fresh(h.heap)
    {
      h := new ArenaHandle();
      h.heap := new byte[size];
      h.cap, h.source := size, FromHeap;
      handles := handles + {h};
    }

    /** Takes the first block off the list. */
    method PopFree() returns (taken: nat)
      requires Valid() && free != []
      modifies this`freeIndex, this`free
      ensures taken == old(free[0]) && taken < BLOCK_COUNT && taken !in owner && free == old(free[1..])
      ensures Chain(memory[..], freeIndex, free) && freeIndex <= END && Split(free, owner.Keys + {taken})
    {
      taken := freeIndex;
      SplitTake(memory[..], taken, free, owner.Keys);
      freeIndex := ReadNext(taken);
      free := free[1..];
    }

    /** Hands out the first free block. */
    method AllocateArena() returns (h: ArenaHandle)
      requires Valid() && free != []
      modifies this
      ensures Valid() && fresh(h) && handles == old(handles) + {h}
      ensures h.source == FromArena && h.cap == BLOCK_SIZE
      ensures h.index == old(free[0]) && h.index !in old(owner)
      ensures free == old(free[1..]) && owner == old(owner)[h.index := h]
    {
      var taken := PopFree();
      h := new ArenaHandle();
      h.arena, h.cap, h.index, h.source := this, BLOCK_SIZE, taken, FromArena;
      OwnerAdded(taken, h);
      owner := owner[taken := h];
      handles := handles + {h};
      forall g, g' {:trigger HeapsApart(g, g')} | g in handles && g' in handles ensures HeapsApart(g, g') {
        if g != h && g' != h {
          assert old(HeapsApart(g, g'));
        }
      }
    }

    lemma OwnerAdded(i: nat, h: ArenaHandle)
      requires i !in owner && h.source == FromArena && h.index == i
      requires forall j | j in owner :: owner[j] in handles && owner[j].source == FromArena && owner[j].index == j
      ensures
        var more := owner[i := h];
        && more.Keys == owner.Keys + {i}
        && forall j | j in more :: more[j] in handles + {h} && more[j].source == FromArena && more[j].index == j
    {
    }

    /** A block where one is free and large enough, heap memory otherwise. Never less than asked for. */
    method Allocate(size: nat) returns (h: ArenaHandle)
      requires Valid()
      modifies this
      ensures Valid() && fresh(h) && handles == old(handles) + {h} && h.cap >= size
      ensures h.source == if size > BLOCK_SIZE || old(free) == [] then FromHeap else FromArena
      ensures h.source == FromHeap ==> free == old(free) && owner == old(owner) && h.cap == size && fresh(h.heap)
      ensures h.source == FromArena ==>
        h.index == old(free[0]) && h.index !in old(owner)
        && free == old(free[1..]) && owner == old(owner)[h.index := h]
    {
      if size > BLOCK_SIZE || freeIndex == END {
        h := AllocateHeap(size);
      } else {
        h := AllocateArena();
      }
    }

    /** The owner of a handle writes into it: nobody else's bytes change, and neither does the list. */
    method Write(h: ArenaHandle, k: nat, b: byte)
      requires Valid() && h in handles && k < h.cap
      modifies memory, if h.heap != null then {h.heap} else {}
      ensures Valid() && Bytes(h) == old(Bytes(h))[k := b]
      ensures forall g | g in handles && g != h :: Bytes(g) == old(Bytes(g))
    {
      assert HandleOk(h);
      if h.source == FromArena {
        WriteBlock(h, k, b);
      } else {
        forall g | g in handles && g != h ensures g.source == FromHeap ==> g.heap != h.heap {
          assert HeapsApart(g, h);
        }
        h.heap[k] := b;
      }
    }

    method WriteBlock(h: ArenaHandle, k: nat, b: byte)
      requires Valid() && h in handles && h.source == FromArena && k < BLOCK_SIZE
      modifies memory
      ensures Valid() && Bytes(h) == old(Bytes(h))[k := b]
      ensures forall g | g in handles && g != h :: Bytes(g) == old(Bytes(g))
    {
      assert HandleOk(h);
      ghost var m, i := memory[..], h.index;
      memory[BLOCK_SIZE * h.index + k] := b;
      ghost var n := m[BLOCK_SIZE * i + k := b];
      assert memory[..] == n;
      forall j: nat | j < |free| ensures SameLink(m, n, free[j]) {
        assert free[j] in free;
        if free[j] < BLOCK_COUNT { BlockAfterWrite(m, i, k, b, free[j]); }
      }
      ChainFrame(m, n, freeIndex, free);
      BlockAfterWrite(m, i, k, b, i);
      forall g | g in handles && g != h ensures Bytes(g) == old(Bytes(g)) {
        assert HandleOk(g);
        if g.source == FromArena { BlockAfterWrite(m, i, k, b, g.index); }
      }
    }

    /** Puts an owned block at the front of the list. Only that block is written to. */
    method Release(idx: nat)
      requires Valid() && idx in owner
      modifies this`freeIndex, this`free, this`owner, memory
      ensures freeIndex <= END && Chain(memory[..], freeIndex, free) && Split(free, owner.Keys)
      ensures free == [idx] + old(free) && owner == old(owner) - {idx} && freeIndex == idx
      ensures forall j: nat | j < BLOCK_COUNT && j != idx :: Block(memory[..], j) == old(Block(memory[..], j))
    {
      ghost var m, f := memory[..], freeIndex;
      SplitGive(m, f, free, owner.Keys, idx);
      WriteNext(idx, freeIndex);
      freeIndex := idx;
      free := [idx] + free;
      assert (owner - {idx}).Keys == owner.Keys - {idx};
      owner := owner - {idx};
      forall j: nat | j < BLOCK_COUNT && j != idx ensures Block(memory[..], j) == Block(m, j) {
        BlockAfterSetLink(m, idx, f, j);
      }
    }

    /** What a handle had is given back. */
    method Drop(h: ArenaHandle)
      requires Valid() && h in handles
      modifies this`freeIndex, this`free, this`owner, memory, h
      ensures Valid() && h.source == Nothing
      ensures free == (if old(h.source) == FromArena then [old(h.index)] else []) + old(free)
      ensures owner == if old(h.source) == FromArena then old(owner) - {old(h.index)} else old(owner)
      ensures forall g | g in handles && g != h :: Bytes(g) == old(Bytes(g))
    {
      assert HandleOk(h);
      ghost var before := owner;
      if h.source == FromArena {
        Release(h.index);
      }
      h.Clear();
      forall g | g in handles && g != h ensures HandleOk(g) && Bytes(g) == old(Bytes(g)) {
        assert old(HandleOk(g));
      }
    }

    /** The end of a handle. */
    method Destroy(h: ArenaHandle)
      requires Valid() && h in handles
      modifies this, memory, h
      ensures Valid() && handles == old(handles) - {h}
      ensures free == (if old(h.source) == FromArena then [old(h.index)] else []) + old(free)
      ensures owner == if old(h.source) == FromArena then old(owner) - {old(h.index)} else old(owner)
      ensures forall g | g in handles :: Bytes(g) == old(Bytes(g))
    {
      Drop(h);
      handles := handles - {h};
    }

    /** Hands over what `src` has to the empty handle `dst`. */
    method Transfer(dst: ArenaHandle, src: ArenaHandle)
      requires Valid() && dst in handles && src in handles && dst != src && dst.source == Nothing
      modifies this`owner, dst, src
      ensures Valid() && src.source == Nothing
      ensures dst.source == old(src.source) && dst.cap == old(src.cap) && Bytes(dst) == old(Bytes(src))
      ensures owner.Keys == old(owner.Keys)
      ensures forall g | g in handles && g != dst && g != src :: Bytes(g) == old(Bytes(g))
    {
      assert HandleOk(src) && HandleOk(dst);
      dst.TakeFrom(src);
      if dst.source == FromArena {
        owner := owner[dst.index := dst];
        assert owner.Keys == old(owner.Keys);
      }
      forall g | g in handles && g != dst && g != src ensures HandleOk(g) && Bytes(g) == old(Bytes(g)) {
        assert old(HandleOk(g));
        assert old(HeapsApart(g, src));
      }
      forall g, h | g in handles && h in handles ensures HeapsApart(g, h) {
        assert old(HeapsApart(g, h)) && old(HeapsApart(src, h)) && old(HeapsApart(g, src));
      }
    }

    method MoveConstruct(src: ArenaHandle) returns (h: ArenaHandle)
      requires Valid() && src in handles
      modifies this`handles, this`owner, src
      ensures Valid() && fresh(h) && handles == old(handles) + {h}
      ensures src.source == Nothing && h.source == old(src.source) && Bytes(h) == old(Bytes(src))
      ensures owner.Keys == old(owner.Keys)
      ensures forall g | g in old(handles) && g != src :: Bytes(g) == old(Bytes(g))
    {
      h := new ArenaHandle();
      handles := handles + {h};
      Transfer(h, src);
    }

    /** Move assignment. What `dst` had is given back; assigning a handle to itself changes nothing. */
    method MoveAssign(dst: ArenaHandle, src: ArenaHandle)
      requires Valid() && dst in handles && src in handles
      modifies this`freeIndex, this`free, this`owner, memory, dst, src
      ensures Valid() && Bytes(dst) == old(Bytes(src)) && dst.source == old(src.source)
      ensures dst != src ==> src.source == Nothing
      ensures dst != src && old(dst.source) == FromArena ==> free == [old(dst.index)] + old(free)
      ensures dst == src || old(dst.source) != FromArena ==> free == old(free)
      ensures forall g | g in handles && g != dst && g != src :: Bytes(g) == old(Bytes(g))
    {
      if dst != src {
        Drop(dst);
        Transfer(dst, src);
      }
    }
  }

  /** The first block of the list does not come again. */
  lemma FirstIsOnce(m: Wire, f: nat, free: seq<nat>)
    requires |m| == SIZE && Chain(m, f, free) && free != []
    ensures free[0] !in free[1..]
  {
    forall j: nat | j < |free| - 1 ensures free[1..][j] != free[0] {
      ChainAcyclic(m, f, free, 0, j + 1);
    }
  }
}
