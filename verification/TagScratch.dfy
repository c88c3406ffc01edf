/** A bit set over 64-bit words: which fields of a message have been accounted for. */
module TagScratches {
  import opened Bits

  const WORD_BITS: nat := 64

  type Word = w: nat | w < Pow2(WORD_BITS) witness 0

  predicate MarkedIn(data: seq<Word>, i: nat) {
    i / 64 < |data| && HasBit(data[i / 64], i % 64)
  }

  lemma Position(q: nat, c: nat)
    requires c < 64
    ensures (64 * q + c) / 64 == q && (64 * q + c) % 64 == c
  {
  }

  ghost predicate AllMarked(data: seq<Word>, lo: nat, hi: nat) {
    forall i: nat {:trigger MarkedIn(data, i)} | lo <= i < hi :: MarkedIn(data, i)
  }

  /** The first `r` bits of word `q`, as bits of the set. */
  lemma WordBits(data: seq<Word>, q: nat, r: nat)
    requires q < |data| && r <= 64
    ensures AllSet(data[q], r) <==> AllMarked(data, 64 * q, 64 * q + r)
  {
    if AllSet(data[q], r) {
      forall i: nat | 64 * q <= i < 64 * q + r ensures MarkedIn(data, i) {
        Position(q, i - 64 * q);
        assert HasBit(data[q], i - 64 * q);
      }
    }
    if AllMarked(data, 64 * q, 64 * q + r) {
      forall b: nat | b < r ensures HasBit(data[q], b) {
        Position(q, b);
        assert MarkedIn(data, 64 * q + b);
      }
    }
  }

  lemma AllBits(data: seq<Word>, q: nat)
    requires q < |data|
    ensures data[q] == Pow2(WORD_BITS) - 1 <==> AllMarked(data, 64 * q, 64 * q + 64)
  {
    FullWord(data[q], WORD_BITS);
    WordBits(data, q, 64);
  }

  lemma LowBits(data: seq<Word>, q: nat, r: nat)
    requires q < |data| && r < 64
    ensures And(data[q], Pow2(r) - 1) == Pow2(r) - 1 <==> AllMarked(data, 64 * q, 64 * q + r)
  {
    MaskTest(data[q], r);
    WordBits(data, q, r);
  }

  lemma MarkedFurther(data: seq<Word>, mid: nat, hi: nat)
    requires mid <= hi
    ensures AllMarked(data, 0, hi) <==> AllMarked(data, 0, mid) && AllMarked(data, mid, hi)
  {
  }

  class TagScratch {
    var data: seq<Word>

    constructor ()
      ensures data == []
    {
      data := [];
    }

    ghost predicate Marked(i: nat)
      reads this
    {
      MarkedIn(data, i)
    }

    method EnsureBits(size: nat)
      modifies this
      ensures |data| >= size / 64 + 1
      ensures forall i: nat :: Marked(i) <==> old(Marked(i))
    {
      if |data| < size / 64 + 1 {
        data := data + seq(size / 64 + 1 - |data|, _ => 0);
      }
      forall i: nat ensures Marked(i) <==> old(Marked(i)) {
        ZeroHasNone(i % 64);
      }
    }

    method Clear()
      modifies this
      ensures |data| == |old(data)| && forall i: nat :: !Marked(i)
    {
      data := seq(|data|, _ => 0);
      forall i: nat ensures !Marked(i) {
        ZeroHasNone(i % 64);
      }
    }

    method Set(index: nat)
      requires index / 64 < |data|
      modifies this
      ensures |data| == |old(data)|
      ensures forall i: nat :: Marked(i) <==> i == index || old(Marked(i))
    {
      ghost var w := data[index / 64];
      OrFits(w, index % 64, WORD_BITS);
      data := data[index / 64 := Or(data[index / 64], Pow2(index % 64))];
      forall i: nat ensures Marked(i) <==> i == index || old(Marked(i)) {
        if i / 64 == index / 64 {
          OrSets(w, index % 64, i % 64);
          SamePlace(i, index);
        }
      }
    }

    function Get(index: nat): (b: bool)
      reads this
      requires index / 64 < |data|
      ensures b <==> Marked(index)
    {
      HasBit(data[index / 64], index % 64)
    }

    /** Word by word, and a masked last word: true exactly when the first `size` bits are all set. */
    method Full(size: nat) returns (b: bool)
      requires |data| >= size / 64 + 1
      ensures b <==> forall i: nat | i < size :: Marked(i)
    {
      var q, r := size / 64, size % 64;
      b := true;
      var i := 0;
      while i < q && b
        invariant i <= q
        invariant b <==> AllMarked(data, 0, 64 * i)
      {
        AllBits(data, i);
        MarkedFurther(data, 64 * i, 64 * i + 64);
        b := data[i] == Pow2(WORD_BITS) - 1;
        i := i + 1;
      }
      MarkedFurther(data, 64 * i, size);
      if b && r != 0 {
        LowBits(data, q, r);
        b := And(data[q], Pow2(r) - 1) == Pow2(r) - 1;
      }
      assert b <==> AllMarked(data, 0, size);
      assert forall j: nat {:trigger Marked(j)} {:trigger MarkedIn(data, j)} :: Marked(j) <==> MarkedIn(data, j);
    }
  }

  lemma SamePlace(i: nat, j: nat)
    requires i / 64 == j / 64
    ensures i == j <==> i % 64 == j % 64
  {
  }
}
