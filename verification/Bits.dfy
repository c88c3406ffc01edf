/** Machine words as numbers: single bits, `&`, `|`, and masks. */
module Bits {

  function Pow2(k: nat): (r: nat)
    ensures r >= 1
  {
    if k == 0 then 1 else 2 * Pow2(k - 1)
  }

  /** `a & b`. */
  function And(a: nat, b: nat): nat {
    if a == 0 then 0 else (a % 2) * (b % 2) + 2 * And(a / 2, b / 2)
  }

  /** With a power of two, masking is taking the remainder. */
  lemma {:induction false} MaskIsRemainder(t: nat, k: nat)
    ensures And(t, Pow2(k) - 1) == t % Pow2(k)
    decreases t
  {
    if t == 0 {
      RemainderIs(0, Pow2(k), 0, 0);
    } else if k == 0 {
      AndZero(t);
    } else {
      var h := Pow2(k - 1);
      calc {
        And(t, 2 * h - 1);
      == { AndOdd(t, h); }
        t % 2 + 2 * And(t / 2, h - 1);
      == { MaskIsRemainder(t / 2, k - 1); }
        t % 2 + 2 * ((t / 2) % h);
      == { HalfRemainder(t, h); }
        t % (2 * h);
      }
    }
  }

  lemma AndOdd(t: nat, h: nat)
    requires t > 0 && h >= 1
    ensures And(t, 2 * h - 1) == t % 2 + 2 * And(t / 2, h - 1)
  {
    var b := 2 * h - 1;
    assert b % 2 == 1 && b / 2 == h - 1;
    assert (t % 2) * (b % 2) == t % 2;
  }

  lemma {:induction false} AndZero(a: nat)
    ensures And(a, 0) == 0
  {
    if a > 0 { AndZero(a / 2); }
  }

  lemma HalfRemainder(t: nat, h: nat)
    requires h >= 1
    ensures t % (2 * h) == t % 2 + 2 * ((t / 2) % h)
  {
    var q, r := (t / 2) / h, (t / 2) % h;
    assert t / 2 == h * q + r;
    assert (2 * h) * q == 2 * (h * q);
    RemainderIs(t, 2 * h, q, t % 2 + 2 * r);
  }

  lemma Times(c: int, d: int)
    requires c >= 1
    ensures d >= 1 ==> c * d >= c
    ensures d <= -1 ==> c * d <= -c
  {
  }

  lemma TimesDifference(c: int, a: int, b: int)
    ensures c * (a - b) == c * a - c * b
  {
  }

  lemma RemainderIs(t: int, c: int, q: int, r: int)
    requires 0 <= r < c && t == c * q + r
    ensures t % c == r
  {
    TimesDifference(c, t / c, q);
    Times(c, t / c - q);
  }

  /** `a | b`. */
  function Or(a: nat, b: nat): nat {
    if a == 0 then b
    else (if a % 2 == 1 || b % 2 == 1 then 1 else 0) + 2 * Or(a / 2, b / 2)
  }

  predicate HasBit(w: nat, b: nat) {
    if b == 0 then w % 2 == 1 else HasBit(w / 2, b - 1)
  }

  /** The low `r` bits are all set. */
  ghost predicate AllSet(w: nat, r: nat) {
    forall b: nat {:trigger HasBit(w, b)} | b < r :: HasBit(w, b)
  }

  lemma {:induction false} ZeroHasNone(b: nat)
    ensures !HasBit(0, b)
  {
    if b > 0 { ZeroHasNone(b - 1); }
  }

  lemma {:induction false} PowerHasOne(a: nat, b: nat)
    ensures HasBit(Pow2(a), b) <==> a == b
  {
    if a > 0 && b > 0 {
      PowerHasOne(a - 1, b - 1);
    } else if b > 0 {
      ZeroHasNone(b - 1);
    }
  }

  /** Or-ing in one bit sets that bit and leaves the others. */
  lemma {:induction false} OrSets(w: nat, a: nat, b: nat)
    ensures HasBit(Or(w, Pow2(a)), b) <==> a == b || HasBit(w, b)
    decreases b
  {
    if w == 0 {
      PowerHasOne(a, b);
      ZeroHasNone(b);
    } else {
      OrHalves(w, a);
      if b > 0 {
        if a > 0 { OrSets(w / 2, a - 1, b - 1); } else { OrZero(w / 2); }
      }
    }
  }

  lemma OrStep(w: nat, p: nat, r: nat, half: nat)
    requires w > 0 && r == Or(w, p) && half == Or(w / 2, p / 2)
    ensures (r % 2 == 1 <==> w % 2 == 1 || p % 2 == 1) && r / 2 == half
  {
    assert r == (if w % 2 == 1 || p % 2 == 1 then 1 else 0) + 2 * half;
  }

  lemma PowerHalves(a: nat)
    ensures Pow2(a) / 2 == if a == 0 then 0 else Pow2(a - 1)
    ensures Pow2(a) % 2 == 1 <==> a == 0
  {
    if a > 0 {
      assert Pow2(a) == 2 * Pow2(a - 1);
    }
  }

  lemma OrHalves(w: nat, a: nat)
    requires w > 0
    ensures Or(w, Pow2(a)) % 2 == 1 <==> w % 2 == 1 || a == 0
    ensures Or(w, Pow2(a)) / 2 == Or(w / 2, if a == 0 then 0 else Pow2(a - 1))
  {
    PowerHalves(a);
    OrStep(w, Pow2(a), Or(w, Pow2(a)), Or(w / 2, Pow2(a) / 2));
  }

  lemma {:induction false} OrZero(w: nat)
    ensures Or(w, 0) == w
  {
    if w > 0 { OrZero(w / 2); }
  }

  /** The result is a word again. */
  lemma {:induction false} OrFits(w: nat, a: nat, n: nat)
    requires w < Pow2(n) && a < n
    ensures Or(w, Pow2(a)) < Pow2(n)
    decreases n
  {
    PowerGrows(a, n);
    if w > 0 {
      OrHalves(w, a);
      var half := Or(w / 2, if a == 0 then 0 else Pow2(a - 1));
      if a > 0 { OrFits(w / 2, a - 1, n - 1); } else { OrZero(w / 2); }
      assert half < Pow2(n - 1) && Or(w, Pow2(a)) / 2 == half;
    }
  }

  lemma {:induction false} PowerGrows(a: nat, n: nat)
    requires a < n
    ensures Pow2(a) < Pow2(n)
    decreases n
  {
    if a < n - 1 { PowerGrows(a, n - 1); }
  }

  /** The masked comparison `(w & mask) == mask` is true exactly when all the masked bits are set. */
  lemma {:induction false} MaskTest(w: nat, r: nat)
    ensures And(w, Pow2(r) - 1) == Pow2(r) - 1 <==> AllSet(w, r)
    decreases r
  {
    if r == 0 {
      AndZero(w);
    } else {
      var h := Pow2(r - 1);
      MaskTest(w / 2, r - 1);
      if w == 0 { assert !HasBit(0, 0); } else { AndOdd(w, h); }
      BitsOfHalf(w, r);
    }
  }

  lemma BitsOfHalf(w: nat, r: nat)
    requires r > 0
    ensures AllSet(w, r) <==> w % 2 == 1 && AllSet(w / 2, r - 1)
  {
    if AllSet(w, r) {
      assert HasBit(w, 0);
      forall b: nat | b < r - 1 ensures HasBit(w / 2, b) {
        assert HasBit(w, b + 1);
      }
    }
    if w % 2 == 1 && AllSet(w / 2, r - 1) {
      forall b: nat | b < r ensures HasBit(w, b) {
        assert b > 0 ==> HasBit(w / 2, b - 1);
      }
    }
  }

  /** A word of all ones has every bit. */
  lemma {:induction false} FullWord(w: nat, n: nat)
    requires w < Pow2(n)
    ensures w == Pow2(n) - 1 <==> AllSet(w, n)
  {
    if n > 0 {
      FullWord(w / 2, n - 1);
      BitsOfHalf(w, n);
    }
  }
}
