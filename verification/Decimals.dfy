/** Decimal numbers as bytes: `std::to_chars` and the digits-only `std::from_chars` of the parsers. */
module Decimals {
  import opened Bytes

  predicate IsDigit(b: byte) {
    48 <= b <= 57
  }

  predicate AllDigits(s: Wire) {
    forall i | 0 <= i < |s| :: IsDigit(s[i])
  }

  function DecValue(s: Wire): nat
    requires AllDigits(s)
  {
    if s == [] then 0 else 10 * DecValue(s[..|s| - 1]) + (s[|s| - 1] - 48)
  }

  /** Reads an unsigned number: digits only, the whole of `s`, at least one. */
  function ParseDec(s: Wire): Option<nat> {
    if s == [] || !AllDigits(s) then None else Some(DecValue(s))
  }

  /** Prints an unsigned number without leading zeros. */
  function Dec(n: nat): (s: Wire)
    ensures s != [] && AllDigits(s)
  {
    if n < 10 then [48 + n] else Dec(n / 10) + [48 + n % 10]
  }

  /** Exactly the digits "0" to "9" read as a number. */
  lemma ParseDecExactly(s: Wire)
    ensures ParseDec(s).Some? <==> s != [] && forall i | 0 <= i < |s| :: 48 <= s[i] <= 57
  {
    assert AllDigits(s) <==> forall i | 0 <= i < |s| :: IsDigit(s[i]);
  }

  /** What is printed reads as the number it was printed from. */
  lemma {:induction false} ParseDecOfDec(n: nat)
    ensures ParseDec(Dec(n)) == Some(n)
  {
    if n < 10 {
      var s: Wire := [48 + n];
      assert s[..0] == [] && DecValue(s) == 10 * DecValue([]) + n;
    } else {
      ParseDecOfDec(n / 10);
      assert Dec(n)[..|Dec(n)| - 1] == Dec(n / 10);
    }
  }

  /** A number below 10^k prints with at most k digits, and one that is not prints with more. */
  lemma {:induction false} DecLength(n: nat, k: nat)
    requires 1 <= k
    ensures |Dec(n)| <= k <==> n < Pow10(k)
    decreases k
  {
    if n >= 10 {
      if k == 1 {
        assert |Dec(n / 10)| >= 1;
      } else {
        DecLength(n / 10, k - 1);
      }
    } else {
      Pow10Grows(k);
    }
  }

  function Pow10(k: nat): nat {
    if k == 0 then 1 else 10 * Pow10(k - 1)
  }

  lemma {:induction false} Pow10Grows(k: nat)
    requires 1 <= k
    ensures 10 <= Pow10(k)
  {
    if k > 1 { Pow10Grows(k - 1); }
  }

  // ---- signed numbers ----

  const MINUS: byte := 45

  /** Prints a signed number. */
  function Signed(n: int): Wire {
    if n < 0 then [MINUS] + Dec(-n) else Dec(n)
  }

  /** Reads a signed number, as the signed `std::from_chars` does. */
  function ParseSigned(s: Wire): Option<int> {
    var minus := s != [] && s[0] == MINUS;
    var digits := ParseDec(if minus then s[1..] else s);
    if digits.None? then None else Some((if minus then -1 else 1) * digits.value)
  }

  lemma ParseSignedOfSigned(n: int)
    ensures ParseSigned(Signed(n)) == Some(n)
  {
    ParseDecOfDec(if n < 0 then -n else n);
    if n < 0 {
      assert Signed(n)[1..] == Dec(-n);
    } else {
      assert IsDigit(Signed(n)[0]);
    }
  }
}
