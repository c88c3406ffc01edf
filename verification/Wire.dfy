/** FIX messages as lists of fields: how they are printed, and how they are parsed. */
module Wires {
  import opened Bytes
  import opened Decimals
  import opened Framing

  datatype Field = Field(tag: nat, value: Wire)

  // ---- printing ----

  function FieldBytes(f: Field): Wire {
    Dec(f.tag) + [EQUALS] + f.value + [SOH]
  }

  function Encode(fs: seq<Field>): Wire {
    if fs == [] then [] else FieldBytes(fs[0]) + Encode(fs[1..])
  }

  function Sum(s: Wire): nat {
    if s == [] then 0 else Sum(s[..|s| - 1]) + s[|s| - 1]
  }

  function Checksum(s: Wire): nat {
    Sum(s) % 256
  }

  function Zeros(n: nat): (s: Wire)
    ensures |s| == n && forall i | 0 <= i < n :: s[i] == 48
  {
    seq(n, _ => 48)
  }

  /** Three digits. */
  function Pad3(n: nat): Wire
    requires n < 256
  {
    Zeros(3 - Min3(|Dec(n)|)) + Dec(n)
  }

  function Min3(n: nat): nat {
    if n < 3 then n else 3
  }

  /** "FIX.4.4" */
  const VERSION: Wire := [70, 73, 88, 46, 52, 46, 52]
  /** "9=" and "10=" */
  const LENGTH_TAG: Wire := [57, 61]
  const CHECKSUM_TAG: Wire := [49, 48, 61]

  function LengthPart(n: nat): Wire {
    LENGTH_TAG + (Dec(n) + [SOH])
  }

  function Prefix(body: Wire): Wire {
    BEGIN + LengthPart(|body|) + body
  }

  function Trailer(s: Wire): Wire {
    CHECKSUM_TAG + Pad3(Checksum(s)) + [SOH]
  }

  /** The wire of a body: version and length in front, checksum behind. */
  function Build(body: Wire): Wire {
    Prefix(body) + Trailer(Prefix(body))
  }

  predicate SohFree(s: Wire) {
    SOH !in s
  }

  /** A field that can be told from its print: at most seven digits of tag, a value without SOH. */
  predicate FieldOk(f: Field) {
    f.tag < Pow10(7) && f.value != [] && SohFree(f.value)
  }

  predicate FieldsOk(fs: seq<Field>) {
    forall i | 0 <= i < |fs| :: FieldOk(fs[i])
  }

  // ---- parsing ----

  datatype ParseCode = FailedChecksum | MalformedTag | MissingSoh | MissingValue

  datatype Parsed = Fields(fields: seq<Field>) | ParseFailed(tag: nat, code: ParseCode)

  const MAX_TAG_SIZE: nat := 7
  const UNDEFINED_TAG: nat := 0

  /** `s.rfind(pat)`, looking back from `from`. */
  function FindLast(s: Wire, pat: Wire, from: nat): (r: Option<nat>)
    ensures r.Some? ==> r.value <= from && OccursAt(s, pat, r.value)
    ensures r.Some? ==> forall j: nat | r.value < j <= from :: !OccursAt(s, pat, j)
    ensures r.None? ==> forall j: nat | j <= from :: !OccursAt(s, pat, j)
  {
    if OccursAt(s, pat, from) then Some(from)
    else if from == 0 then None
    else FindLast(s, pat, from - 1)
  }

  datatype OneField = Good(field: Field, next: nat) | Bad(tag: nat, code: ParseCode)

  /** The field that starts at `pos`. */
  function ParseField(w: Wire, pos: nat): (r: OneField)
    ensures r.Good? ==> pos < r.next <= |w|
  {
    match FindByte(w, EQUALS, pos)
    case None => Bad(UNDEFINED_TAG, MalformedTag)
    case Some(eq) =>
      if eq - pos > MAX_TAG_SIZE then Bad(UNDEFINED_TAG, MalformedTag)
      else
        match ParseDec(w[pos..eq])
        case None => Bad(UNDEFINED_TAG, MalformedTag)
        case Some(tag) =>
          match FindByte(w, SOH, eq + 1)
          case None => Bad(tag, MissingSoh)
          case Some(soh) =>
            if soh == eq + 1 then Bad(tag, MissingValue)
            else Good(Field(tag, w[eq + 1..soh]), soh + 1)
  }

  /** The fields from `pos` until `end` is reached. */
  function ParseFields(w: Wire, pos: nat, end: nat): Parsed
    requires end <= |w|
    decreases |w| - pos
  {
    if pos >= end then Fields([])
    else
      match ParseField(w, pos)
      case Bad(tag, code) => ParseFailed(tag, code)
      case Good(f, next) =>
        match ParseFields(w, next, end)
        case ParseFailed(tag, code) => ParseFailed(tag, code)
        case Fields(fs) => Fields([f] + fs)
  }

  function ChecksumDigits(w: Wire, at: nat): Wire
    requires at + 3 <= |w|
  {
    if at + 6 <= |w| then w[at + 3..at + 6] else w[at + 3..]
  }

  /** Checksum first, then the fields before it; the checksum field closes the list. */
  function Parse(w: Wire): Parsed {
    match FindLast(w, CHECKSUM_TAG, |w|)
    case None => ParseFailed(10, FailedChecksum)
    case Some(at) =>
      var digits := ChecksumDigits(w, at);
      match ParseDec(digits)
      case None => ParseFailed(10, FailedChecksum)
      case Some(n) =>
        if Checksum(w[..at]) != n then ParseFailed(10, FailedChecksum)
        else
          match ParseFields(w, 0, at)
          case ParseFailed(tag, code) => ParseFailed(tag, code)
          case Fields(fs) => Fields(fs + [Field(10, digits)])
  }

  // ---- what is printed parses ----

  lemma {:induction false} EncodeConcat(a: seq<Field>, b: seq<Field>)
    ensures Encode(a + b) == Encode(a) + Encode(b)
  {
    if a == [] {
      assert a + b == b;
    } else {
      assert (a + b)[1..] == a[1..] + b;
      EncodeConcat(a[1..], b);
    }
  }

  /** Where digits end: the first byte that is none. */
  lemma FindAfter(w: Wire, s: Wire, b: byte, p: nat)
    requires OccursAt(w, s + [b], p) && b !in s
    ensures FindByte(w, b, p) == Some(p + |s|)
  {
    OccursSplit(w, s, [b], p);
    OccursByte(w, [b], p + |s|, 0);
    forall j: nat | p <= j < p + |s| ensures w[j] != b {
      OccursByte(w, s, p, j - p);
    }
    FindByteIs(w, b, p, p + |s|);
  }

  lemma FieldIs(w: Wire, p: nat, eq: nat, tag: nat, soh: nat)
    requires p <= eq <= p + MAX_TAG_SIZE && FindByte(w, EQUALS, p) == Some(eq)
    requires ParseDec(w[p..eq]) == Some(tag)
    requires eq + 1 < soh && FindByte(w, SOH, eq + 1) == Some(soh)
    ensures ParseField(w, p) == Good(Field(tag, w[eq + 1..soh]), soh + 1)
  {
  }

  lemma TagOfPrint(w: Wire, p: nat, tag: nat) returns (eq: nat)
    requires tag < Pow10(7) && OccursAt(w, Dec(tag) + [EQUALS], p)
    ensures eq == p + |Dec(tag)| <= p + MAX_TAG_SIZE && FindByte(w, EQUALS, p) == Some(eq)
    ensures ParseDec(w[p..eq]) == Some(tag)
  {
    eq := p + |Dec(tag)|;
    DecHas(tag, EQUALS);
    FindAfter(w, Dec(tag), EQUALS, p);
    OccursSplit(w, Dec(tag), [EQUALS], p);
    DecLength(tag, 7);
    ParseDecOfDec(tag);
  }

  lemma ValueOfPrint(w: Wire, v: nat, value: Wire)
    requires SohFree(value) && OccursAt(w, value + [SOH], v)
    ensures FindByte(w, SOH, v) == Some(v + |value|) && w[v..v + |value|] == value
  {
    FindAfter(w, value, SOH, v);
    OccursSplit(w, value, [SOH], v);
  }

  /** The print of a field, wherever it stands, is read back as that field. */
  lemma ParseFieldOfPrint(w: Wire, p: nat, f: Field)
    requires FieldOk(f) && OccursAt(w, FieldBytes(f), p)
    ensures ParseField(w, p) == Good(f, p + |FieldBytes(f)|)
  {
    var front, back := Dec(f.tag) + [EQUALS], f.value + [SOH];
    assert FieldBytes(f) == front + back;
    OccursSplit(w, front, back, p);
    var eq := TagOfPrint(w, p, f.tag);
    ValueOfPrint(w, eq + 1, f.value);
    FieldIs(w, p, eq, f.tag, eq + 1 + |f.value|);
  }

  lemma DecHas(n: nat, b: byte)
    requires !IsDigit(b)
    ensures b !in Dec(n)
  {
  }

  lemma {:induction false} ParseFieldsOfPrint(w: Wire, p: nat, fs: seq<Field>, end: nat)
    requires FieldsOk(fs) && OccursAt(w, Encode(fs), p) && end == p + |Encode(fs)|
    ensures ParseFields(w, p, end) == Fields(fs)
    decreases |fs|
  {
    if fs != [] {
      var f, more, next := fs[0], fs[1..], p + |FieldBytes(fs[0])|;
      OccursSplit(w, FieldBytes(f), Encode(more), p);
      ParseFieldOfPrint(w, p, f);
      ParseFieldsOfPrint(w, next, more, end);
      FieldsCons(w, p, end, f, next, more);
      assert [f] + more == fs;
    }
  }

  lemma FieldsCons(w: Wire, p: nat, end: nat, f: Field, next: nat, more: seq<Field>)
    requires p < end <= |w| && ParseField(w, p) == Good(f, next)
    requires ParseFields(w, next, end) == Fields(more)
    ensures ParseFields(w, p, end) == Fields([f] + more)
  {
  }

  lemma Pad3IsThreeDigits(n: nat)
    requires n < 256
    ensures |Pad3(n)| == 3 && AllDigits(Pad3(n)) && ParseDec(Pad3(n)) == Some(n)
  {
    DecLength(n, 3);
    assert Pow10(3) == 1000;
    ParseDecOfDec(n);
    LeadingZeros(3 - |Dec(n)|, Dec(n));
  }

  lemma {:induction false} LeadingZeros(k: nat, s: Wire)
    requires AllDigits(s)
    ensures AllDigits(Zeros(k) + s) && DecValue(Zeros(k) + s) == DecValue(s)
    decreases k + |s|
  {
    if s != [] {
      LeadingZeros(k, s[..|s| - 1]);
      assert (Zeros(k) + s)[..k + |s| - 1] == Zeros(k) + s[..|s| - 1];
    } else if k > 0 {
      LeadingZeros(k - 1, []);
      assert (Zeros(k) + s)[..k - 1] == Zeros(k - 1) + [];
    } else {
      assert Zeros(k) + s == [];
    }
  }

  function LengthField(body: Wire): Field {
    Field(9, Dec(|body|))
  }

  function ChecksumField(body: Wire): Field {
    Field(10, Pad3(Checksum(Prefix(body))))
  }

  /** The fields of a built message as a parser sees them. */
  function AllFields(fs: seq<Field>): seq<Field> {
    [Field(8, VERSION), LengthField(Encode(fs))] + fs + [ChecksumField(Encode(fs))]
  }

  lemma PrefixIsEncode(fs: seq<Field>)
    ensures Prefix(Encode(fs)) == Encode([Field(8, VERSION), LengthField(Encode(fs))] + fs)
  {
    var f8, f9 := Field(8, VERSION), LengthField(Encode(fs));
    EncodeConcat([f8, f9], fs);
    assert [f8, f9][1..] == [f9] && [f9][1..] == [];
    assert Encode([f9]) == FieldBytes(f9) + Encode([]);
    assert Encode([f8, f9]) == FieldBytes(f8) + (FieldBytes(f9) + []);
    assert Dec(8) == [56] && Dec(9) == [57];
    assert FieldBytes(f8) == BEGIN;
    assert FieldBytes(f9) == LengthPart(|Encode(fs)|);
  }

  /** The trailer holds the last "10=" of a built message. */
  lemma LastChecksumTag(body: Wire)
    ensures FindLast(Build(body), CHECKSUM_TAG, |Build(body)|) == Some(|Prefix(body)|)
  {
    var w, p := Build(body), |Prefix(body)|;
    var n := Checksum(Prefix(body));
    Pad3IsThreeDigits(n);
    assert w == Prefix(body) + (CHECKSUM_TAG + Pad3(n) + [SOH]);
    assert w[p..p + 3] == CHECKSUM_TAG;
    forall i | p + 3 <= i < p + 7 ensures w[i] != EQUALS {
      assert w[i] == (Pad3(n) + [SOH])[i - (p + 3)];
    }
    forall j: nat | p < j <= |w| ensures !OccursAt(w, CHECKSUM_TAG, j) {
      OccursByte(w, CHECKSUM_TAG, j, 2);
    }
    FindLastIs(w, CHECKSUM_TAG, |w|, p);
  }

  lemma FindLastIs(s: Wire, pat: Wire, from: nat, at: nat)
    requires at <= from && OccursAt(s, pat, at)
    requires forall j: nat | at < j <= from :: !OccursAt(s, pat, j)
    ensures FindLast(s, pat, from) == Some(at)
  {
  }

  lemma ParseIs(w: Wire, at: nat, n: nat, fs: seq<Field>)
    requires FindLast(w, CHECKSUM_TAG, |w|) == Some(at) && at + 3 <= |w|
    requires ParseDec(ChecksumDigits(w, at)) == Some(n) && Checksum(w[..at]) == n
    requires ParseFields(w, 0, at) == Fields(fs)
    ensures Parse(w) == Fields(fs + [Field(10, ChecksumDigits(w, at))])
  {
  }

  /** The parts of a built message that the checksum test looks at. */
  lemma BuildReads(body: Wire)
    ensures
      var w, p, n := Build(body), |Prefix(body)|, Checksum(Prefix(body));
      && FindLast(w, CHECKSUM_TAG, |w|) == Some(p)
      && p + 7 == |w| && ChecksumDigits(w, p) == Pad3(n) && ParseDec(Pad3(n)) == Some(n)
      && w[..p] == Prefix(body)
  {
    LastChecksumTag(body);
    Pad3IsThreeDigits(Checksum(Prefix(body)));
  }

  lemma FrontOk(fs: seq<Field>)
    requires FieldsOk(fs)
    ensures FieldsOk([Field(8, VERSION), LengthField(Encode(fs))] + fs)
  {
    assert Pow10(7) == 10000000;
    DecHas(|Encode(fs)|, SOH);
  }

  /** What is built parses, without an error, to version, length, the same fields in order, and
      checksum. */
  lemma ParseOfBuild(fs: seq<Field>)
    requires FieldsOk(fs)
    ensures Parse(Build(Encode(fs))) == Fields(AllFields(fs))
  {
    var body := Encode(fs);
    var w, p := Build(body), |Prefix(body)|;
    var front := [Field(8, VERSION), LengthField(body)] + fs;
    BuildReads(body);
    FrontOk(fs);
    PrefixIsEncode(fs);
    assert w[0..0 + p] == w[..p];
    ParseFieldsOfPrint(w, 0, front, p);
    ParseIs(w, p, Checksum(Prefix(body)), front);
  }
}
