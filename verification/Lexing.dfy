/** What it takes for bytes to parse, told from the bytes: where the fields lie, and what the checksum stands for. */
module Lexing {
  import opened Bytes
  import opened Decimals
  import opened Wires

  // ---- one field ----

  /** A tag of one to seven digits from `pos` to the equals sign at `eq`. */
  predicate TagAt(w: Wire, pos: nat, eq: nat) {
    && pos < eq <= pos + 7 && eq < |w| && w[eq] == EQUALS
    && forall i | pos <= i < eq :: 48 <= w[i] <= 57
  }

  predicate NoSoh(w: Wire, lo: nat, hi: nat)
    requires hi <= |w|
  {
    forall i | lo <= i < hi :: w[i] != SOH
  }

  /** The number of the tag from `pos` to `eq`. */
  function TagValue(w: Wire, pos: nat, eq: nat): nat
    requires TagAt(w, pos, eq)
  {
    DecValue(w[pos..eq])
  }

  /** Field `f` lies from `pos` over its equals sign at `eq` to `next`: its value is not empty and ends in SOH. */
  predicate LiesOver(w: Wire, pos: nat, eq: nat, f: Field, next: nat) {
    && TagAt(w, pos, eq) && eq + 2 < next <= |w|
    && w[next - 1] == SOH && NoSoh(w, eq + 1, next - 1)
    && f == Field(TagValue(w, pos, eq), w[eq + 1..next - 1])
  }

  ghost predicate LiesAt(w: Wire, pos: nat, f: Field, next: nat) {
    exists eq: nat :: LiesOver(w, pos, eq, f, next)
  }

  /** What is wrong with the field at `pos`: no tag, no end, or no value. */
  ghost predicate Faulty(w: Wire, pos: nat, tag: nat, code: ParseCode) {
    match code
    case MalformedTag => tag == 0 && forall eq: nat :: !TagAt(w, pos, eq)
    case MissingSoh =>
      exists eq: nat | TagAt(w, pos, eq) :: TagValue(w, pos, eq) == tag && NoSoh(w, eq + 1, |w|)
    case MissingValue =>
      exists eq: nat | TagAt(w, pos, eq) :: TagValue(w, pos, eq) == tag && eq + 1 < |w| && w[eq + 1] == SOH
    case FailedChecksum => false
  }

  /** No digit is an equals sign, so a tag ends at the first one. */
  lemma TagEnds(w: Wire, pos: nat, eq: nat)
    requires TagAt(w, pos, eq)
    ensures FindByte(w, EQUALS, pos) == Some(eq) && ParseDec(w[pos..eq]) == Some(TagValue(w, pos, eq))
  {
    forall j: nat | pos <= j < eq ensures w[j] != EQUALS {
      assert IsDigit(w[j]);
    }
    FindByteIs(w, EQUALS, pos, eq);
    assert AllDigits(w[pos..eq]);
  }

  lemma TagFound(w: Wire, pos: nat, eq: nat)
    requires FindByte(w, EQUALS, pos) == Some(eq) && eq - pos <= MAX_TAG_SIZE && ParseDec(w[pos..eq]).Some?
    ensures TagAt(w, pos, eq) && ParseDec(w[pos..eq]) == Some(TagValue(w, pos, eq))
  {
    forall i | pos <= i < eq ensures IsDigit(w[i]) {
      assert w[pos..eq][i - pos] == w[i];
    }
  }

  lemma NoTagFound(w: Wire, pos: nat)
    requires
      var eq := FindByte(w, EQUALS, pos);
      eq.None? || eq.value - pos > MAX_TAG_SIZE || ParseDec(w[pos..eq.value]).None?
    ensures Faulty(w, pos, 0, MalformedTag)
  {
    forall eq: nat ensures !TagAt(w, pos, eq) {
      if TagAt(w, pos, eq) { TagEnds(w, pos, eq); }
    }
  }

  /** What the parser makes of a field: either it lies there, or that is what is wrong. */
  lemma OneFieldFound(w: Wire, pos: nat)
    ensures
      match ParseField(w, pos)
      case Good(f, next) => LiesAt(w, pos, f, next)
      case Bad(tag, code) => Faulty(w, pos, tag, code)
  {
    var found := FindByte(w, EQUALS, pos);
    if found.Some? && found.value - pos <= MAX_TAG_SIZE && ParseDec(w[pos..found.value]).Some? {
      TagFound(w, pos, found.value);
      assert TagAt(w, pos, found.value);
      var one := ParseField(w, pos);
      if one.Good? {
        assert LiesOver(w, pos, found.value, one.field, one.next);
      }
    } else {
      NoTagFound(w, pos);
    }
  }

  lemma FieldOver(w: Wire, pos: nat, eq: nat, f: Field, next: nat)
    requires LiesOver(w, pos, eq, f, next)
    ensures ParseField(w, pos) == Good(f, next)
  {
    TagEnds(w, pos, eq);
    FindByteIs(w, SOH, eq + 1, next - 1);
    FieldIs(w, pos, eq, f.tag, next - 1);
  }

  /** A field is read where it lies, and only there. */
  lemma FieldReadExactly(w: Wire, pos: nat, f: Field, next: nat)
    ensures ParseField(w, pos) == Good(f, next) <==> LiesAt(w, pos, f, next)
  {
    OneFieldFound(w, pos);
    if LiesAt(w, pos, f, next) {
      var eq: nat :| LiesOver(w, pos, eq, f, next);
      FieldOver(w, pos, eq, f, next);
    }
  }

  // ---- all fields ----

  /** The fields `fs` lie one behind the other from `pos` on, and only the last one may reach over `end`. */
  ghost predicate LieFrom(w: Wire, pos: nat, fs: seq<Field>, end: nat)
    decreases |fs|
  {
    if fs == [] then pos >= end
    else pos < end && exists next: nat :: LiesAt(w, pos, fs[0], next) && LieFrom(w, next, fs[1..], end)
  }

  lemma {:induction false} FieldsLie(w: Wire, pos: nat, end: nat)
    requires end <= |w|
    ensures ParseFields(w, pos, end).Fields? ==> LieFrom(w, pos, ParseFields(w, pos, end).fields, end)
    ensures ParseFields(w, pos, end) != ParseFailed(10, FailedChecksum)
    decreases |w| - pos
  {
    OneFieldFound(w, pos);
    var one, r := ParseField(w, pos), ParseFields(w, pos, end);
    if pos < end && one.Good? {
      FieldsLie(w, one.next, end);
      if r.Fields? {
        assert r.fields[0] == one.field && r.fields[1..] == ParseFields(w, one.next, end).fields;
      }
    }
  }

  lemma {:induction false} FirstLies(w: Wire, pos: nat, fs: seq<Field>, end: nat) returns (next: nat)
    requires fs != [] && LieFrom(w, pos, fs, end)
    ensures pos < end && ParseField(w, pos) == Good(fs[0], next) && LieFrom(w, next, fs[1..], end)
  {
    next :| LiesAt(w, pos, fs[0], next) && LieFrom(w, next, fs[1..], end);
    FieldReadExactly(w, pos, fs[0], next);
  }

  lemma {:induction false} LyingIsRead(w: Wire, pos: nat, fs: seq<Field>, end: nat)
    requires end <= |w| && LieFrom(w, pos, fs, end)
    ensures ParseFields(w, pos, end) == Fields(fs)
    decreases |fs|
  {
    if fs != [] {
      var next := FirstLies(w, pos, fs, end);
      LyingIsRead(w, next, fs[1..], end);
      FieldsCons(w, pos, end, fs[0], next, fs[1..]);
      assert [fs[0]] + fs[1..] == fs;
    }
  }

  /** The first fault from `pos` on, behind fields that lie as they should. */
  ghost predicate FaultFrom(w: Wire, pos: nat, end: nat, tag: nat, code: ParseCode)
    decreases |w| - pos
  {
    pos < end
    && (|| Faulty(w, pos, tag, code)
        || exists f, next: nat | pos < next <= |w| && LiesAt(w, pos, f, next) :: FaultFrom(w, next, end, tag, code))
  }

  lemma FaultRead(w: Wire, pos: nat, tag: nat, code: ParseCode)
    requires Faulty(w, pos, tag, code)
    ensures ParseField(w, pos) == Bad(tag, code)
  {
    OneFieldFound(w, pos);
    if code != MalformedTag {
      var eq: nat :| TagAt(w, pos, eq) && TagValue(w, pos, eq) == tag
        && (NoSoh(w, eq + 1, |w|) || (eq + 1 < |w| && w[eq + 1] == SOH));
      TagEnds(w, pos, eq);
    } else {
      var found := FindByte(w, EQUALS, pos);
      if found.Some? && found.value - pos <= MAX_TAG_SIZE && ParseDec(w[pos..found.value]).Some? {
        TagFound(w, pos, found.value);
      }
    }
  }

  /** The field loop fails with the first fault. */
  lemma {:induction false} FirstFaultExactly(w: Wire, pos: nat, end: nat, tag: nat, code: ParseCode)
    requires end <= |w|
    ensures ParseFields(w, pos, end) == ParseFailed(tag, code) <==> FaultFrom(w, pos, end, tag, code)
    decreases |w| - pos
  {
    if pos < end {
      OneFieldFound(w, pos);
      match ParseField(w, pos)
      case Bad(_, _) =>
        forall f, next: nat ensures !LiesAt(w, pos, f, next) {
          FieldReadExactly(w, pos, f, next);
        }
        if Faulty(w, pos, tag, code) { FaultRead(w, pos, tag, code); }
      case Good(f, next) =>
        FirstFaultExactly(w, next, end, tag, code);
        forall g, n: nat | LiesAt(w, pos, g, n) ensures g == f && n == next {
          FieldReadExactly(w, pos, g, n);
        }
        if Faulty(w, pos, tag, code) { FaultRead(w, pos, tag, code); }
    }
  }

  // ---- the checksum ----

  /** The last "10=". */
  predicate LastTagAt(w: Wire, at: nat) {
    OccursAt(w, [49, 48, 61], at) && forall j: nat | at < j <= |w| :: !OccursAt(w, [49, 48, 61], j)
  }

  /** What stands behind it: three bytes, or what there is. */
  function DigitsAt(w: Wire, at: nat): Wire
    requires at + 3 <= |w|
  {
    w[at + 3..if at + 6 <= |w| then at + 6 else |w|]
  }

  /** The digits behind the last "10=" say the sum of all bytes before it, modulo 256. */
  predicate SumHolds(w: Wire, at: nat) {
    LastTagAt(w, at) && ParseDec(DigitsAt(w, at)) == Some(Sum(w[..at]) % 256)
  }

  lemma SameDigits(w: Wire, at: nat)
    requires at + 3 <= |w|
    ensures ChecksumDigits(w, at) == DigitsAt(w, at)
  {
  }

  lemma LastTagFound(w: Wire, at: nat)
    requires at <= |w|
    ensures LastTagAt(w, at) <==> FindLast(w, CHECKSUM_TAG, |w|) == Some(at)
  {
    if LastTagAt(w, at) { FindLastIs(w, CHECKSUM_TAG, |w|, at); }
  }

  /** The parser reports a failed checksum exactly if there is no "10=", or what stands behind the last one is not
      the sum of what comes before it. */
  lemma ChecksumFailsExactly(w: Wire)
    ensures Parse(w) == ParseFailed(10, FailedChecksum) <==> forall at: nat :: !SumHolds(w, at)
  {
    var found := FindLast(w, CHECKSUM_TAG, |w|);
    forall at: nat ensures LastTagAt(w, at) <==> found == Some(at) {
      if at <= |w| { LastTagFound(w, at); }
    }
    if found.Some? {
      var at := found.value;
      SameDigits(w, at);
      FieldsLie(w, 0, at);
      assert SumHolds(w, at) || !SumHolds(w, at);
    }
  }

  /** The checksum at `at` holds, the fields but the last lie one behind the other from the start on, and the last
      is the checksum. */
  ghost predicate WellFormed(w: Wire, at: nat, all: seq<Field>) {
    && SumHolds(w, at) && all != [] && all[|all| - 1] == Field(10, DigitsAt(w, at))
    && LieFrom(w, 0, all[..|all| - 1], at)
  }

  lemma ParsedIsWellFormed(w: Wire, at: nat, all: seq<Field>)
    requires Parse(w) == Fields(all) && FindLast(w, CHECKSUM_TAG, |w|) == Some(at)
    ensures WellFormed(w, at, all)
  {
    LastTagFound(w, at);
    SameDigits(w, at);
    FieldsLie(w, 0, at);
    assert all[..|all| - 1] == ParseFields(w, 0, at).fields;
  }

  lemma WellFormedParses(w: Wire, at: nat, all: seq<Field>)
    requires WellFormed(w, at, all)
    ensures Parse(w) == Fields(all)
  {
    var fs := all[..|all| - 1];
    LastTagFound(w, at);
    SameDigits(w, at);
    LyingIsRead(w, 0, fs, at);
    ParseIs(w, at, Checksum(w[..at]), fs);
    assert all == fs + [all[|all| - 1]];
  }

  /** Exactly the well-formed wires parse, and to the fields they hold. */
  lemma ParsesExactly(w: Wire, all: seq<Field>)
    ensures Parse(w) == Fields(all) <==> exists at: nat :: WellFormed(w, at, all)
  {
    if Parse(w) == Fields(all) {
      ParsedIsWellFormed(w, FindLast(w, CHECKSUM_TAG, |w|).value, all);
    }
    if exists at: nat :: WellFormed(w, at, all) {
      var at: nat :| WellFormed(w, at, all);
      WellFormedParses(w, at, all);
    }
  }

  /** With a checksum that holds, a wire that does not parse fails with its first fault. */
  lemma FailsExactly(w: Wire, tag: nat, code: ParseCode)
    requires code != FailedChecksum
    ensures Parse(w) == ParseFailed(tag, code) <==> exists at: nat :: SumHolds(w, at) && FaultFrom(w, 0, at, tag, code)
  {
    var found := FindLast(w, CHECKSUM_TAG, |w|);
    if found.Some? {
      LastTagFound(w, found.value);
      SameDigits(w, found.value);
      FirstFaultExactly(w, 0, found.value, tag, code);
    }
    forall at: nat | SumHolds(w, at) ensures found == Some(at) {
      LastTagFound(w, at);
    }
    assert found.Some? ==> (SumHolds(w, found.value) || !SumHolds(w, found.value));
  }
}
