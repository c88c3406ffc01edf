/** What an accepted message looks like, told from the bytes of its values. */
module Conformance {
  import opened Bytes
  import opened Decimals
  import opened Wires
  import opened MessageStores
  import opened ValidatorSpec
  import opened Validators

  // ---- values ----

  /** At least one byte, and all of them digits. */
  predicate Digits(v: Wire) {
    v != [] && forall i | 0 <= i < |v| :: 48 <= v[i] <= 57
  }

  /** Digits, a point at `n`, and digits or nothing behind it. */
  predicate PointAt(v: Wire, n: nat) {
    n < |v| && v[n] == 46 && Digits(v[..n]) && (n + 1 < |v| ==> Digits(v[n + 1..]))
  }

  ghost predicate Pointed(v: Wire) {
    exists n: nat :: PointAt(v, n)
  }

  predicate Sign(b: byte) {
    b == 43 || b == 45
  }

  /** What is left behind a sign. */
  function Unsigned(v: Wire): Wire {
    if v != [] && Sign(v[0]) then v[1..] else v
  }

  /** How a value of each type looks. */
  ghost predicate Looks(kind: FieldType, v: Wire) {
    match kind
    case Int => Digits(Unsigned(v))
    case Group => Digits(Unsigned(v))
    case Float => Digits(Unsigned(v)) || Pointed(Unsigned(v))
    case Double => Digits(Unsigned(v)) || Pointed(Unsigned(v))
    case Boolean => v == [89] || v == [78]
    case Char => |v| == 1
    case String => true
  }

  lemma DigitsAre(v: Wire)
    ensures Digits(v) <==> v != [] && AllDigits(v)
  {
    assert forall i | 0 <= i < |v| :: IsDigit(v[i]) <==> 48 <= v[i] <= 57;
  }

  lemma AllDigitsCons(v: Wire)
    requires v != []
    ensures AllDigits(v) <==> IsDigit(v[0]) && AllDigits(v[1..])
  {
    assert forall i | 1 <= i < |v| :: v[i] == v[1..][i - 1];
  }

  lemma {:induction false} NoPointLeft(v: Wire)
    ensures DigitsAndPoint(v, true) <==> AllDigits(v)
    decreases |v|
  {
    if v != [] {
      NoPointLeft(v[1..]);
      AllDigitsCons(v);
    }
  }

  /** A point at `n`, and nothing but digits around it. */
  predicate Split(v: Wire, n: nat) {
    n < |v| && v[n] == 46 && AllDigits(v[..n]) && AllDigits(v[n + 1..])
  }

  lemma SplitFurther(v: Wire, n: nat)
    requires v != [] && IsDigit(v[0])
    ensures Split(v, n + 1) <==> Split(v[1..], n)
    ensures !Split(v, 0)
  {
    if n + 1 < |v| {
      AllDigitsCons(v[..n + 1]);
      assert v[..n + 1][1..] == v[1..][..n];
      assert v[n + 2..] == v[1..][n + 1..];
    }
  }

  lemma {:induction false} OnePointLeft(v: Wire)
    ensures DigitsAndPoint(v, false) <==> AllDigits(v) || exists n: nat :: Split(v, n)
    decreases |v|
  {
    if v != [] {
      AllDigitsCons(v);
      if v[0] == 46 {
        NoPointLeft(v[1..]);
        assert Split(v, 0) <==> AllDigits(v[1..]);
        forall n: nat | Split(v, n) ensures n == 0 {
          if n > 0 { AllDigitsCons(v[..n]); }
        }
      } else if IsDigit(v[0]) {
        OnePointLeft(v[1..]);
        forall n: nat ensures Split(v, n + 1) <==> Split(v[1..], n) {
          SplitFurther(v, n);
        }
        if n: nat :| Split(v, n) {
          SplitFurther(v, 0);
          assert Split(v[1..], n - 1);
        }
        if n: nat :| Split(v[1..], n) {
          assert Split(v, n + 1);
        }
      } else {
        forall n: nat ensures !Split(v, n) {
          if 0 < n < |v| { AllDigitsCons(v[..n]); }
        }
      }
    }
  }

  lemma DoubleExactly(v: Wire)
    ensures IsDouble(v) <==> Digits(Unsigned(v)) || Pointed(Unsigned(v))
  {
    var u := Unsigned(v);
    DigitsAre(u);
    if u != [] {
      AllDigitsCons(u);
      OnePointLeft(u[1..]);
      assert IsDouble(v) <==> IsDigit(u[0]) && DigitsAndPoint(u[1..], false);
      forall n: nat ensures IsDigit(u[0]) ==> (PointAt(u, n) <==> n > 0 && Split(u, n)) {
        if n < |u| {
          DigitsAre(u[..n]);
          DigitsAre(u[n + 1..]);
        }
      }
      if IsDigit(u[0]) {
        forall n: nat ensures Split(u, n + 1) <==> Split(u[1..], n) {
          SplitFurther(u, n);
        }
        if n: nat :| Split(u[1..], n) {
          assert PointAt(u, n + 1);
        }
        if n: nat :| PointAt(u, n) {
          assert Split(u[1..], n - 1);
        }
      } else {
        forall n: nat ensures !PointAt(u, n) {
          if 0 < n < |u| { assert u[..n][0] == u[0]; }
        }
      }
    }
  }

  /** The validator takes a value exactly if it looks as its type asks. */
  lemma TypeExactly(v: Wire, kind: FieldType)
    ensures TypeOk(v, kind) <==> Looks(kind, v)
  {
    DigitsAre(Unsigned(v));
    DoubleExactly(v);
  }

  /** A count is a number from 0 to the greatest `int`. */
  lemma CountExactly(v: Wire, n: nat)
    ensures ParseCount(v) == Some(n) <==> ParseSigned(v) == Some(n) && n <= 2147483647
  {
    if v != [] && v[0] == 45 {
      assert ParseSigned(v) == Some(n) ==> n == 0;
    }
  }

  // ---- one entry of a group ----

  /** A field is one of a member: with its tag, and a value of its type. */
  ghost predicate IsMember(f: Field, m: Member) {
    f.tag == m.tag && Looks(m.kind, f.value)
  }

  /** Where the fields from `lo` to `hi` are found among the members of a group from `j` on: in schema order, each
      of its type, and no required member is left out. */
  ghost predicate PickedFrom(fs: seq<Field>, gs: seq<Member>, j: nat, lo: nat, hi: nat, picks: seq<nat>) {
    && lo <= hi <= |fs| && |picks| == hi - lo
    && (forall i, k | 0 <= i < k < |picks| :: picks[i] < picks[k])
    && (forall i | 0 <= i < |picks| :: j <= picks[i] < |gs| && IsMember(fs[lo + i], gs[picks[i]]))
    && (forall m: nat | j <= m < |gs| && gs[m].presence == Required :: m in picks)
  }

  lemma PickedOne(fs: seq<Field>, gs: seq<Member>, j: nat, lo: nat, hi: nat, rest: seq<nat>)
    requires j < |gs| && lo < hi && PickedFrom(fs, gs, j + 1, lo + 1, hi, rest) && IsMember(fs[lo], gs[j])
    ensures PickedFrom(fs, gs, j, lo, hi, [j] + rest)
  {
    var picks := [j] + rest;
    forall i | 0 <= i < |picks| ensures j <= picks[i] < |gs| && IsMember(fs[lo + i], gs[picks[i]]) {
      if i > 0 { assert picks[i] == rest[i - 1] && IsMember(fs[lo + 1 + (i - 1)], gs[rest[i - 1]]); }
    }
    forall m: nat | j <= m < |gs| && gs[m].presence == Required ensures m in picks {
      if m == j { assert picks[0] == m; }
    }
  }

  lemma {:induction false} InOrderPicks(fs: seq<Field>, gs: seq<Member>, j: nat, lo: nat, hi: nat)
    returns (picks: seq<nat>)
    requires j <= |gs| && lo <= hi <= |fs| && InOrder(fs, gs, j, lo, hi)
    ensures PickedFrom(fs, gs, j, lo, hi, picks)
    decreases |gs| - j
  {
    if j == |gs| {
      picks := [];
    } else if lo < hi && fs[lo].tag == gs[j].tag && TypeOk(fs[lo].value, gs[j].kind)
              && InOrder(fs, gs, j + 1, lo + 1, hi) {
      TypeExactly(fs[lo].value, gs[j].kind);
      var rest := InOrderPicks(fs, gs, j + 1, lo + 1, hi);
      PickedOne(fs, gs, j, lo, hi, rest);
      picks := [j] + rest;
    } else {
      picks := InOrderPicks(fs, gs, j + 1, lo, hi);
    }
  }

  predicate NotSeen(gs: seq<Member>, j: nat, seen: set<nat>) {
    forall m | j <= m < |gs| :: gs[m].tag !in seen
  }

  lemma NotSeenFurther(gs: seq<Member>, j: nat, seen: set<nat>)
    requires j < |gs| && DistinctTags(gs) && NotSeen(gs, j, seen)
    ensures NotSeen(gs, j + 1, seen + {gs[j].tag}) && NotSeen(gs, j + 1, seen) && gs[j].tag !in seen
  {
  }

  /** What stands at `hi` begins another entry or is none of the group. */
  predicate EndsAt(fs: seq<Field>, gs: seq<Member>, hi: nat) {
    hi < |fs| && forall m | 0 < m < |gs| :: fs[hi].tag != gs[m].tag
  }

  /** The next member: it is picked, or it may be left out and something else stands there. */
  lemma NextPick(fs: seq<Field>, gs: seq<Member>, j: nat, lo: nat, hi: nat, picks: seq<nat>)
    requires j < |gs| && DistinctTags(gs) && PickedFrom(fs, gs, j, lo, hi, picks) && EndsAt(fs, gs, hi)
    requires j == 0 ==> picks != [] && picks[0] == 0
    ensures lo < |fs|
    ensures picks != [] && picks[0] == j ==>
      lo < hi && fs[lo].tag == gs[j].tag && TypeOk(fs[lo].value, gs[j].kind)
      && PickedFrom(fs, gs, j + 1, lo + 1, hi, picks[1..])
    ensures !(picks != [] && picks[0] == j) ==>
      fs[lo].tag != gs[j].tag && gs[j].presence != Required && PickedFrom(fs, gs, j + 1, lo, hi, picks)
  {
    if picks != [] {
      assert IsMember(fs[lo + 0], gs[picks[0]]);
    }
    if picks != [] && picks[0] == j {
      TypeExactly(fs[lo].value, gs[j].kind);
      PickedRest(fs, gs, j, lo, hi, picks);
    } else {
      assert j !in picks;
      PickedLater(fs, gs, j, lo, hi, picks);
    }
  }

  /** Member by member: the picked ones stand there, and something else where one is left out. */
  predicate Walkable(fs: seq<Field>, gs: seq<Member>, j: nat, lo: nat, hi: nat, picks: seq<nat>)
    requires j <= |gs|
    decreases |gs| - j
  {
    if j == |gs| then lo == hi
    else if picks != [] && picks[0] == j then
      lo < |fs| && fs[lo].tag == gs[j].tag && TypeOk(fs[lo].value, gs[j].kind)
      && Walkable(fs, gs, j + 1, lo + 1, hi, picks[1..])
    else
      lo < |fs| && fs[lo].tag != gs[j].tag && gs[j].presence != Required && Walkable(fs, gs, j + 1, lo, hi, picks)
  }

  lemma {:induction false} PicksAreWalkable(fs: seq<Field>, gs: seq<Member>, j: nat, lo: nat, hi: nat, picks: seq<nat>)
    requires j <= |gs| && DistinctTags(gs) && PickedFrom(fs, gs, j, lo, hi, picks) && EndsAt(fs, gs, hi)
    requires j == 0 ==> picks != [] && picks[0] == 0
    ensures Walkable(fs, gs, j, lo, hi, picks)
    decreases |gs| - j
  {
    if j < |gs| {
      NextPick(fs, gs, j, lo, hi, picks);
      if picks != [] && picks[0] == j {
        PicksAreWalkable(fs, gs, j + 1, lo + 1, hi, picks[1..]);
      } else {
        PicksAreWalkable(fs, gs, j + 1, lo, hi, picks);
      }
    }
  }

  lemma {:induction false} WalkableIsTaken(fs: seq<Field>, gs: seq<Member>, j: nat, lo: nat, hi: nat, picks: seq<nat>,
                                           seen: set<nat>)
    requires j <= |gs| && DistinctTags(gs) && NotSeen(gs, j, seen) && Walkable(fs, gs, j, lo, hi, picks)
    ensures EntryEnd(fs, gs, j, lo, seen) == Some(hi)
    decreases |gs| - j
  {
    if j < |gs| {
      NotSeenFurther(gs, j, seen);
      if picks != [] && picks[0] == j {
        WalkableIsTaken(fs, gs, j + 1, lo + 1, hi, picks[1..], seen + {fs[lo].tag});
      } else {
        WalkableIsTaken(fs, gs, j + 1, lo, hi, picks, seen);
      }
    }
  }

  /** The walk through an entry takes what is picked, if it can tell where the entry ends. */
  lemma PicksAreTaken(fs: seq<Field>, gs: seq<Member>, lo: nat, hi: nat, picks: seq<nat>)
    requires DistinctTags(gs) && PickedFrom(fs, gs, 0, lo, hi, picks) && EndsAt(fs, gs, hi)
    requires picks != [] && picks[0] == 0
    ensures EntryEnd(fs, gs, 0, lo, {}) == Some(hi)
  {
    PicksAreWalkable(fs, gs, 0, lo, hi, picks);
    WalkableIsTaken(fs, gs, 0, lo, hi, picks, {});
  }

  lemma PickedRest(fs: seq<Field>, gs: seq<Member>, j: nat, lo: nat, hi: nat, picks: seq<nat>)
    requires j < |gs| && PickedFrom(fs, gs, j, lo, hi, picks) && picks != [] && picks[0] == j
    ensures PickedFrom(fs, gs, j + 1, lo + 1, hi, picks[1..])
  {
    forall i | 0 <= i < |picks| - 1
      ensures j + 1 <= picks[1..][i] < |gs| && IsMember(fs[lo + 1 + i], gs[picks[1..][i]])
    {
      assert IsMember(fs[lo + (i + 1)], gs[picks[i + 1]]);
    }
    forall m: nat | j + 1 <= m < |gs| && gs[m].presence == Required ensures m in picks[1..] {
      assert m in picks;
    }
  }

  lemma PickedLater(fs: seq<Field>, gs: seq<Member>, j: nat, lo: nat, hi: nat, picks: seq<nat>)
    requires j < |gs| && PickedFrom(fs, gs, j, lo, hi, picks) && j !in picks
    ensures PickedFrom(fs, gs, j + 1, lo, hi, picks)
  {
    forall i | 0 <= i < |picks| ensures j + 1 <= picks[i] < |gs| && IsMember(fs[lo + i], gs[picks[i]]) {
      assert picks[i] in picks;
    }
  }

  // ---- groups ----

  /** The fields from `lo` to `hi`, one at least, are an entry of the group. */
  ghost predicate IsEntry(fs: seq<Field>, gs: seq<Member>, lo: nat, hi: nat) {
    lo < hi && exists picks :: PickedFrom(fs, gs, 0, lo, hi, picks)
  }

  /** `n` entries from `lo` to `end`, divided by `cuts`. */
  ghost predicate AreEntries(fs: seq<Field>, gs: seq<Member>, n: nat, lo: nat, end: nat, cuts: seq<nat>) {
    && |cuts| == n + 1 && cuts[0] == lo && cuts[n] == end && lo <= end <= |fs|
    && forall i | 0 <= i < n :: IsEntry(fs, gs, cuts[i], cuts[i + 1])
  }

  /** It can be told where they end: each begins with the first member, and the field behind them is none of the
      group. */
  ghost predicate Delimited(fs: seq<Field>, gs: seq<Member>, n: nat, cuts: seq<nat>)
    requires |cuts| == n + 1
  {
    && gs != [] && cuts[n] < |fs| && (forall m | 0 <= m < |gs| :: fs[cuts[n]].tag != gs[m].tag)
    && forall i | 0 <= i < n :: cuts[i] < |fs| && fs[cuts[i]].tag == gs[0].tag
  }

  lemma EntryFound(fs: seq<Field>, gs: seq<Member>, lo: nat, e: nat)
    requires lo <= |fs| && DistinctTags(gs) && EntryEnd(fs, gs, 0, lo, {}) == Some(e) && lo < e
    ensures IsEntry(fs, gs, lo, e)
  {
    EntryIsInOrder(fs, gs, 0, lo, {});
    var picks := InOrderPicks(fs, gs, 0, lo, e);
  }

  lemma EntryTaken(fs: seq<Field>, gs: seq<Member>, lo: nat, hi: nat)
    requires DistinctTags(gs) && gs != [] && IsEntry(fs, gs, lo, hi) && hi < |fs| && fs[lo].tag == gs[0].tag
    requires forall m | 0 < m < |gs| :: fs[hi].tag != gs[m].tag
    ensures EntryEnd(fs, gs, 0, lo, {}) == Some(hi)
  {
    var picks :| PickedFrom(fs, gs, 0, lo, hi, picks);
    assert IsMember(fs[lo + 0], gs[picks[0]]);
    PicksAreTaken(fs, gs, lo, hi, picks);
  }

  /** Where the walk through a group ends, the stated number of entries lies behind it. */
  lemma {:induction false} GroupFound(fs: seq<Field>, gs: seq<Member>, n: nat, lo: nat, end: nat)
    returns (cuts: seq<nat>)
    requires lo <= |fs| && DistinctTags(gs) && GroupEnd(fs, gs, n, lo) == Some(end)
    ensures AreEntries(fs, gs, n, lo, end, cuts)
    decreases n
  {
    if n == 0 {
      cuts := [lo];
    } else {
      var e := EntryEnd(fs, gs, 0, lo, {}).value;
      EntryFound(fs, gs, lo, e);
      var rest := GroupFound(fs, gs, n - 1, e, end);
      cuts := [lo] + rest;
      forall i | 0 <= i < n ensures IsEntry(fs, gs, cuts[i], cuts[i + 1]) {
        if i > 0 { assert IsEntry(fs, gs, rest[i - 1], rest[i]); }
      }
    }
  }

  /** Delimited entries are walked through to their end. */
  lemma {:induction false} GroupTaken(fs: seq<Field>, gs: seq<Member>, n: nat, lo: nat, end: nat, cuts: seq<nat>)
    requires DistinctTags(gs) && AreEntries(fs, gs, n, lo, end, cuts) && Delimited(fs, gs, n, cuts)
    ensures GroupEnd(fs, gs, n, lo) == Some(end)
    decreases n
  {
    if n > 0 {
      assert IsEntry(fs, gs, cuts[0], cuts[1]);
      EntryTaken(fs, gs, lo, cuts[1]);
      var rest := cuts[1..];
      forall i | 0 <= i < n - 1
        ensures IsEntry(fs, gs, rest[i], rest[i + 1]) && rest[i] < |fs| && fs[rest[i]].tag == gs[0].tag
      {
        assert IsEntry(fs, gs, cuts[i + 1], cuts[i + 2]);
      }
      EntriesEndLater(fs, gs, n - 1, rest);
      GroupTaken(fs, gs, n - 1, cuts[1], end, rest);
    }
  }

  lemma {:induction false} EntriesEndLater(fs: seq<Field>, gs: seq<Member>, n: nat, cuts: seq<nat>)
    requires |cuts| == n + 1 && forall i | 0 <= i < n :: IsEntry(fs, gs, cuts[i], cuts[i + 1])
    ensures cuts[0] <= cuts[n]
    decreases n
  {
    if n > 0 {
      assert IsEntry(fs, gs, cuts[n - 1], cuts[n]);
      assert forall i | 0 <= i < n - 1 :: IsEntry(fs, gs, cuts[..n][i], cuts[..n][i + 1]);
      EntriesEndLater(fs, gs, n - 1, cuts[..n]);
    }
  }

  // ---- fields of a schema ----

  ghost predicate Divided(fs: seq<Field>, gs: seq<Member>, n: nat, i: nat, e: nat, cuts: seq<nat>, clear: bool) {
    AreEntries(fs, gs, n, i + 1, e, cuts) && (clear ==> Delimited(fs, gs, n, cuts))
  }

  /** A count, and that many entries behind it. If `clear`, it can be told where they end. */
  ghost predicate GroupReaches(fs: seq<Field>, f: FieldSchema, i: nat, e: nat, n: nat, clear: bool) {
    if n == 0 then e == i + 1
    else
      && f.group.Some? && 1 <= |f.group.value| <= 32
      && exists cuts :: Divided(fs, f.group.value, n, i, e, cuts, clear)
  }

  /** The field at `i` is as its schema asks, and the fields that it stands for end at `e`. */
  ghost predicate FieldReaches(fs: seq<Field>, f: FieldSchema, i: nat, e: nat, clear: bool) {
    && i < |fs|
    && if f.member.kind == Group then
         exists n: nat | n <= 2147483647 && ParseSigned(fs[i].value) == Some(n) :: GroupReaches(fs, f, i, e, n, clear)
       else Looks(f.member.kind, fs[i].value) && e == i + 1
  }

  predicate GroupsDistinct(f: FieldSchema) {
    f.group.Some? ==> DistinctTags(f.group.value)
  }

  lemma FieldFound(fs: seq<Field>, f: FieldSchema, i: nat, e: nat)
    requires i < |fs| && GroupsDistinct(f) && FieldEnd(fs, f, i) == Some(e)
    ensures FieldReaches(fs, f, i, e, false)
  {
    TypeExactly(fs[i].value, f.member.kind);
    if f.member.kind == Group {
      var n := ParseCount(fs[i].value).value;
      CountExactly(fs[i].value, n);
      if n > 0 {
        var cuts := GroupFound(fs, f.group.value, n, i + 1, e);
        assert Divided(fs, f.group.value, n, i, e, cuts, false);
      }
      assert GroupReaches(fs, f, i, e, n, false);
    }
  }

  lemma FieldTaken(fs: seq<Field>, f: FieldSchema, i: nat, e: nat)
    requires GroupsDistinct(f) && FieldReaches(fs, f, i, e, true)
    ensures FieldEnd(fs, f, i) == Some(e)
  {
    TypeExactly(fs[i].value, f.member.kind);
    if f.member.kind == Group {
      var n: nat :| n <= 2147483647 && ParseSigned(fs[i].value) == Some(n) && GroupReaches(fs, f, i, e, n, true);
      CountExactly(fs[i].value, n);
      if n > 0 {
        var cuts :| Divided(fs, f.group.value, n, i, e, cuts, true);
        GroupTaken(fs, f.group.value, n, i + 1, e, cuts);
      }
    }
  }

  // ---- whole messages ----

  /** Required fields are there, and each field of the schema is as it asks where it first occurs. */
  ghost predicate SchemaConforms(fs: seq<Field>, schema: seq<FieldSchema>, clear: bool) {
    forall j {:trigger schema[j]} | 0 <= j < |schema| ::
      match FirstWith(fs, schema[j].member.tag)
      case None => schema[j].member.presence != Required
      case Some(i) => exists e: nat :: FieldReaches(fs, schema[j], i, e, clear)
  }

  /** Field `k` is the first with a tag of the schema, or is in the group behind such a field. */
  ghost predicate StandsFor(fs: seq<Field>, f: FieldSchema, k: nat, clear: bool) {
    var i := FirstWith(fs, f.member.tag);
    i.Some? && i.value <= k && exists e: nat :: k < e && FieldReaches(fs, f, i.value, e, clear)
  }

  ghost predicate Claimed(fs: seq<Field>, schema: seq<FieldSchema>, k: nat, clear: bool) {
    exists j {:trigger schema[j]} | 0 <= j < |schema| :: StandsFor(fs, schema[j], k, clear)
  }

  /** Version "FIX.4.4" first, then a length, then the type; a number, and the parties of the session. */
  ghost predicate HeaderConforms(t: Tables, fs: seq<Field>, params: SessionParameters)
    requires |t.header| >= 3
  {
    && |fs| >= 3
    && fs[0].value == [70, 73, 88, 46, 52, 46, 52] && Looks(t.header[0].member.kind, fs[0].value)
    && Looks(t.header[1].member.kind, fs[1].value)
    && LastValue(fs, 35) == Some(fs[2].value) && Looks(t.header[2].member.kind, fs[2].value)
    && LastValue(fs, 34).Some? && Digits(Unsigned(LastValue(fs, 34).value))
    && LastValue(fs, 49) == Some(params.targetCompId) && LastValue(fs, 56) == Some(params.senderCompId)
  }

  /** A message as its schemas ask: told from the bytes. */
  ghost predicate Conforms(t: Tables, fs: seq<Field>, params: SessionParameters, clear: bool)
    requires |t.header| >= 3
  {
    && HeaderConforms(t, fs, params)
    && t.registry(fs[2].value).Some?
    && var body := t.registry(fs[2].value).value;
       && SchemaConforms(fs, t.header, clear) && SchemaConforms(fs, body, clear) && SchemaConforms(fs, t.trailer, clear)
       && forall k: nat | k < |fs| ::
            Claimed(fs, t.header, k, clear) || Claimed(fs, body, k, clear) || Claimed(fs, t.trailer, k, clear)
  }

  predicate AllDistinct(schema: seq<FieldSchema>) {
    forall j {:trigger schema[j]} | 0 <= j < |schema| :: GroupsDistinct(schema[j])
  }

  lemma SchemaFound(fs: seq<Field>, schema: seq<FieldSchema>)
    requires AllDistinct(schema) && SchemaRule(fs, schema)
    ensures SchemaConforms(fs, schema, false)
    ensures forall k: nat | Covers(fs, schema, k) :: Claimed(fs, schema, k, false)
  {
    forall j | 0 <= j < |schema| && FirstWith(fs, schema[j].member.tag).Some?
      ensures
        var i := FirstWith(fs, schema[j].member.tag).value;
        var end := FieldEnd(fs, schema[j], i);
        end.Some? && FieldReaches(fs, schema[j], i, end.value, false)
    {
      var i := FirstWith(fs, schema[j].member.tag).value;
      assert FieldRule(fs, schema[j]);
      FieldFound(fs, schema[j], i, FieldEnd(fs, schema[j], i).value);
    }
    forall j | 0 <= j < |schema| ensures FieldRule(fs, schema[j]) {
    }
    forall k: nat | Covers(fs, schema, k) ensures Claimed(fs, schema, k, false) {
      var j :| 0 <= j < |schema| && AccountsFor(fs, schema[j], k);
      assert StandsFor(fs, schema[j], k, false);
    }
  }

  lemma SchemaTaken(fs: seq<Field>, schema: seq<FieldSchema>)
    requires AllDistinct(schema) && SchemaConforms(fs, schema, true)
    ensures SchemaRule(fs, schema)
    ensures forall k: nat | Claimed(fs, schema, k, true) :: Covers(fs, schema, k)
  {
    forall j | 0 <= j < |schema| ensures FieldRule(fs, schema[j]) {
      var i := FirstWith(fs, schema[j].member.tag);
      if i.Some? {
        var e: nat :| FieldReaches(fs, schema[j], i.value, e, true);
        FieldTaken(fs, schema[j], i.value, e);
      }
    }
    forall k: nat | Claimed(fs, schema, k, true) ensures Covers(fs, schema, k) {
      var j :| 0 <= j < |schema| && StandsFor(fs, schema[j], k, true);
      var i := FirstWith(fs, schema[j].member.tag).value;
      var e: nat :| k < e && FieldReaches(fs, schema[j], i, e, true);
      FieldTaken(fs, schema[j], i, e);
      assert AccountsFor(fs, schema[j], k);
    }
  }

  lemma HeaderExactly(t: Tables, fs: seq<Field>, msgType: Wire, params: SessionParameters)
    requires |t.header| >= 3 && LastValue(fs, 35) == Some(msgType)
    ensures HeaderRule(t, fs, msgType, params) <==> HeaderConforms(t, fs, params)
  {
    if |fs| >= 3 {
      TypeExactly(fs[0].value, t.header[0].member.kind);
      TypeExactly(fs[1].value, t.header[1].member.kind);
      TypeExactly(fs[2].value, t.header[2].member.kind);
    }
    if LastValue(fs, 34).Some? {
      TypeExactly(LastValue(fs, 34).value, Int);
    }
  }

  /** Where groups name each of their members once. */
  ghost predicate TablesDistinct(t: Tables) {
    && AllDistinct(t.header) && AllDistinct(t.trailer)
    && forall w | t.registry(w).Some? :: AllDistinct(t.registry(w).value)
  }

  /** Everything that is accepted conforms: its values look as their types ask, in groups and outside of them, no
      required field is missing, no field is unclaimed, and it is between the parties. */
  lemma AcceptedConforms(t: Tables, fs: seq<Field>, params: SessionParameters)
    requires |t.header| >= 3 && TablesDistinct(t) && Accepts(t, fs, params)
    ensures Conforms(t, fs, params, false)
  {
    var msgType := LastValue(fs, 35).value;
    var body := t.registry(msgType).value;
    HeaderExactly(t, fs, msgType, params);
    SchemaFound(fs, t.header);
    SchemaFound(fs, body);
    SchemaFound(fs, t.trailer);
    forall k: nat | k < |fs|
      ensures Claimed(fs, t.header, k, false) || Claimed(fs, body, k, false) || Claimed(fs, t.trailer, k, false)
    {
      assert CoveredBy(t, fs, body, k);
    }
  }

  /** What conforms is accepted, if it can be told where its groups end. */
  lemma ConformingIsAccepted(t: Tables, fs: seq<Field>, params: SessionParameters)
    requires |t.header| >= 3 && TablesDistinct(t) && Conforms(t, fs, params, true)
    ensures Accepts(t, fs, params)
  {
    var msgType := fs[2].value;
    var body := t.registry(msgType).value;
    HeaderExactly(t, fs, msgType, params);
    SchemaTaken(fs, t.header);
    SchemaTaken(fs, body);
    SchemaTaken(fs, t.trailer);
  }

  /** A message with a value that does not look as the schema asks, where its tag first occurs, is not accepted. */
  lemma IllTypedIsReported(t: Tables, fs: seq<Field>, params: SessionParameters, s: nat, j: nat, i: nat)
    requires |t.header| >= 3 && LastValue(fs, 35).Some? && t.registry(LastValue(fs, 35).value).Some?
    requires s < 3 && j < |Schemas(t, fs)[s]| && FirstWith(fs, Schemas(t, fs)[s][j].member.tag) == Some(i)
    requires !Looks(Schemas(t, fs)[s][j].member.kind, fs[i].value)
    requires Schemas(t, fs)[s][j].member.kind != Group
    ensures !Accepts(t, fs, params)
  {
    if Accepts(t, fs, params) {
      AcceptsEach(t, fs, params, s);
      assert FieldRule(fs, Schemas(t, fs)[s][j]);
      TypeExactly(fs[i].value, Schemas(t, fs)[s][j].member.kind);
    }
  }

  /** A message of a registered type is none of the session's business exactly if it is no FIX 4.4 message, or if
      its length and type are in place and its number is none, or its parties are others. */
  lemma FatalExactly(t: Tables, fs: seq<Field>, params: SessionParameters, msgType: Wire)
    requires |t.header| >= 3 && LastValue(fs, 35) == Some(msgType)
    requires t.header[..3] == STANDARD_HEADER[..3]
    ensures HeaderFatal(t, fs, msgType, params) <==>
            || |fs| < 3 || fs[0].value != [70, 73, 88, 46, 52, 46, 52]
            || (&& Digits(Unsigned(fs[1].value)) && fs[2].value == msgType
                && (|| LastValue(fs, 34).None? || !Digits(Unsigned(LastValue(fs, 34).value))
                    || LastValue(fs, 49) != Some(params.targetCompId)
                    || LastValue(fs, 56) != Some(params.senderCompId)))
  {
    assert t.header[0] == t.header[..3][0] && t.header[1] == t.header[..3][1] && t.header[2] == t.header[..3][2];
    if |fs| >= 3 {
      TypeExactly(fs[0].value, String);
      TypeExactly(fs[1].value, Int);
      TypeExactly(fs[2].value, String);
    }
    if LastValue(fs, 34).Some? {
      TypeExactly(LastValue(fs, 34).value, Int);
    }
  }

  /** No group of the schema occurs. */
  ghost predicate NoGroupIn(fs: seq<Field>, schema: seq<FieldSchema>) {
    forall j {:trigger schema[j]} | 0 <= j < |schema| && schema[j].member.kind == Group ::
      FirstWith(fs, schema[j].member.tag).None?
  }

  lemma ClearWithoutGroups(fs: seq<Field>, schema: seq<FieldSchema>)
    requires NoGroupIn(fs, schema) && SchemaConforms(fs, schema, false)
    ensures SchemaConforms(fs, schema, true)
    ensures forall k: nat | Claimed(fs, schema, k, false) :: Claimed(fs, schema, k, true)
  {
    forall j, i, e: nat | 0 <= j < |schema| && FirstWith(fs, schema[j].member.tag) == Some(i)
      ensures FieldReaches(fs, schema[j], i, e, false) ==> FieldReaches(fs, schema[j], i, e, true)
    {
    }
    forall k: nat | Claimed(fs, schema, k, false) ensures Claimed(fs, schema, k, true) {
      var j :| 0 <= j < |schema| && StandsFor(fs, schema[j], k, false);
      var i := FirstWith(fs, schema[j].member.tag).value;
      var e: nat :| k < e && FieldReaches(fs, schema[j], i, e, false);
      assert FieldReaches(fs, schema[j], i, e, true);
      assert StandsFor(fs, schema[j], k, true);
    }
  }

  /** Without groups, exactly what conforms is accepted. */
  lemma AcceptsExactly(t: Tables, fs: seq<Field>, params: SessionParameters, msgType: Wire, body: seq<FieldSchema>)
    requires |t.header| >= 3 && TablesDistinct(t)
    requires LastValue(fs, 35) == Some(msgType) && t.registry(msgType) == Some(body)
    requires NoGroupIn(fs, t.header) && NoGroupIn(fs, body) && NoGroupIn(fs, t.trailer)
    ensures Accepts(t, fs, params) <==> Conforms(t, fs, params, true)
  {
    if Accepts(t, fs, params) {
      AcceptedConforms(t, fs, params);
      ClearWithoutGroups(fs, t.header);
      ClearWithoutGroups(fs, body);
      ClearWithoutGroups(fs, t.trailer);
    }
    if Conforms(t, fs, params, true) {
      ConformingIsAccepted(t, fs, params);
    }
  }
}
