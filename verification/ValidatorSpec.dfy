/** What it takes for a message to be accepted: header, schema, repeating groups, and no field left
    over. Schemas are tables. */
module ValidatorSpec {
  import opened Bytes
  import opened Decimals
  import opened Wires
  import opened MessageStores

  datatype FieldType = Int | String | Boolean | Float | Double | Char | Group

  datatype Presence = Required | Optional | Conditional

  /** A field of a schema. The members of a repeating group are in `group`; there is no group in a
      group. */
  datatype Member = Member(tag: nat, kind: FieldType, presence: Presence)

  datatype FieldSchema = FieldSchema(member: Member, group: Option<seq<Member>>)

  datatype Tables = Tables(
    header: seq<FieldSchema>, trailer: seq<FieldSchema>, registry: Wire -> Option<seq<FieldSchema>>)

  datatype SessionParameters = SessionParameters(senderCompId: Wire, targetCompId: Wire)

  // ---- the standard header and trailer ----

  function Plain(tag: nat, kind: FieldType, presence: Presence): FieldSchema {
    FieldSchema(Member(tag, kind, presence), None)
  }

  const HOPS: seq<Member> := [
    Member(628, String, Optional),
    Member(629, String, Optional),
    Member(630, Int, Optional)]

  const STANDARD_HEADER: seq<FieldSchema> := [
    Plain(8, String, Required),
    Plain(9, Int, Required),
    Plain(35, String, Required),
    Plain(49, String, Required),
    Plain(56, String, Required),
    Plain(34, Int, Required),
    Plain(52, String, Required),
    Plain(115, String, Optional),
    Plain(128, String, Optional),
    Plain(90, Int, Optional),
    Plain(91, String, Optional),
    Plain(50, String, Optional),
    Plain(142, String, Optional),
    Plain(57, String, Optional),
    Plain(143, String, Optional),
    Plain(116, String, Optional),
    Plain(144, String, Optional),
    Plain(129, String, Optional),
    Plain(145, String, Optional),
    Plain(43, String, Optional),
    Plain(97, Boolean, Optional),
    Plain(122, String, Optional),
    Plain(212, Int, Optional),
    Plain(213, String, Optional),
    Plain(347, String, Optional),
    Plain(369, Int, Optional),
    FieldSchema(Member(627, Group, Optional), Some(HOPS))]

  const STANDARD_TRAILER: seq<FieldSchema> := [
    Plain(10, Int, Required),
    Plain(83, String, Optional),
    Plain(93, Int, Optional)]

  // ---- values ----

  predicate IsInt(v: Wire) {
    var first := if v != [] && (v[0] == 43 || v[0] == 45) then 1 else 0;
    v != [] && first < |v| && AllDigits(v[first..])
  }

  predicate IsBoolean(v: Wire) {
    v == [89] || v == [78]
  }

  /** Digits with at most one point among them, that is not counted if it comes after `dot`. */
  predicate DigitsAndPoint(v: Wire, dot: bool) {
    if v == [] then true
    else if v[0] == 46 && !dot then DigitsAndPoint(v[1..], true)
    else IsDigit(v[0]) && DigitsAndPoint(v[1..], dot)
  }

  /** Behind a lone sign the code looks at the byte after the value, which is SOH. */
  predicate IsDouble(v: Wire) {
    var first := if v != [] && (v[0] == 43 || v[0] == 45) then 1 else 0;
    v != [] && first < |v| && IsDigit(v[first]) && DigitsAndPoint(v[first + 1..], false)
  }

  predicate TypeOk(v: Wire, kind: FieldType) {
    match kind
    case Group => IsInt(v)
    case Int => IsInt(v)
    case String => true
    case Boolean => IsBoolean(v)
    case Float => IsDouble(v)
    case Double => IsDouble(v)
    case Char => |v| == 1
  }

  const MAX_INT: nat := 0x7FFF_FFFF

  /** A count: a number that fits an `int` and is not negative ("-0" is one). */
  function ParseCount(v: Wire): Option<nat> {
    if v != [] && v[0] == 45 then
      if ParseDec(v[1..]) == Some(0) then Some(0) else None
    else
      match ParseDec(v)
      case None => None
      case Some(n) => if n <= MAX_INT then Some(n) else None
  }

  // ---- repeating groups ----

  /** Where an entry of a group ends that starts at `idx`: the members in schema order, optional ones
      may be missing, up to the end of the schema or a tag that was there already. */
  function EntryEnd(fs: seq<Field>, gs: seq<Member>, j: nat, idx: nat, seen: set<nat>): (r: Option<nat>)
    requires j <= |gs|
    ensures r.Some? ==> idx <= r.value <= Max(idx, |fs|)
    decreases |gs| - j
  {
    if j == |gs| then Some(idx)
    else if idx >= |fs| then None
    else if fs[idx].tag != gs[j].tag then
      if gs[j].presence == Required then None else EntryEnd(fs, gs, j + 1, idx, seen)
    else if fs[idx].tag in seen then Some(idx)
    else if !TypeOk(fs[idx].value, gs[j].kind) then None
    else EntryEnd(fs, gs, j + 1, idx + 1, seen + {fs[idx].tag})
  }

  /** Where `n` entries end. No entry is empty. */
  function GroupEnd(fs: seq<Field>, gs: seq<Member>, n: nat, idx: nat): (r: Option<nat>)
    ensures r.Some? ==> idx <= r.value <= Max(idx, |fs|)
    decreases n
  {
    if n == 0 then Some(idx)
    else
      match EntryEnd(fs, gs, 0, idx, {})
      case None => None
      case Some(e) => if e == idx then None else GroupEnd(fs, gs, n - 1, e)
  }

  const MAX_GROUP_FIELDS: nat := 32

  /** Where the entries of a group field end, if they are in order. */
  function EntriesEnd(fs: seq<Field>, f: FieldSchema, n: nat, idx: nat): (r: Option<nat>)
    ensures r.Some? ==> idx <= r.value <= Max(idx, |fs|)
  {
    if n == 0 then Some(idx)
    else if f.group.None? || f.group.value == [] || |f.group.value| > MAX_GROUP_FIELDS then None
    else GroupEnd(fs, f.group.value, n, idx)
  }

  // ---- one field of a schema ----

  function FirstWith(fs: seq<Field>, tag: nat): (i: Option<nat>)
    ensures i.Some? ==> i.value < |fs| && fs[i.value].tag == tag
    ensures i.Some? ==> forall j | 0 <= j < i.value :: fs[j].tag != tag
    ensures i.None? ==> forall j | 0 <= j < |fs| :: fs[j].tag != tag
  {
    if fs == [] then None
    else if FirstWith(fs[..|fs| - 1], tag).Some? then FirstWith(fs[..|fs| - 1], tag)
    else if fs[|fs| - 1].tag == tag then Some(|fs| - 1)
    else None
  }

  /** Where the fields end that the field of the schema accounts for: its own, and the group behind it. */
  function FieldEnd(fs: seq<Field>, f: FieldSchema, i: nat): (r: Option<nat>)
    requires i < |fs|
    ensures r.Some? ==> i < r.value <= |fs|
  {
    if f.member.kind == Group then
      match ParseCount(fs[i].value)
      case None => None
      case Some(n) => EntriesEnd(fs, f, n, i + 1)
    else if TypeOk(fs[i].value, f.member.kind) then Some(i + 1)
    else None
  }

  /** A field of a schema is as it should be: well-formed where it first occurs, or absent if it may be. */
  predicate FieldRule(fs: seq<Field>, f: FieldSchema) {
    match FirstWith(fs, f.member.tag)
    case None => f.member.presence != Required
    case Some(i) => FieldEnd(fs, f, i).Some?
  }

  /** Field `k` of the message is accounted for by `f`. */
  predicate AccountsFor(fs: seq<Field>, f: FieldSchema, k: nat) {
    var i := FirstWith(fs, f.member.tag);
    i.Some? && i.value <= k && FieldEnd(fs, f, i.value).Some? && k < FieldEnd(fs, f, i.value).value
  }

  ghost predicate SchemaRule(fs: seq<Field>, schema: seq<FieldSchema>) {
    forall j | 0 <= j < |schema| :: FieldRule(fs, schema[j])
  }

  ghost predicate Covers(fs: seq<Field>, schema: seq<FieldSchema>, k: nat) {
    exists j | 0 <= j < |schema| :: AccountsFor(fs, schema[j], k)
  }

  // ---- the header ----

  function LastValue(fs: seq<Field>, tag: nat): Option<Wire> {
    match LastWith(fs, tag)
    case None => None
    case Some(i) => Some(fs[i].value)
  }

  /** The version, the length and the type come first; the parties are the session's. */
  predicate HeaderRule(t: Tables, fs: seq<Field>, msgType: Wire, params: SessionParameters)
    requires |t.header| >= 3
  {
    && |fs| >= 3
    && TypeOk(fs[0].value, t.header[0].member.kind) && fs[0].value == VERSION
    && TypeOk(fs[1].value, t.header[1].member.kind)
    && TypeOk(fs[2].value, t.header[2].member.kind) && fs[2].value == msgType
    && LastValue(fs, 34).Some? && TypeOk(LastValue(fs, 34).value, Int)
    && LastValue(fs, 49) == Some(params.targetCompId)
    && LastValue(fs, 56) == Some(params.senderCompId)
  }

  /** A message is accepted. */
  ghost predicate Accepts(t: Tables, fs: seq<Field>, params: SessionParameters)
    requires |t.header| >= 3
  {
    var msgType := LastValue(fs, 35);
    && msgType.Some? && t.registry(msgType.value).Some?
    && HeaderRule(t, fs, msgType.value, params)
    && SchemaRule(fs, t.header) && SchemaRule(fs, t.registry(msgType.value).value)
    && SchemaRule(fs, t.trailer)
    && forall k: nat | k < |fs| :: CoveredBy(t, fs, t.registry(msgType.value).value, k)
  }

  /** Field `k` is accounted for by header, body or trailer. */
  ghost predicate CoveredBy(t: Tables, fs: seq<Field>, body: seq<FieldSchema>, k: nat) {
    Covers(fs, t.header, k) || Covers(fs, body, k) || Covers(fs, t.trailer, k)
  }

  // ---- what acceptance means ----

  /** The fields `lo` to `hi` are one entry: members of the group in schema order, each at most once and
      of its type, and all required ones are there. */
  predicate InOrder(fs: seq<Field>, gs: seq<Member>, j: nat, lo: nat, hi: nat)
    requires j <= |gs| && lo <= hi <= |fs|
    decreases |gs| - j
  {
    if j == |gs| then lo == hi
    else
      || (lo < hi && fs[lo].tag == gs[j].tag && TypeOk(fs[lo].value, gs[j].kind)
          && InOrder(fs, gs, j + 1, lo + 1, hi))
      || (gs[j].presence != Required && InOrder(fs, gs, j + 1, lo, hi))
  }

  predicate DistinctTags(gs: seq<Member>) {
    forall i, j | 0 <= i < j < |gs| :: gs[i].tag != gs[j].tag
  }

  /** The walk through one entry stops where an entry is complete. */
  lemma {:induction false} EntryIsInOrder(fs: seq<Field>, gs: seq<Member>, j: nat, idx: nat, seen: set<nat>)
    requires j <= |gs| && idx <= |fs| && DistinctTags(gs)
    requires forall i | j <= i < |gs| :: gs[i].tag !in seen
    requires EntryEnd(fs, gs, j, idx, seen).Some?
    ensures InOrder(fs, gs, j, idx, EntryEnd(fs, gs, j, idx, seen).value)
    decreases |gs| - j
  {
    if j < |gs| {
      if fs[idx].tag != gs[j].tag {
        EntryIsInOrder(fs, gs, j + 1, idx, seen);
      } else {
        EntryIsInOrder(fs, gs, j + 1, idx + 1, seen + {fs[idx].tag});
      }
    }
  }

  /** `cuts` divides the fields from `idx` on into entries. */
  ghost predicate Entries(fs: seq<Field>, gs: seq<Member>, cuts: seq<nat>) {
    && cuts != []
    && (forall i | 0 <= i < |cuts| :: cuts[i] <= |fs|)
    && forall i | 0 <= i < |cuts| - 1 :: cuts[i] < cuts[i + 1] && InOrder(fs, gs, 0, cuts[i], cuts[i + 1])
  }

  /** A group of `n` has exactly n entries, none empty, each in order. */
  lemma {:induction false} GroupIsEntries(fs: seq<Field>, gs: seq<Member>, n: nat, idx: nat)
    returns (cuts: seq<nat>)
    requires idx <= |fs| && DistinctTags(gs) && GroupEnd(fs, gs, n, idx).Some?
    ensures Entries(fs, gs, cuts) && |cuts| == n + 1
    ensures cuts[0] == idx && cuts[n] == GroupEnd(fs, gs, n, idx).value
    decreases n
  {
    if n == 0 {
      cuts := [idx];
    } else {
      var e := EntryEnd(fs, gs, 0, idx, {}).value;
      EntryIsInOrder(fs, gs, 0, idx, {});
      var rest := GroupIsEntries(fs, gs, n - 1, e);
      cuts := [idx] + rest;
      forall i | 0 <= i < |cuts| - 1 ensures cuts[i] < cuts[i + 1] && InOrder(fs, gs, 0, cuts[i], cuts[i + 1]) {
        if i > 0 {
          assert cuts[i] == rest[i - 1] && cuts[i + 1] == rest[i];
        }
      }
    }
  }

  /** Field `k` belongs to a repeating group whose count field comes before it. */
  ghost predicate InGroup(fs: seq<Field>, schema: seq<FieldSchema>, k: nat) {
    exists j | 0 <= j < |schema| ::
      && schema[j].member.kind == Group && AccountsFor(fs, schema[j], k)
      && FirstWith(fs, schema[j].member.tag).value < k
  }

  ghost predicate InSchema(schema: seq<FieldSchema>, tag: nat) {
    exists j | 0 <= j < |schema| :: schema[j].member.tag == tag
  }

  lemma CoveredIsKnown(fs: seq<Field>, schema: seq<FieldSchema>, k: nat)
    requires k < |fs| && Covers(fs, schema, k)
    ensures InGroup(fs, schema, k) || (InSchema(schema, fs[k].tag) && FirstWith(fs, fs[k].tag) == Some(k))
  {
    var j :| 0 <= j < |schema| && AccountsFor(fs, schema[j], k);
    var i := FirstWith(fs, schema[j].member.tag).value;
    if i == k {
      assert schema[j].member.tag == fs[k].tag;
    } else {
      assert schema[j].member.kind == Group;
    }
  }

  /** The three schemas of a message. */
  function Schemas(t: Tables, fs: seq<Field>): seq<seq<FieldSchema>>
    requires LastValue(fs, 35).Some? && t.registry(LastValue(fs, 35).value).Some?
  {
    [t.header, t.registry(LastValue(fs, 35).value).value, t.trailer]
  }

  lemma AcceptsEach(t: Tables, fs: seq<Field>, params: SessionParameters, s: nat)
    requires |t.header| >= 3 && Accepts(t, fs, params) && s < 3
    ensures SchemaRule(fs, Schemas(t, fs)[s])
  {
  }

  /** What acceptance rules out. Every required field of header, body and trailer is there. A field that
      is not in a repeating group has a tag of a schema and is the first with that tag: no tag is unknown,
      and outside of groups none occurs twice. */
  lemma AcceptedIsSound(t: Tables, fs: seq<Field>, params: SessionParameters)
    requires |t.header| >= 3 && Accepts(t, fs, params)
    ensures forall s, j | 0 <= s < 3 && 0 <= j < |Schemas(t, fs)[s]| ::
      Schemas(t, fs)[s][j].member.presence == Required ==> FirstWith(fs, Schemas(t, fs)[s][j].member.tag).Some?
    ensures forall k: nat | k < |fs| ::
      Grouped(t, fs, k) || (Known(t, fs, fs[k].tag) && FirstWith(fs, fs[k].tag) == Some(k))
    ensures forall i: nat, k: nat | i < k < |fs| && fs[i].tag == fs[k].tag :: Grouped(t, fs, k)
  {
    forall s, j | 0 <= s < 3 && 0 <= j < |Schemas(t, fs)[s]|
      ensures Schemas(t, fs)[s][j].member.presence == Required ==>
        FirstWith(fs, Schemas(t, fs)[s][j].member.tag).Some?
    {
      AcceptsEach(t, fs, params, s);
      assert FieldRule(fs, Schemas(t, fs)[s][j]);
    }
    forall k: nat | k < |fs|
      ensures Grouped(t, fs, k) || (Known(t, fs, fs[k].tag) && FirstWith(fs, fs[k].tag) == Some(k))
    {
      AcceptedField(t, fs, params, k);
    }
  }

  ghost predicate Grouped(t: Tables, fs: seq<Field>, k: nat)
    requires LastValue(fs, 35).Some? && t.registry(LastValue(fs, 35).value).Some?
  {
    exists s | 0 <= s < 3 :: InGroup(fs, Schemas(t, fs)[s], k)
  }

  ghost predicate Known(t: Tables, fs: seq<Field>, tag: nat)
    requires LastValue(fs, 35).Some? && t.registry(LastValue(fs, 35).value).Some?
  {
    exists s | 0 <= s < 3 :: InSchema(Schemas(t, fs)[s], tag)
  }

  lemma AcceptedField(t: Tables, fs: seq<Field>, params: SessionParameters, k: nat)
    requires |t.header| >= 3 && Accepts(t, fs, params) && k < |fs|
    ensures Grouped(t, fs, k) || (Known(t, fs, fs[k].tag) && FirstWith(fs, fs[k].tag) == Some(k))
  {
    var all := Schemas(t, fs);
    assert CoveredBy(t, fs, all[1], k);
    var s :=
      if Covers(fs, all[0], k) then 0 else if Covers(fs, all[1], k) then 1 else 2;
    assert Covers(fs, all[s], k);
    CoveredIsKnown(fs, all[s], k);
  }

  /** A group field of an accepted message counts what follows it: that many entries, none empty, each
      in schema order and with its required members. */
  lemma AcceptedGroup(t: Tables, fs: seq<Field>, params: SessionParameters, s: nat, j: nat, n: nat)
    returns (cuts: seq<nat>)
    requires |t.header| >= 3 && Accepts(t, fs, params) && s < 3 && j < |Schemas(t, fs)[s]|
    requires
      var f := Schemas(t, fs)[s][j];
      && f.member.kind == Group && FirstWith(fs, f.member.tag).Some?
      && ParseCount(fs[FirstWith(fs, f.member.tag).value].value) == Some(n) && n > 0
      && f.group.Some? && DistinctTags(f.group.value)
    ensures
      var f := Schemas(t, fs)[s][j];
      && Entries(fs, f.group.value, cuts) && |cuts| == n + 1
      && cuts[0] == FirstWith(fs, f.member.tag).value + 1
  {
    var f := Schemas(t, fs)[s][j];
    AcceptsEach(t, fs, params, s);
    assert FieldRule(fs, f);
    cuts := GroupIsEntries(fs, f.group.value, n, FirstWith(fs, f.member.tag).value + 1);
  }
}
