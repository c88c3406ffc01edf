/** What a validator that accepts a message makes of its resend: it accepts that too, and the gap fills
    beside it. */
module Acceptance {
  import opened Bytes
  import opened Decimals
  import opened Wires
  import opened MessageStores
  import opened MessageFields
  import opened ValidatorSpec

  // ---- schemas a field can be changed under ----

  predicate OutsideGroup(f: FieldSchema, tag: nat) {
    f.group.Some? ==> forall i | 0 <= i < |f.group.value| :: f.group.value[i].tag != tag
  }

  /** Wherever the schema names the tag, it takes the value, as a field of its own. */
  predicate TakesField(f: FieldSchema, tag: nat, v: Wire) {
    && OutsideGroup(f, tag)
    && (f.member.tag == tag ==> f.member.kind != Group && TypeOk(v, f.member.kind))
  }

  ghost predicate Takes(schema: seq<FieldSchema>, tag: nat, v: Wire) {
    forall j {:trigger schema[j]} | 0 <= j < |schema| :: TakesField(schema[j], tag, v)
  }

  /** Header, trailer and the schema of a body take the field. */
  ghost predicate AllTake(t: Tables, body: seq<FieldSchema>, tag: nat, v: Wire) {
    Takes(t.header, tag, v) && Takes(body, tag, v) && Takes(t.trailer, tag, v)
  }

  // ---- one value changed ----

  lemma {:induction false} EntryEndUpdated(fs: seq<Field>, i: nat, v: Wire,
                                           gs: seq<Member>, j: nat, idx: nat, seen: set<nat>)
    requires i < |fs| && j <= |gs| && forall m | 0 <= m < |gs| :: gs[m].tag != fs[i].tag
    ensures EntryEnd(fs[i := Field(fs[i].tag, v)], gs, j, idx, seen) == EntryEnd(fs, gs, j, idx, seen)
    decreases |gs| - j
  {
    if j < |gs| && idx < |fs| {
      if fs[idx].tag != gs[j].tag {
        EntryEndUpdated(fs, i, v, gs, j + 1, idx, seen);
      } else {
        EntryEndUpdated(fs, i, v, gs, j + 1, idx + 1, seen + {fs[idx].tag});
      }
    }
  }

  lemma {:induction false} GroupEndUpdated(fs: seq<Field>, i: nat, v: Wire,
                                           gs: seq<Member>, n: nat, idx: nat)
    requires i < |fs| && forall m | 0 <= m < |gs| :: gs[m].tag != fs[i].tag
    ensures GroupEnd(fs[i := Field(fs[i].tag, v)], gs, n, idx) == GroupEnd(fs, gs, n, idx)
    decreases n
  {
    if n > 0 {
      EntryEndUpdated(fs, i, v, gs, 0, idx, {});
      var e := EntryEnd(fs, gs, 0, idx, {});
      if e.Some? {
        GroupEndUpdated(fs, i, v, gs, n - 1, e.value);
      }
    }
  }

  /** A field of a schema accounts for the same fields as before. */
  lemma FieldUpdated(fs: seq<Field>, i: nat, v: Wire, f: FieldSchema)
    requires i < |fs| && TakesField(f, fs[i].tag, v) && FieldRule(fs, f)
    ensures
      var gs, first := fs[i := Field(fs[i].tag, v)], FirstWith(fs, f.member.tag);
      && FieldRule(gs, f) && FirstWith(gs, f.member.tag) == first
      && (first.Some? ==> FieldEnd(gs, f, first.value) == FieldEnd(fs, f, first.value))
  {
    var gs, first := fs[i := Field(fs[i].tag, v)], FirstWith(fs, f.member.tag);
    assert forall k | 0 <= k < |fs| :: gs[k].tag == fs[k].tag;
    if first.Some? && f.member.kind == Group && f.group.Some? && ParseCount(fs[first.value].value).Some? {
      GroupEndUpdated(fs, i, v, f.group.value, ParseCount(fs[first.value].value).value, first.value + 1);
    }
  }

  lemma SchemaUpdated(fs: seq<Field>, i: nat, v: Wire, schema: seq<FieldSchema>)
    requires i < |fs| && Takes(schema, fs[i].tag, v) && SchemaRule(fs, schema)
    ensures SchemaRule(fs[i := Field(fs[i].tag, v)], schema)
    ensures forall k: nat | Covers(fs, schema, k) :: Covers(fs[i := Field(fs[i].tag, v)], schema, k)
  {
    forall j | 0 <= j < |schema|
      ensures FieldRule(fs[i := Field(fs[i].tag, v)], schema[j])
      ensures forall k: nat | AccountsFor(fs, schema[j], k) ::
        AccountsFor(fs[i := Field(fs[i].tag, v)], schema[j], k)
    {
      assert FieldRule(fs, schema[j]);
      FieldUpdated(fs, i, v, schema[j]);
    }
  }

  lemma HeaderUpdated(t: Tables, fs: seq<Field>, msgType: Wire, params: SessionParameters, i: nat, v: Wire,
                      gs: seq<Field>)
    requires |t.header| >= 3 && HeaderRule(t, fs, msgType, params)
    requires i < |fs| && (i == 1 || i >= 3) && fs[i].tag !in {34, 35, 49, 56}
    requires i == 1 ==> TypeOk(v, t.header[1].member.kind)
    requires gs == fs[i := Field(fs[i].tag, v)]
    ensures HeaderRule(t, gs, msgType, params) && LastValue(gs, 35) == LastValue(fs, 35)
  {
    assert forall k | 0 <= k < |fs| :: gs[k].tag == fs[k].tag;
  }

  lemma UpdateKeepsRules(t: Tables, fs: seq<Field>, i: nat, v: Wire, body: seq<FieldSchema>, gs: seq<Field>)
    requires i < |fs| && AllTake(t, body, fs[i].tag, v) && gs == fs[i := Field(fs[i].tag, v)]
    requires SchemaRule(fs, t.header) && SchemaRule(fs, body) && SchemaRule(fs, t.trailer)
    requires forall k: nat | k < |fs| :: CoveredBy(t, fs, body, k)
    ensures SchemaRule(gs, t.header) && SchemaRule(gs, body) && SchemaRule(gs, t.trailer)
    ensures forall k: nat | k < |gs| :: CoveredBy(t, gs, body, k)
  {
    SchemaUpdated(fs, i, v, t.header);
    SchemaUpdated(fs, i, v, body);
    SchemaUpdated(fs, i, v, t.trailer);
    forall k: nat | k < |gs| ensures CoveredBy(t, gs, body, k) {
      assert CoveredBy(t, fs, body, k);
    }
  }

  /** An accepted message stays accepted with another value in a field the header rule does not read. */
  lemma UpdateAccepted(t: Tables, fs: seq<Field>, params: SessionParameters, i: nat, v: Wire)
    returns (gs: seq<Field>)
    requires |t.header| >= 3 && Accepts(t, fs, params)
    requires i < |fs| && (i == 1 || i >= 3) && fs[i].tag !in {34, 35, 49, 56}
    requires i == 1 ==> TypeOk(v, t.header[1].member.kind)
    requires AllTake(t, t.registry(LastValue(fs, 35).value).value, fs[i].tag, v)
    ensures gs == fs[i := Field(fs[i].tag, v)] && Accepts(t, gs, params)
    ensures LastValue(gs, 35) == LastValue(fs, 35)
  {
    gs := fs[i := Field(fs[i].tag, v)];
    var msgType := LastValue(fs, 35).value;
    var body := t.registry(msgType).value;
    HeaderUpdated(t, fs, msgType, params, i, v, gs);
    UpdateKeepsRules(t, fs, i, v, body, gs);
  }

  // ---- one field inserted before the last ----

  lemma {:induction false} EntryEndInserted(fs: seq<Field>, x: Field, z: Field,
                                            gs: seq<Member>, j: nat, idx: nat, seen: set<nat>)
    requires j <= |gs| && idx <= |fs| && forall m | 0 <= m < |gs| :: gs[m].tag != x.tag && gs[m].tag != z.tag
    ensures EntryEnd(fs + [x, z], gs, j, idx, seen) == EntryEnd(fs + [z], gs, j, idx, seen)
    ensures var e := EntryEnd(fs + [z], gs, j, idx, seen); e.Some? ==> e.value <= |fs|
    decreases |gs| - j
  {
    if j < |gs| {
      if idx == |fs| || fs[idx].tag != gs[j].tag {
        EntryEndInserted(fs, x, z, gs, j + 1, idx, seen);
      } else {
        EntryEndInserted(fs, x, z, gs, j + 1, idx + 1, seen + {fs[idx].tag});
      }
    }
  }

  lemma {:induction false} GroupEndInserted(fs: seq<Field>, x: Field, z: Field,
                                            gs: seq<Member>, n: nat, idx: nat)
    requires idx <= |fs| && forall m | 0 <= m < |gs| :: gs[m].tag != x.tag && gs[m].tag != z.tag
    ensures GroupEnd(fs + [x, z], gs, n, idx) == GroupEnd(fs + [z], gs, n, idx)
    ensures var e := GroupEnd(fs + [z], gs, n, idx); e.Some? ==> e.value <= |fs|
    decreases n
  {
    if n > 0 {
      EntryEndInserted(fs, x, z, gs, 0, idx, {});
      var e := EntryEnd(fs + [z], gs, 0, idx, {});
      if e.Some? {
        GroupEndInserted(fs, x, z, gs, n - 1, e.value);
      }
    }
  }

  /** Where a field of a schema ends, before the inserted field and behind it. */
  lemma EndInserted(fs: seq<Field>, x: Field, z: Field, f: FieldSchema, i: nat)
    requires TakesField(f, x.tag, x.value) && TakesField(f, z.tag, z.value)
    requires i <= |fs| && (fs + [z])[i].tag == f.member.tag && FieldEnd(fs + [z], f, i).Some?
    ensures
      var e := FieldEnd(fs + [z], f, i).value;
      if i < |fs| then e <= |fs| && FieldEnd(fs + [x, z], f, i) == Some(e)
      else e == |fs| + 1 && FieldEnd(fs + [x, z], f, |fs| + 1) == Some(|fs| + 2)
  {
    if i < |fs| && f.member.kind == Group && f.group.Some? {
      GroupEndInserted(fs, x, z, f.group.value, ParseCount(fs[i].value).value, i + 1);
    }
  }

  lemma FirstInserted(fs: seq<Field>, x: Field, z: Field, tag: nat)
    requires FirstWith(fs + [z], x.tag).None?
    ensures
      var first := FirstWith(fs + [z], tag);
      FirstWith(fs + [x, z], tag) ==
      if tag == x.tag then Some(|fs|) else if first == Some(|fs|) then Some(|fs| + 1) else first
  {
    var gs, hs := fs + [z], fs + [x, z];
    assert hs[|fs|] == x && hs[|fs| + 1] == z;
    assert forall k | 0 <= k < |fs| :: hs[k] == fs[k] == gs[k];
    assert gs[|fs|] == z;
    assert z.tag != x.tag;
  }

  lemma LastInserted(fs: seq<Field>, x: Field, z: Field, tag: nat)
    requires tag != x.tag && tag != z.tag
    ensures LastWith(fs + [x, z], tag) == LastWith(fs + [z], tag)
    ensures LastValue(fs + [x, z], tag) == LastValue(fs + [z], tag)
  {
    var gs, hs := fs + [z], fs + [x, z];
    assert hs[|fs|] == x && hs[|fs| + 1] == z;
    assert forall k | 0 <= k < |fs| :: hs[k] == fs[k] == gs[k];
    assert gs[|fs|] == z;
  }

  lemma FieldInserted(fs: seq<Field>, x: Field, z: Field, f: FieldSchema)
    requires FirstWith(fs + [z], x.tag).None?
    requires TakesField(f, x.tag, x.value) && TakesField(f, z.tag, z.value) && FieldRule(fs + [z], f)
    ensures FieldRule(fs + [x, z], f)
    ensures forall k: nat | AccountsFor(fs + [z], f, k) ::
      AccountsFor(fs + [x, z], f, if k < |fs| then k else |fs| + 1)
    ensures f.member.tag == x.tag ==> AccountsFor(fs + [x, z], f, |fs|)
  {
    FirstInserted(fs, x, z, f.member.tag);
    var first := FirstWith(fs + [z], f.member.tag);
    if first.Some? {
      EndInserted(fs, x, z, f, first.value);
    }
  }

  lemma SchemaInserted(fs: seq<Field>, x: Field, z: Field, schema: seq<FieldSchema>)
    requires FirstWith(fs + [z], x.tag).None?
    requires Takes(schema, x.tag, x.value) && Takes(schema, z.tag, z.value)
    requires SchemaRule(fs + [z], schema)
    ensures SchemaRule(fs + [x, z], schema)
    ensures forall k: nat | Covers(fs + [z], schema, k) ::
      Covers(fs + [x, z], schema, if k < |fs| then k else |fs| + 1)
    ensures InSchema(schema, x.tag) ==> Covers(fs + [x, z], schema, |fs|)
  {
    forall j | 0 <= j < |schema|
      ensures FieldRule(fs + [x, z], schema[j])
      ensures forall k: nat | AccountsFor(fs + [z], schema[j], k) ::
        AccountsFor(fs + [x, z], schema[j], if k < |fs| then k else |fs| + 1)
      ensures schema[j].member.tag == x.tag ==> AccountsFor(fs + [x, z], schema[j], |fs|)
    {
      assert FieldRule(fs + [z], schema[j]);
      FieldInserted(fs, x, z, schema[j]);
    }
  }

  lemma HeaderInserted(t: Tables, fs: seq<Field>, msgType: Wire, params: SessionParameters, x: Field, z: Field)
    requires |t.header| >= 3 && |fs| >= 3 && HeaderRule(t, fs + [z], msgType, params)
    requires x.tag !in {34, 35, 49, 56} && z.tag !in {34, 35, 49, 56}
    ensures HeaderRule(t, fs + [x, z], msgType, params)
    ensures LastValue(fs + [x, z], 35) == LastValue(fs + [z], 35)
  {
    LastInserted(fs, x, z, 34);
    LastInserted(fs, x, z, 35);
    LastInserted(fs, x, z, 49);
    LastInserted(fs, x, z, 56);
    assert forall k | 0 <= k < 3 :: (fs + [x, z])[k] == fs[k] == (fs + [z])[k];
  }

  /** A field covered before is covered where it is now. */
  lemma CoverInserted(t: Tables, fs: seq<Field>, x: Field, z: Field, body: seq<FieldSchema>, k: nat)
    requires FirstWith(fs + [z], x.tag).None? && k <= |fs|
    requires AllTake(t, body, x.tag, x.value) && AllTake(t, body, z.tag, z.value)
    requires SchemaRule(fs + [z], t.header) && SchemaRule(fs + [z], body) && SchemaRule(fs + [z], t.trailer)
    requires CoveredBy(t, fs + [z], body, k)
    ensures CoveredBy(t, fs + [x, z], body, if k < |fs| then k else |fs| + 1)
  {
    if Covers(fs + [z], t.header, k) {
      SchemaInserted(fs, x, z, t.header);
    } else if Covers(fs + [z], body, k) {
      SchemaInserted(fs, x, z, body);
    } else {
      SchemaInserted(fs, x, z, t.trailer);
    }
  }

  /** An accepted message stays accepted with a field of the header more. */
  lemma InsertAccepted(t: Tables, fs: seq<Field>, params: SessionParameters, x: Field, z: Field)
    returns (gs: seq<Field>)
    requires |t.header| >= 3 && |fs| >= 3 && Accepts(t, fs + [z], params)
    requires FirstWith(fs + [z], x.tag).None? && InSchema(t.header, x.tag)
    requires x.tag !in {34, 35, 49, 56} && z.tag !in {34, 35, 49, 56}
    requires
      var body := t.registry(LastValue(fs + [z], 35).value).value;
      AllTake(t, body, x.tag, x.value) && AllTake(t, body, z.tag, z.value)
    ensures gs == fs + [x, z] && Accepts(t, gs, params)
    ensures LastValue(gs, 35) == LastValue(fs + [z], 35)
  {
    var hs := fs + [z];
    gs := fs + [x, z];
    var msgType := LastValue(hs, 35).value;
    var body := t.registry(msgType).value;
    HeaderInserted(t, fs, msgType, params, x, z);
    InsertKeepsRules(t, fs, x, z, body, gs);
  }

  /** Header, body and trailer are followed as before, and every field is covered. */
  lemma InsertKeepsRules(t: Tables, fs: seq<Field>, x: Field, z: Field, body: seq<FieldSchema>, gs: seq<Field>)
    requires FirstWith(fs + [z], x.tag).None? && InSchema(t.header, x.tag) && gs == fs + [x, z]
    requires AllTake(t, body, x.tag, x.value) && AllTake(t, body, z.tag, z.value)
    requires SchemaRule(fs + [z], t.header) && SchemaRule(fs + [z], body) && SchemaRule(fs + [z], t.trailer)
    requires forall k: nat | k < |fs| + 1 :: CoveredBy(t, fs + [z], body, k)
    ensures SchemaRule(gs, t.header) && SchemaRule(gs, body) && SchemaRule(gs, t.trailer)
    ensures forall k: nat | k < |gs| :: CoveredBy(t, gs, body, k)
  {
    forall k: nat | k < |gs| ensures CoveredBy(t, gs, body, k) {
      if k == |fs| {
        SchemaInserted(fs, x, z, t.header);
      } else {
        CoverInserted(t, fs, x, z, body, if k < |fs| then k else |fs|);
      }
    }
    SchemaInserted(fs, x, z, t.header);
    SchemaInserted(fs, x, z, body);
    SchemaInserted(fs, x, z, t.trailer);
  }

  // ---- the standard header and trailer ----

  /** The fields that length, checksum and a resend set. */
  const RESENT: set<nat> := {9, 10, 43, 52, 122}

  predicate Silent(schema: seq<FieldSchema>, tag: nat) {
    forall j {:trigger schema[j]} | 0 <= j < |schema| ::
      schema[j].member.tag != tag && OutsideGroup(schema[j], tag)
  }

  /** Standard header and trailer; the schemas of the bodies leave those fields to them. */
  ghost predicate Standard(t: Tables) {
    && t.header == STANDARD_HEADER && t.trailer == STANDARD_TRAILER
    && forall w, tag | t.registry(w).Some? && tag in RESENT :: Silent(t.registry(w).value, tag)
  }

  lemma StandardTakes(t: Tables, body: seq<FieldSchema>, tag: nat, v: Wire)
    requires t.header == STANDARD_HEADER && t.trailer == STANDARD_TRAILER && tag in RESENT && Silent(body, tag)
    requires tag == 9 || tag == 10 ==> IsInt(v)
    ensures AllTake(t, body, tag, v)
  {
    assert forall j | 0 <= j < |HOPS| :: HOPS[j].tag >= 628;
  }

  lemma StandardHas(tag: nat)
    requires Changeable(tag)
    ensures InSchema(STANDARD_HEADER, tag)
  {
    assert STANDARD_HEADER[if tag == 43 then 19 else if tag == 52 then 6 else 21].member.tag == tag;
  }

  /** A message between its version and length and its checksum. */
  function Framed(length: Wire, fs: seq<Field>, checksum: Wire): seq<Field> {
    [Field(8, VERSION), Field(9, length)] + fs + [Field(10, checksum)]
  }

  /** The type comes first. */
  predicate Typed(fs: seq<Field>) {
    fs != [] && fs[0].tag == 35
  }

  /** One value set anew in a field of a resend, its length or its checksum. */
  lemma ValueAccepted(t: Tables, params: SessionParameters, all: seq<Field>, i: nat, f: Field)
    requires Standard(t) && Accepts(t, all, params)
    requires i < |all| && (i == 1 || i >= 3) && f.tag == all[i].tag && f.tag in RESENT
    requires f.tag == 9 || f.tag == 10 || i == 1 ==> IsInt(f.value)
    ensures Accepts(t, all[i := f], params)
  {
    StandardTakes(t, t.registry(LastValue(all, 35).value).value, f.tag, f.value);
    var gs := UpdateAccepted(t, all, params, i, f.value);
  }

  lemma FramedIs(length: Wire, fs: seq<Field>, checksum: Wire, x: Field)
    returns (front: seq<Field>, z: Field)
    requires Typed(fs) && Changeable(x.tag)
    ensures |front| >= 3 && z == Field(10, checksum)
    ensures Framed(length, fs, checksum) == front + [z] && Framed(length, fs + [x], checksum) == front + [x, z]
    ensures LastWith(fs, x.tag).None? ==> FirstWith(front + [z], x.tag).None?
  {
    front, z := [Field(8, VERSION), Field(9, length)] + fs, Field(10, checksum);
  }

  lemma FramedAt(length: Wire, fs: seq<Field>, checksum: Wire, i: nat, f: Field)
    requires i < |fs|
    ensures Framed(length, fs, checksum)[i + 2] == fs[i]
    ensures Framed(length, fs[i := f], checksum) == Framed(length, fs, checksum)[i + 2 := f]
  {
  }

  /** Setting a field of a resend keeps a message accepted. */
  lemma PutAccepted(t: Tables, params: SessionParameters, length: Wire, fs: seq<Field>, checksum: Wire,
                    tag: nat, v: Wire)
    returns (put: seq<Field>)
    requires Standard(t) && Typed(fs) && Changeable(tag) && IsInt(checksum)
    requires Accepts(t, Framed(length, fs, checksum), params)
    ensures put == Put(fs, tag, v) && Typed(put) && Accepts(t, Framed(length, put, checksum), params)
  {
    put := Put(fs, tag, v);
    var all := Framed(length, fs, checksum);
    match LastWith(fs, tag)
    case None =>
      var body := t.registry(LastValue(all, 35).value).value;
      StandardTakes(t, body, tag, v);
      StandardTakes(t, body, 10, checksum);
      StandardHas(tag);
      var front, z := FramedIs(length, fs, checksum, Field(tag, v));
      var gs := InsertAccepted(t, front, params, Field(tag, v), z);
      assert Framed(length, put, checksum) == gs;
    case Some(i) =>
      FramedAt(length, fs, checksum, i, Field(tag, v));
      assert Framed(length, put, checksum) == all[i + 2 := Field(tag, v)];
      ValueAccepted(t, params, all, i + 2, Field(tag, v));
  }

  lemma DigitsAreInt(v: Wire)
    requires v != [] && AllDigits(v)
    ensures IsInt(v)
  {
    assert v[0..] == v;
  }

  lemma AllFieldsFramed(fs: seq<Field>) returns (length: Wire, checksum: Wire)
    ensures AllFields(fs) == Framed(length, fs, checksum) && IsInt(length) && IsInt(checksum)
  {
    length, checksum := LengthField(Encode(fs)).value, ChecksumField(Encode(fs)).value;
    Pad3IsThreeDigits(Checksum(Prefix(Encode(fs))));
    DigitsAreInt(length);
    DigitsAreInt(checksum);
  }

  lemma Reframed(length: Wire, fs: seq<Field>, checksum: Wire, length': Wire, checksum': Wire)
    returns (all: seq<Field>, mid: seq<Field>, last: nat)
    requires fs != []
    ensures all == Framed(length, fs, checksum) && all[1].tag == 9
    ensures mid == all[1 := Field(9, length')] && 3 <= last < |mid| && mid[last].tag == 10
    ensures mid[last := Field(10, checksum')] == Framed(length', fs, checksum')
  {
    all, mid, last := Framed(length, fs, checksum), Framed(length', fs, checksum), |fs| + 2;
  }

  /** Another length and another checksum keep a message accepted. */
  lemma ReframedAccepted(t: Tables, params: SessionParameters, length: Wire, fs: seq<Field>, checksum: Wire,
                         length': Wire, checksum': Wire)
    requires Standard(t) && Typed(fs) && IsInt(length') && IsInt(checksum')
    requires Accepts(t, Framed(length, fs, checksum), params)
    ensures Accepts(t, Framed(length', fs, checksum'), params)
  {
    var all, mid, last := Reframed(length, fs, checksum, length', checksum');
    ValueAccepted(t, params, all, 1, Field(9, length'));
    ValueAccepted(t, params, mid, last, Field(10, checksum'));
  }

  /** A validator that accepts a message accepts its resend, whenever that is sent. */
  lemma RegenAccepted(t: Tables, params: SessionParameters, fs: seq<Field>, now: Wire)
    requires Standard(t) && Typed(fs) && LastWith(fs, 52).Some? && Accepts(t, AllFields(fs), params)
    ensures Accepts(t, AllFields(Regen(fs, now)), params)
  {
    var length, checksum := AllFieldsFramed(fs);
    var a := PutAccepted(t, params, length, fs, checksum, 43, YES);
    var b := PutAccepted(t, params, length, a, checksum, 122, SentAt(fs));
    var c := PutAccepted(t, params, length, b, checksum, 52, now);
    var length', checksum' := AllFieldsFramed(c);
    ReframedAccepted(t, params, length, c, checksum, length', checksum');
  }
}
