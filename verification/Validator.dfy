/** The validator: walks the schemas over a message, marks the fields they account for, and reports
    what is wrong. No report means the message is accepted. */
module Validators {
  import opened Bytes
  import opened Bits
  import opened Wires
  import opened Decimals
  import opened TagScratches
  import opened ValidatorSpec
  import opened Reports

  /** Repeating groups are flat. */
  predicate Flat(f: FieldSchema) {
    f.group.Some? ==> forall i | 0 <= i < |f.group.value| :: f.group.value[i].kind != Group
  }

  predicate AllFlat(schema: seq<FieldSchema>) {
    forall i | 0 <= i < |schema| :: Flat(schema[i])
  }

  /** The standard header and trailer are such schemas. */
  lemma StandardIsFlat()
    ensures |STANDARD_HEADER| >= 3 && AllFlat(STANDARD_HEADER) && AllFlat(STANDARD_TRAILER) && DistinctTags(HOPS)
  {
  }

  /** Not for this session: no FIX 4.4 message, no sequence number, or other parties. */
  predicate HeaderFatal(t: Tables, fs: seq<Field>, msgType: Wire, params: SessionParameters)
    requires |t.header| >= 3
  {
    || |fs| < 3 || !TypeOk(fs[0].value, t.header[0].member.kind) || fs[0].value != VERSION
    || (&& TypeOk(fs[1].value, t.header[1].member.kind)
        && TypeOk(fs[2].value, t.header[2].member.kind) && fs[2].value == msgType
        && (|| LastValue(fs, 34).None? || !TypeOk(LastValue(fs, 34).value, Int)
            || LastValue(fs, 49) != Some(params.targetCompId)
            || LastValue(fs, 56) != Some(params.senderCompId)))
  }

  /** A message that is none of the session's business is not accepted. */
  lemma FatalIsNotAccepted(t: Tables, fs: seq<Field>, params: SessionParameters)
    requires |t.header| >= 3 && LastValue(fs, 35).Some?
    requires HeaderFatal(t, fs, LastValue(fs, 35).value, params)
    ensures !Accepts(t, fs, params)
  {
  }

  class Validator {
    const tables: Tables
    const scratch: TagScratch
    var errors: seq<Report>
    var fatal: bool

    constructor (tables: Tables)
      ensures this.tables == tables && errors == [] && fresh(scratch)
    {
      this.tables, errors, fatal := tables, [], false;
      scratch := new TagScratch();
    }

    /** The scratch has room for a message. */
    predicate Fits(fs: seq<Field>)
      reads scratch
    {
      |scratch.data| >= |fs| / 64 + 1
    }

    method Push(tag: nat, code: Code)
      modifies this`errors
      ensures errors == old(errors) + [Report(tag, code)]
    {
      errors := errors + [Report(tag, code)];
    }

    method Fail(tag: nat, code: Code)
      modifies this`errors, this`fatal
      ensures errors == old(errors) + [Report(tag, code)] && fatal
    {
      Push(tag, code);
      fatal := true;
    }

    /** The validator's view of the type of a value. */
    method ValidateType(v: Wire, kind: FieldType) returns (ok: bool)
      ensures ok == TypeOk(v, kind)
    {
      match kind
      case Group => ok := IsIntType(v);
      case Int => ok := IsIntType(v);
      case String => ok := true;
      case Boolean => ok := v == [89] || v == [78];
      case Float => ok := IsDoubleType(v);
      case Double => ok := IsDoubleType(v);
      case Char => ok := |v| == 1;
    }

    /** One entry of a group, from `start` on. */
    method ValidateEntry(fs: seq<Field>, gs: seq<Member>, start: nat) returns (ok: bool, idx: nat, some: bool)
      requires Fits(fs) && start <= |fs|
      modifies this`errors, scratch
      ensures |scratch.data| == |old(scratch.data)| && errors == old(errors) + EntryFaults(fs, gs, 0, start, {})
      ensures ok <==> EntryEnd(fs, gs, 0, start, {}).Some?
      ensures ok ==> idx == EntryEnd(fs, gs, 0, start, {}).value && (some <==> idx > start)
      ensures ok ==> forall k: nat :: scratch.Marked(k) <==> old(scratch.Marked(k)) || start <= k < idx
    {
      ok, idx := true, start;
      var seen: set<nat>, j, done := {}, 0, false;
      ghost var end, faults := EntryEnd(fs, gs, 0, start, {}), EntryFaults(fs, gs, 0, start, {});
      while ok && !done && j < |gs|
        invariant start <= idx <= |fs| && j <= |gs|
        invariant |scratch.data| == |old(scratch.data)|
        invariant !ok ==> faults != [] && errors == old(errors) + faults
        invariant ok ==> errors == old(errors)
        invariant ok ==> end == if done then Some(idx) else EntryEnd(fs, gs, j, idx, seen)
        invariant ok ==> faults == if done then [] else EntryFaults(fs, gs, j, idx, seen)
        invariant seen != {} <==> idx > start
        invariant ok ==> forall k: nat :: scratch.Marked(k) <==> old(scratch.Marked(k)) || start <= k < idx
        decreases |gs| - j, !done, ok
      {
        if idx >= |fs| {
          Push(gs[j].tag, IncorrectNumInGroupCount);
          ok := false;
        } else if fs[idx].tag != gs[j].tag {
          if gs[j].presence == Required {
            Push(gs[j].tag, RequiredTagMissing);
            ok := false;
          } else {
            j := j + 1;
          }
        } else if fs[idx].tag in seen {
          done := true;
        } else {
          scratch.Set(idx);
          var typed := ValidateType(fs[idx].value, gs[j].kind);
          if !typed {
            Push(gs[j].tag, IncorrectDataFormatForValue);
            ok := false;
          } else {
            seen := seen + {fs[idx].tag};
            idx, j := idx + 1, j + 1;
          }
        }
      }
      some := seen != {};
    }

    /** The entries of a group, from `start` on. */
    method ValidateGroups(fs: seq<Field>, f: FieldSchema, n: nat, start: nat) returns (ok: bool, ghost end: nat)
      requires Fits(fs) && start <= |fs| && Flat(f)
      modifies this`errors, scratch
      ensures |scratch.data| == |old(scratch.data)| && errors == old(errors) + EntriesFaults(fs, f, n, start)
      ensures ok <==> EntriesEnd(fs, f, n, start).Some?
      ensures ok ==> end == EntriesEnd(fs, f, n, start).value
      ensures ok ==> forall k: nat :: scratch.Marked(k) <==> old(scratch.Marked(k)) || start <= k < end
    {
      ok, end := true, start;
      if n == 0 {
        return;
      }
      if f.group.None? || f.group.value == [] || |f.group.value| > MAX_GROUP_FIELDS {
        Push(f.member.tag, Other);
        ok := false;
        return;
      }
      var gs, idx, i := f.group.value, start, 0;
      ghost var target, faults := GroupEnd(fs, gs, n, start), GroupFaults(fs, f.member.tag, gs, n, start);
      while ok && i < n
        invariant i <= n && start <= idx <= |fs|
        invariant |scratch.data| == |old(scratch.data)|
        invariant !ok ==> faults != [] && errors == old(errors) + faults
        invariant ok ==> errors == old(errors) && target == GroupEnd(fs, gs, n - i, idx)
        invariant ok ==> faults == GroupFaults(fs, f.member.tag, gs, n - i, idx)
        invariant ok ==> forall k: nat :: scratch.Marked(k) <==> old(scratch.Marked(k)) || start <= k < idx
        decreases n - i, ok
      {
        var next, some;
        ok, next, some := ValidateEntry(fs, gs, idx);
        if ok {
          if !some {
            Push(f.member.tag, IncorrectNumInGroupCount);
            ok := false;
          } else {
            idx, i := next, i + 1;
          }
        }
      }
      end := idx;
    }

    /** One field of a schema. */
    method ValidateField(fs: seq<Field>, f: FieldSchema) returns (stop: bool)
      requires Fits(fs) && Flat(f)
      modifies this`errors, scratch
      ensures |scratch.data| == |old(scratch.data)|
      ensures errors == old(errors) + FieldFaults(fs, f) && (stop <==> !GoesOn(fs, f))
      ensures FieldRule(fs, f) ==>
        forall k: nat :: scratch.Marked(k) <==> old(scratch.Marked(k)) || AccountsFor(fs, f, k)
    {
      stop := false;
      match FirstWith(fs, f.member.tag)
      case None =>
        if f.member.presence == Required {
          Push(f.member.tag, RequiredTagMissing);
          stop := true;
        }
      case Some(i) =>
        scratch.Set(i);
        if f.member.kind == Group {
          match ParseCount(fs[i].value)
          case None =>
            Push(f.member.tag, IncorrectNumInGroupCount);
            stop := true;
          case Some(n) =>
            var ok;
            ghost var end;
            ok, end := ValidateGroups(fs, f, n, i + 1);
        } else {
          var typed := ValidateType(fs[i].value, f.member.kind);
          if !typed {
            Push(f.member.tag, IncorrectDataFormatForValue);
            stop := true;
          }
        }
    }

    /** The next field of a schema. */
    method ValidateNext(fs: seq<Field>, schema: seq<FieldSchema>, i: nat, ghost e: seq<Report>, ghost d: seq<Word>)
      returns (stop: bool)
      requires Fits(fs) && i < |schema| && Flat(schema[i])
      requires Walked(fs, schema, i, false, e, errors, d, scratch.data)
      modifies this`errors, scratch
      ensures |scratch.data| == |old(scratch.data)| && Walked(fs, schema, i + 1, stop, e, errors, d, scratch.data)
    {
      ghost var marks, before := scratch.data, errors;
      stop := ValidateField(fs, schema[i]);
      FaultsWalked(fs, schema, i, stop, e, before, errors);
      if errors == e {
        assert forall k: nat {:trigger MarkedIn(scratch.data, k)} :: MarkedIn(scratch.data, k) <==> scratch.Marked(k);
        MarksMore(marks, scratch.data, d, fs, schema, i);
      }
    }

    /** All fields of a schema, up to the first that is missing or malformed. Reported is exactly what is wrong,
        and if that is nothing, exactly the fields that the schema accounts for are marked. */
    method ValidateFields(fs: seq<Field>, schema: seq<FieldSchema>)
      requires Fits(fs) && AllFlat(schema)
      modifies this`errors, scratch
      ensures |scratch.data| == |old(scratch.data)| && errors == old(errors) + SchemaFaults(fs, schema, 0)
      ensures SchemaFaults(fs, schema, 0) == [] ==> MarksAre(scratch.data, old(scratch.data), fs, schema)
    {
      var i, stop := 0, false;
      ghost var e, d := errors, scratch.data;
      while i < |schema| && !stop
        invariant i <= |schema| && |scratch.data| == |d| && Walked(fs, schema, i, stop, e, errors, d, scratch.data)
      {
        stop := ValidateNext(fs, schema, i, e, d);
        i := i + 1;
      }
      assert schema[..|schema|] == schema;
    }

    method ValidateHeader(fs: seq<Field>, msgType: Wire, params: SessionParameters)
      requires Fits(fs) && AllFlat(tables.header) && |tables.header| >= 3
      modifies this`errors, this`fatal, scratch
      ensures |scratch.data| == |old(scratch.data)|
      ensures errors == old(errors) + HeaderFaults(tables, fs, msgType, params)
      ensures HeaderFaults(tables, fs, msgType, params) == [] ==>
        MarksAre(scratch.data, old(scratch.data), fs, tables.header)
      ensures fatal <==> old(fatal) || HeaderFatal(tables, fs, msgType, params)
    {
      var h := tables.header;
      if |fs| < 3 {
        Fail(8, RequiredTagMissing);
        return;
      }
      var versionTyped := ValidateType(fs[0].value, h[0].member.kind);
      if !versionTyped || fs[0].value != VERSION {
        Fail(8, Other);
        return;
      }
      var lengthTyped := ValidateType(fs[1].value, h[1].member.kind);
      if !lengthTyped {
        Push(h[1].member.tag, IncorrectDataFormatForValue);
        return;
      }
      var typeTyped := ValidateType(fs[2].value, h[2].member.kind);
      if !typeTyped || fs[2].value != msgType {
        Push(h[2].member.tag, IncorrectDataFormatForValue);
        return;
      }
      ValidateParties(fs, msgType, params);
    }

    /** The number, the parties, and then every field of the header. */
    method ValidateParties(fs: seq<Field>, msgType: Wire, params: SessionParameters)
      requires Fits(fs) && AllFlat(tables.header) && |tables.header| >= 3 && |fs| >= 3
      requires TypeOk(fs[0].value, tables.header[0].member.kind) && fs[0].value == VERSION
      requires TypeOk(fs[1].value, tables.header[1].member.kind)
      requires TypeOk(fs[2].value, tables.header[2].member.kind) && fs[2].value == msgType
      modifies this`errors, this`fatal, scratch
      ensures |scratch.data| == |old(scratch.data)|
      ensures errors == old(errors) + HeaderFaults(tables, fs, msgType, params)
      ensures HeaderFaults(tables, fs, msgType, params) == [] ==>
        MarksAre(scratch.data, old(scratch.data), fs, tables.header)
      ensures fatal <==> old(fatal) || HeaderFatal(tables, fs, msgType, params)
    {
      var num := LastValue(fs, 34);
      var numTyped := false;
      if num.Some? {
        numTyped := ValidateType(num.value, Int);
      }
      if !numTyped {
        Fail(34, IncorrectDataFormatForValue);
      } else if LastValue(fs, 49) != Some(params.targetCompId) {
        Fail(49, CompIDProblem);
      } else if LastValue(fs, 56) != Some(params.senderCompId) {
        Fail(56, CompIDProblem);
      } else {
        ValidateFields(fs, tables.header);
      }
    }

    /** Reported is exactly what is wrong, and nothing exactly when the message is accepted. */
    method ValidateMessage(fs: seq<Field>, params: SessionParameters)
      requires |tables.header| >= 3 && AllFlat(tables.header) && AllFlat(tables.trailer)
      requires forall w :: tables.registry(w).Some? ==> AllFlat(tables.registry(w).value)
      modifies this`errors, this`fatal, scratch
      ensures errors == MessageFaults(tables, fs, params)
      ensures errors == [] <==> Accepts(tables, fs, params)
      ensures fatal <==> LastValue(fs, 35).Some? && tables.registry(LastValue(fs, 35).value).Some?
                         && HeaderFatal(tables, fs, LastValue(fs, 35).value, params)
    {
      scratch.EnsureBits(|fs|);
      scratch.Clear();
      errors, fatal := [], false;
      assert NoneMarked(scratch.data) by {
        assert forall k: nat {:trigger MarkedIn(scratch.data, k)} :: MarkedIn(scratch.data, k) <==> scratch.Marked(k);
      }
      match LastValue(fs, 35)
      case None => Push(35, RequiredTagMissing);
      case Some(msgType) =>
        match tables.registry(msgType)
        case None => Push(0, InvalidMsgType);
        case Some(body) => ValidateKnown(fs, msgType, body, params);
    }

    /** Marked by header, body and trailer in turn, are all fields accounted for? */
    method AllMarked(fs: seq<Field>, body: seq<FieldSchema>, ghost m0: seq<Word>, ghost m1: seq<Word>,
                     ghost m2: seq<Word>)
      returns (full: bool)
      requires Fits(fs) && NoneMarked(m0) && MarksAre(m1, m0, fs, tables.header) && MarksAre(m2, m1, fs, body)
      requires MarksAre(scratch.data, m2, fs, tables.trailer)
      ensures full <==> !HasStray(tables, fs, body)
    {
      full := scratch.Full(|fs|);
      FullMeans(tables, fs, body, m0, m1, m2, scratch.data);
      assert full <==> forall k: nat | k < |fs| :: MarkedIn(scratch.data, k) by {
        assert forall k: nat {:trigger scratch.Marked(k)} {:trigger MarkedIn(scratch.data, k)} ::
          scratch.Marked(k) <==> MarkedIn(scratch.data, k);
      }
    }

    /** The three schemas, one after the other. */
    method ValidateSchemas(fs: seq<Field>, msgType: Wire, body: seq<FieldSchema>, params: SessionParameters)
      returns (ghost m1: seq<Word>, ghost m2: seq<Word>)
      requires Fits(fs) && |tables.header| >= 3 && errors == [] && !fatal
      requires AllFlat(tables.header) && AllFlat(tables.trailer) && AllFlat(body)
      modifies this`errors, this`fatal, scratch
      ensures Fits(fs) && errors == KnownFaults(tables, fs, msgType, body, params)
      ensures fatal <==> HeaderFatal(tables, fs, msgType, params)
      ensures errors == [] ==>
        && MarksAre(m1, old(scratch.data), fs, tables.header) && MarksAre(m2, m1, fs, body)
        && MarksAre(scratch.data, m2, fs, tables.trailer)
    {
      ghost var a := HeaderFaults(tables, fs, msgType, params);
      ghost var b, c := SchemaFaults(fs, body, 0), SchemaFaults(fs, tables.trailer, 0);
      ValidateHeader(fs, msgType, params);
      assert errors == a;
      m1 := scratch.data;
      ValidateFields(fs, body);
      assert errors == a + b;
      m2 := scratch.data;
      ValidateFields(fs, tables.trailer);
      assert errors == a + b + c;
    }

    method ValidateKnown(fs: seq<Field>, msgType: Wire, body: seq<FieldSchema>, params: SessionParameters)
      requires Fits(fs) && |tables.header| >= 3
      requires AllFlat(tables.header) && AllFlat(tables.trailer) && AllFlat(body)
      requires LastValue(fs, 35) == Some(msgType) && tables.registry(msgType) == Some(body)
      requires errors == [] && !fatal && NoneMarked(scratch.data)
      modifies this`errors, this`fatal, scratch
      ensures errors == MessageFaults(tables, fs, params)
      ensures fatal <==> HeaderFatal(tables, fs, msgType, params)
    {
      ghost var m0 := scratch.data;
      ghost var m1, m2 := ValidateSchemas(fs, msgType, body, params);
      if errors == [] {
        var full := AllMarked(fs, body, m0, m1, m2);
        if !full {
          Push(0, InvalidTagNumber);
        }
      }
    }
  }

  /** What is marked in `m` is what was marked in `d` and what the schema accounts for. */
  ghost predicate MarksAre(m: seq<Word>, d: seq<Word>, fs: seq<Field>, schema: seq<FieldSchema>) {
    forall k: nat {:trigger MarkedIn(m, k)} :: MarkedIn(m, k) <==> MarkedIn(d, k) || Covers(fs, schema, k)
  }

  lemma MarksMore(m: seq<Word>, m': seq<Word>, d: seq<Word>, fs: seq<Field>, schema: seq<FieldSchema>, i: nat)
    requires i < |schema| && MarksAre(m, d, fs, schema[..i])
    requires forall k: nat {:trigger MarkedIn(m', k)} ::
      MarkedIn(m', k) <==> MarkedIn(m, k) || AccountsFor(fs, schema[i], k)
    ensures MarksAre(m', d, fs, schema[..i + 1])
  {
    SchemaMore(fs, schema, i);
  }

  ghost predicate NoneMarked(m: seq<Word>) {
    forall k: nat {:trigger MarkedIn(m, k)} :: !MarkedIn(m, k)
  }

  /** Marked by header, body and trailer in turn, all fields are marked exactly if none is a stray one. */
  lemma FullMeans(t: Tables, fs: seq<Field>, body: seq<FieldSchema>, m0: seq<Word>, m1: seq<Word>, m2: seq<Word>,
                  m3: seq<Word>)
    requires NoneMarked(m0) && MarksAre(m1, m0, fs, t.header) && MarksAre(m2, m1, fs, body)
    requires MarksAre(m3, m2, fs, t.trailer)
    ensures (forall k: nat | k < |fs| :: MarkedIn(m3, k)) <==> !HasStray(t, fs, body)
  {
    forall k: nat ensures MarkedIn(m3, k) <==> CoveredBy(t, fs, body, k) {
      assert MarkedIn(m3, k) <==> MarkedIn(m2, k) || Covers(fs, t.trailer, k);
      assert MarkedIn(m2, k) <==> MarkedIn(m1, k) || Covers(fs, body, k);
      assert MarkedIn(m1, k) <==> MarkedIn(m0, k) || Covers(fs, t.header, k);
    }
  }

  /** A walk through a schema up to field `i`: from the reports `e` and the marks `d` on, it has reported `e'` and
      marked `m`. */
  ghost predicate Walked(fs: seq<Field>, schema: seq<FieldSchema>, i: nat, stop: bool,
                         e: seq<Report>, e': seq<Report>, d: seq<Word>, m: seq<Word>)
    requires i <= |schema|
  {
    && e <= e'
    && e' + (if stop then [] else SchemaFaults(fs, schema, i)) == e + SchemaFaults(fs, schema, 0)
    && (e' == e ==> !stop && MarksAre(m, d, fs, schema[..i]))
  }

  lemma FaultsWalked(fs: seq<Field>, schema: seq<FieldSchema>, i: nat, stop: bool,
                     e: seq<Report>, before: seq<Report>, after: seq<Report>)
    requires i < |schema| && e <= before && after == before + FieldFaults(fs, schema[i])
    requires stop <==> !GoesOn(fs, schema[i])
    requires before + SchemaFaults(fs, schema, i) == e + SchemaFaults(fs, schema, 0)
    ensures e <= after
    ensures after + (if stop then [] else SchemaFaults(fs, schema, i + 1)) == e + SchemaFaults(fs, schema, 0)
    ensures after == e ==> before == e && FieldRule(fs, schema[i]) && !stop
  {
    ConcatAssociates(before, FieldFaults(fs, schema[i]), if stop then [] else SchemaFaults(fs, schema, i + 1));
  }

  lemma ConcatAssociates(a: seq<Report>, b: seq<Report>, c: seq<Report>)
    ensures (a + b) + c == a + (b + c)
  {
  }

  // ---- the types of values ----

  method IsIntType(v: Wire) returns (ok: bool)
    ensures ok == IsInt(v)
  {
    if v == [] {
      return false;
    }
    var first := if v[0] == 43 || v[0] == 45 then 1 else 0;
    if first >= |v| {
      return false;
    }
    for i := first to |v|
      invariant forall k | first <= k < i :: IsDigit(v[k])
    {
      if !IsDigit(v[i]) {
        assert !IsDigit(v[first..][i - first]);
        return false;
      }
    }
    ok := true;
  }

  method IsDoubleType(v: Wire) returns (ok: bool)
    ensures ok == IsDouble(v)
  {
    if v == [] {
      return false;
    }
    var first := if v[0] == 43 || v[0] == 45 then 1 else 0;
    if first >= |v| || !IsDigit(v[first]) {
      return false;
    }
    var singleDot := false;
    for i := first + 1 to |v|
      invariant DigitsAndPoint(v[first + 1..], false) == DigitsAndPoint(v[i..], singleDot)
    {
      assert v[i..][1..] == v[i + 1..];
      if v[i] == 46 && !singleDot {
        singleDot := true;
      } else if !IsDigit(v[i]) {
        return false;
      }
    }
    ok := true;
  }

  lemma SchemaMore(fs: seq<Field>, schema: seq<FieldSchema>, i: nat)
    requires i < |schema|
    ensures SchemaRule(fs, schema[..i + 1]) <==> SchemaRule(fs, schema[..i]) && FieldRule(fs, schema[i])
    ensures !FieldRule(fs, schema[i]) ==> !SchemaRule(fs, schema)
    ensures forall k: nat ::
      Covers(fs, schema[..i + 1], k) <==> Covers(fs, schema[..i], k) || AccountsFor(fs, schema[i], k)
  {
    var a, b := schema[..i], schema[..i + 1];
    assert b == a + [schema[i]];
    forall k: nat ensures Covers(fs, b, k) <==> Covers(fs, a, k) || AccountsFor(fs, schema[i], k) {
      if Covers(fs, a, k) {
        var j :| 0 <= j < |a| && AccountsFor(fs, a[j], k);
        assert AccountsFor(fs, b[j], k);
      }
      if AccountsFor(fs, schema[i], k) {
        assert AccountsFor(fs, b[i], k);
      }
      if Covers(fs, b, k) {
        var j :| 0 <= j < |b| && AccountsFor(fs, b[j], k);
        if j < i { assert AccountsFor(fs, a[j], k); }
      }
    }
  }
}
