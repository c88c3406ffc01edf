/** Every report of the validator is right: what it says is the case, told from the bytes. */
module Reporting {
  import opened Bytes
  import opened Decimals
  import opened Wires
  import opened MessageStores
  import opened ValidatorSpec
  import opened Reports
  import opened Conformance

  /** A report about a member of a group, from field `lo` on: the message ends, the member is required and something
      else stands there, or its value does not look as its type asks. */
  ghost predicate MemberReported(fs: seq<Field>, gs: seq<Member>, lo: nat, r: Report, m: nat, idx: nat) {
    && m < |gs| && lo <= idx && r.tag == gs[m].tag
    && match r.code
       case IncorrectNumInGroupCount => idx >= |fs|
       case RequiredTagMissing => idx < |fs| && fs[idx].tag != gs[m].tag && gs[m].presence == Required
       case IncorrectDataFormatForValue =>
         idx < |fs| && fs[idx].tag == gs[m].tag && !Looks(gs[m].kind, fs[idx].value)
       case _ => false
  }

  ghost predicate EntryReported(fs: seq<Field>, gs: seq<Member>, lo: nat, r: Report) {
    exists m: nat, idx: nat :: MemberReported(fs, gs, lo, r, m, idx)
  }

  lemma {:induction false} EntryReportIsRight(fs: seq<Field>, gs: seq<Member>, j: nat, idx: nat, seen: set<nat>,
                                               lo: nat)
    requires j <= |gs| && lo <= idx && EntryFaults(fs, gs, j, idx, seen) != []
    ensures EntryReported(fs, gs, lo, EntryFaults(fs, gs, j, idx, seen)[0])
    decreases |gs| - j
  {
    var r := EntryFaults(fs, gs, j, idx, seen)[0];
    if idx >= |fs| {
      assert MemberReported(fs, gs, lo, r, j, idx);
    } else if fs[idx].tag != gs[j].tag {
      if gs[j].presence == Required {
        assert MemberReported(fs, gs, lo, r, j, idx);
      } else {
        EntryReportIsRight(fs, gs, j + 1, idx, seen, lo);
      }
    } else {
      TypeExactly(fs[idx].value, gs[j].kind);
      if TypeOk(fs[idx].value, gs[j].kind) {
        EntryReportIsRight(fs, gs, j + 1, idx + 1, seen + {fs[idx].tag}, lo);
      } else {
        assert MemberReported(fs, gs, lo, r, j, idx);
      }
    }
  }

  /** An entry that is empty: what stands there is none of the group. */
  predicate NoEntryAt(fs: seq<Field>, gs: seq<Member>, lo: nat) {
    lo < |fs| && forall m | 0 <= m < |gs| :: fs[lo].tag != gs[m].tag
  }

  lemma {:induction false} EmptyEntry(fs: seq<Field>, gs: seq<Member>, j: nat, lo: nat)
    requires j < |gs| && EntryEnd(fs, gs, j, lo, {}) == Some(lo)
    ensures lo < |fs| && forall m | j <= m < |gs| :: fs[lo].tag != gs[m].tag
    decreases |gs| - j
  {
    if fs[lo].tag != gs[j].tag && j + 1 < |gs| {
      EmptyEntry(fs, gs, j + 1, lo);
    }
  }

  /** A report about a group with a count that reads. */
  ghost predicate GroupReported(fs: seq<Field>, tag: nat, gs: seq<Member>, from: nat, r: Report) {
    exists lo: nat :: from <= lo && EntryOrNone(fs, tag, gs, lo, r)
  }

  ghost predicate EntryOrNone(fs: seq<Field>, tag: nat, gs: seq<Member>, lo: nat, r: Report) {
    EntryReported(fs, gs, lo, r) || (r == Report(tag, IncorrectNumInGroupCount) && NoEntryAt(fs, gs, lo))
  }

  lemma {:induction false} GroupReportIsRight(fs: seq<Field>, tag: nat, gs: seq<Member>, n: nat, idx: nat, from: nat)
    requires gs != [] && from <= idx && GroupFaults(fs, tag, gs, n, idx) != []
    ensures GroupReported(fs, tag, gs, from, GroupFaults(fs, tag, gs, n, idx)[0])
    decreases n
  {
    var r := GroupFaults(fs, tag, gs, n, idx)[0];
    match EntryEnd(fs, gs, 0, idx, {})
    case None =>
      EntryReportIsRight(fs, gs, 0, idx, {}, idx);
      assert EntryOrNone(fs, tag, gs, idx, r);
    case Some(e) =>
      if e == idx {
        EmptyEntry(fs, gs, 0, idx);
        assert EntryOrNone(fs, tag, gs, idx, r);
      } else {
        GroupReportIsRight(fs, tag, gs, n - 1, e, from);
      }
  }

  /** What a report about a field of a schema says is the case. */
  ghost predicate FieldReported(fs: seq<Field>, f: FieldSchema, r: Report) {
    match FirstWith(fs, f.member.tag)
    case None => r == Report(f.member.tag, RequiredTagMissing) && f.member.presence == Required
    case Some(i) =>
      if f.member.kind != Group then
        r == Report(f.member.tag, IncorrectDataFormatForValue) && !Looks(f.member.kind, fs[i].value)
      else
        || (r == Report(f.member.tag, IncorrectNumInGroupCount)
            && forall n: nat | n <= 2147483647 :: ParseSigned(fs[i].value) != Some(n))
        || (r == Report(f.member.tag, Other) && !(f.group.Some? && 1 <= |f.group.value| <= 32))
        || (f.group.Some? && GroupReported(fs, f.member.tag, f.group.value, i + 1, r))
  }

  lemma FieldReportIsRight(fs: seq<Field>, f: FieldSchema)
    requires FieldFaults(fs, f) != []
    ensures FieldReported(fs, f, FieldFaults(fs, f)[0])
  {
    var first := FirstWith(fs, f.member.tag);
    if first.Some? {
      var i := first.value;
      TypeExactly(fs[i].value, f.member.kind);
      if f.member.kind == Group {
        forall n: nat
          ensures ParseCount(fs[i].value) == Some(n) <==> ParseSigned(fs[i].value) == Some(n) && n <= 2147483647
        {
          CountExactly(fs[i].value, n);
        }
        var count := ParseCount(fs[i].value);
        if count.Some? && f.group.Some? && 1 <= |f.group.value| <= 32 {
          GroupReportIsRight(fs, f.member.tag, f.group.value, count.value, i + 1, i + 1);
        }
      }
    }
  }

  ghost predicate SchemaReported(fs: seq<Field>, schema: seq<FieldSchema>, r: Report) {
    exists j {:trigger schema[j]} | 0 <= j < |schema| :: FieldReported(fs, schema[j], r)
  }

  lemma FaultsSplit(fs: seq<Field>, schema: seq<FieldSchema>, j: nat) returns (mine: seq<Report>, rest: seq<Report>)
    requires j < |schema|
    ensures mine == FieldFaults(fs, schema[j]) && SchemaFaults(fs, schema, j) == mine + rest
    ensures rest == [] || rest == SchemaFaults(fs, schema, j + 1)
  {
    mine := FieldFaults(fs, schema[j]);
    rest := if GoesOn(fs, schema[j]) then SchemaFaults(fs, schema, j + 1) else [];
  }

  lemma OneReportIsRight(fs: seq<Field>, schema: seq<FieldSchema>, j: nat, r: Report)
    requires j < |schema| && r in FieldFaults(fs, schema[j])
    ensures SchemaReported(fs, schema, r)
  {
    FieldReportIsRight(fs, schema[j]);
    assert FieldReported(fs, schema[j], r);
  }

  lemma {:induction false} SchemaReportsAreRight(fs: seq<Field>, schema: seq<FieldSchema>, j: nat, r: Report)
    requires j <= |schema| && r in SchemaFaults(fs, schema, j)
    ensures SchemaReported(fs, schema, r)
    decreases |schema| - j
  {
    if j < |schema| {
      var mine, rest := FaultsSplit(fs, schema, j);
      if r in mine {
        OneReportIsRight(fs, schema, j, r);
      } else {
        SchemaReportsAreRight(fs, schema, j + 1, r);
      }
    }
  }

  /** The first report about a schema is about its first field that is not as it should be. */
  lemma {:induction false} FirstReport(fs: seq<Field>, schema: seq<FieldSchema>, j: nat) returns (i: nat)
    requires j <= |schema| && SchemaFaults(fs, schema, j) != []
    ensures j <= i < |schema| && !FieldRule(fs, schema[i]) && forall k | j <= k < i :: FieldRule(fs, schema[k])
    ensures FieldReported(fs, schema[i], SchemaFaults(fs, schema, j)[0])
    decreases |schema| - j
  {
    if FieldFaults(fs, schema[j]) == [] {
      i := FirstReport(fs, schema, j + 1);
    } else {
      i := j;
      FieldReportIsRight(fs, schema[j]);
    }
  }

  /** A field at fault is the last one that is reported, unless it is a group with a count that reads. */
  lemma LastReport(fs: seq<Field>, schema: seq<FieldSchema>, j: nat)
    requires j < |schema| && FieldFaults(fs, schema[j]) != []
    ensures
      var i := FirstWith(fs, schema[j].member.tag);
      SchemaFaults(fs, schema, j) == FieldFaults(fs, schema[j]) +
        if schema[j].member.kind == Group && i.Some?
           && exists n: nat :: n <= 2147483647 && ParseSigned(fs[i.value].value) == Some(n)
        then SchemaFaults(fs, schema, j + 1) else []
  {
    var i := FirstWith(fs, schema[j].member.tag);
    if i.Some? {
      forall n: nat
        ensures ParseCount(fs[i.value].value) == Some(n)
          <==> ParseSigned(fs[i.value].value) == Some(n) && n <= 2147483647
      {
        CountExactly(fs[i.value].value, n);
      }
    }
  }

  /** A report about version, length, type, number or parties. */
  ghost predicate FrontReported(t: Tables, fs: seq<Field>, msgType: Wire, params: SessionParameters, r: Report)
    requires |t.header| >= 3
  {
    || (r == Report(8, RequiredTagMissing) && |fs| < 3)
    || (r == Report(8, Other) && |fs| >= 3
        && (fs[0].value != [70, 73, 88, 46, 52, 46, 52] || !Looks(t.header[0].member.kind, fs[0].value)))
    || (r == Report(t.header[1].member.tag, IncorrectDataFormatForValue) && |fs| >= 3
        && !Looks(t.header[1].member.kind, fs[1].value))
    || (r == Report(t.header[2].member.tag, IncorrectDataFormatForValue) && |fs| >= 3
        && (fs[2].value != msgType || !Looks(t.header[2].member.kind, fs[2].value)))
    || (r == Report(34, IncorrectDataFormatForValue)
        && (LastValue(fs, 34).None? || !Digits(Unsigned(LastValue(fs, 34).value))))
    || (r == Report(49, CompIDProblem) && LastValue(fs, 49) != Some(params.targetCompId))
    || (r == Report(56, CompIDProblem) && LastValue(fs, 56) != Some(params.senderCompId))
  }

  predicate FrontIsRight(t: Tables, fs: seq<Field>, msgType: Wire, params: SessionParameters)
    requires |t.header| >= 3
  {
    && |fs| >= 3 && fs[0].value == VERSION && fs[2].value == msgType
    && TypeOk(fs[0].value, t.header[0].member.kind) && TypeOk(fs[1].value, t.header[1].member.kind)
    && TypeOk(fs[2].value, t.header[2].member.kind)
    && LastValue(fs, 34).Some? && TypeOk(LastValue(fs, 34).value, Int)
    && LastValue(fs, 49) == Some(params.targetCompId) && LastValue(fs, 56) == Some(params.senderCompId)
  }

  lemma HeaderReportsAreRight(t: Tables, fs: seq<Field>, msgType: Wire, params: SessionParameters, r: Report)
    requires |t.header| >= 3 && r in HeaderFaults(t, fs, msgType, params)
    ensures FrontReported(t, fs, msgType, params, r) || SchemaReported(fs, t.header, r)
  {
    if |fs| >= 3 {
      TypeExactly(fs[0].value, t.header[0].member.kind);
      TypeExactly(fs[1].value, t.header[1].member.kind);
      TypeExactly(fs[2].value, t.header[2].member.kind);
    }
    if LastValue(fs, 34).Some? {
      TypeExactly(LastValue(fs, 34).value, Int);
    }
    if FrontIsRight(t, fs, msgType, params) {
      assert HeaderFaults(t, fs, msgType, params) == SchemaFaults(fs, t.header, 0);
      SchemaReportsAreRight(fs, t.header, 0, r);
    }
  }

  /** A field that is not claimed by any schema. */
  ghost predicate StrayReported(t: Tables, fs: seq<Field>, body: seq<FieldSchema>, r: Report) {
    r == Report(0, InvalidTagNumber) && HasStray(t, fs, body)
  }

  ghost predicate RightReport(t: Tables, fs: seq<Field>, params: SessionParameters, r: Report)
    requires |t.header| >= 3
  {
    match LastValue(fs, 35)
    case None => r == Report(35, RequiredTagMissing)
    case Some(msgType) =>
      match t.registry(msgType)
      case None => r == Report(0, InvalidMsgType)
      case Some(body) =>
        || FrontReported(t, fs, msgType, params, r)
        || SchemaReported(fs, t.header, r) || SchemaReported(fs, body, r) || SchemaReported(fs, t.trailer, r)
        || StrayReported(t, fs, body, r)
  }

  lemma KnownReportsAreRight(t: Tables, fs: seq<Field>, msgType: Wire, body: seq<FieldSchema>,
                             params: SessionParameters, r: Report)
    requires |t.header| >= 3 && r in KnownFaults(t, fs, msgType, body, params)
    ensures
      || FrontReported(t, fs, msgType, params, r)
      || SchemaReported(fs, t.header, r) || SchemaReported(fs, body, r) || SchemaReported(fs, t.trailer, r)
  {
    if r in HeaderFaults(t, fs, msgType, params) {
      HeaderReportsAreRight(t, fs, msgType, params, r);
    } else if r in SchemaFaults(fs, body, 0) {
      SchemaReportsAreRight(fs, body, 0, r);
    } else {
      SchemaReportsAreRight(fs, t.trailer, 0, r);
    }
  }

  /** Whatever the validator reports is right. */
  lemma ReportsAreRight(t: Tables, fs: seq<Field>, params: SessionParameters, r: Report)
    requires |t.header| >= 3 && r in MessageFaults(t, fs, params)
    ensures RightReport(t, fs, params, r)
  {
    var msgType := LastValue(fs, 35);
    if msgType.Some? && t.registry(msgType.value).Some? {
      var body := t.registry(msgType.value).value;
      if r in KnownFaults(t, fs, msgType.value, body, params) {
        KnownReportsAreRight(t, fs, msgType.value, body, params, r);
      }
    }
  }
}
