/** What the validator reports about a message: for each fault the tag of the field and what is wrong with it. */
module Reports {
  import opened Bytes
  import opened Wires
  import opened ValidatorSpec

  datatype Code =
    | InvalidTagNumber | RequiredTagMissing | IncorrectDataFormatForValue | IncorrectNumInGroupCount
    | CompIDProblem | InvalidMsgType | Other

  datatype Report = Report(tag: nat, code: Code)

  /** What is wrong with an entry of a group, from member `j` and field `idx` on. */
  function EntryFaults(fs: seq<Field>, gs: seq<Member>, j: nat, idx: nat, seen: set<nat>): (r: seq<Report>)
    requires j <= |gs|
    ensures |r| <= 1 && (r == [] <==> EntryEnd(fs, gs, j, idx, seen).Some?)
    decreases |gs| - j
  {
    if j == |gs| then []
    else if idx >= |fs| then [Report(gs[j].tag, IncorrectNumInGroupCount)]
    else if fs[idx].tag != gs[j].tag then
      if gs[j].presence == Required then [Report(gs[j].tag, RequiredTagMissing)]
      else EntryFaults(fs, gs, j + 1, idx, seen)
    else if fs[idx].tag in seen then []
    else if !TypeOk(fs[idx].value, gs[j].kind) then [Report(gs[j].tag, IncorrectDataFormatForValue)]
    else EntryFaults(fs, gs, j + 1, idx + 1, seen + {fs[idx].tag})
  }

  /** What is wrong with the first of `n` entries that is not as it should be. */
  function GroupFaults(fs: seq<Field>, tag: nat, gs: seq<Member>, n: nat, idx: nat): (r: seq<Report>)
    ensures |r| <= 1 && (r == [] <==> GroupEnd(fs, gs, n, idx).Some?)
    decreases n
  {
    if n == 0 then []
    else
      match EntryEnd(fs, gs, 0, idx, {})
      case None => EntryFaults(fs, gs, 0, idx, {})
      case Some(e) =>
        if e == idx then [Report(tag, IncorrectNumInGroupCount)] else GroupFaults(fs, tag, gs, n - 1, e)
  }

  function EntriesFaults(fs: seq<Field>, f: FieldSchema, n: nat, idx: nat): (r: seq<Report>)
    ensures |r| <= 1 && (r == [] <==> EntriesEnd(fs, f, n, idx).Some?)
  {
    if n == 0 then []
    else if f.group.None? || f.group.value == [] || |f.group.value| > MAX_GROUP_FIELDS then
      [Report(f.member.tag, Other)]
    else GroupFaults(fs, f.member.tag, f.group.value, n, idx)
  }

  /** What is wrong with one field of a schema. */
  function FieldFaults(fs: seq<Field>, f: FieldSchema): (r: seq<Report>)
    ensures |r| <= 1 && (r == [] <==> FieldRule(fs, f))
  {
    match FirstWith(fs, f.member.tag)
    case None => if f.member.presence == Required then [Report(f.member.tag, RequiredTagMissing)] else []
    case Some(i) =>
      if f.member.kind == Group then
        match ParseCount(fs[i].value)
        case None => [Report(f.member.tag, IncorrectNumInGroupCount)]
        case Some(n) => EntriesFaults(fs, f, n, i + 1)
      else if !TypeOk(fs[i].value, f.member.kind) then [Report(f.member.tag, IncorrectDataFormatForValue)]
      else []
  }

  /** A fault behind a count that reads does not keep the validator from the next field. */
  predicate GoesOn(fs: seq<Field>, f: FieldSchema) {
    || FieldFaults(fs, f) == []
    || (f.member.kind == Group && var i := FirstWith(fs, f.member.tag); i.Some? && ParseCount(fs[i.value].value).Some?)
  }

  /** What is wrong with the fields of a schema from the `j`-th on. */
  function SchemaFaults(fs: seq<Field>, schema: seq<FieldSchema>, j: nat): (r: seq<Report>)
    requires j <= |schema|
    ensures r == [] <==> forall i | j <= i < |schema| :: FieldRule(fs, schema[i])
    decreases |schema| - j
  {
    if j == |schema| then []
    else if GoesOn(fs, schema[j]) then FieldFaults(fs, schema[j]) + SchemaFaults(fs, schema, j + 1)
    else FieldFaults(fs, schema[j])
  }

  function HeaderFaults(t: Tables, fs: seq<Field>, msgType: Wire, params: SessionParameters): (r: seq<Report>)
    requires |t.header| >= 3
    ensures r == [] <==> HeaderRule(t, fs, msgType, params) && SchemaRule(fs, t.header)
  {
    if |fs| < 3 then [Report(8, RequiredTagMissing)]
    else if !TypeOk(fs[0].value, t.header[0].member.kind) || fs[0].value != VERSION then [Report(8, Other)]
    else if !TypeOk(fs[1].value, t.header[1].member.kind) then
      [Report(t.header[1].member.tag, IncorrectDataFormatForValue)]
    else if !TypeOk(fs[2].value, t.header[2].member.kind) || fs[2].value != msgType then
      [Report(t.header[2].member.tag, IncorrectDataFormatForValue)]
    else if LastValue(fs, 34).None? || !TypeOk(LastValue(fs, 34).value, Int) then
      [Report(34, IncorrectDataFormatForValue)]
    else if LastValue(fs, 49) != Some(params.targetCompId) then [Report(49, CompIDProblem)]
    else if LastValue(fs, 56) != Some(params.senderCompId) then [Report(56, CompIDProblem)]
    else SchemaFaults(fs, t.header, 0)
  }

  /** What is wrong by the schemas of header, body and trailer. */
  function KnownFaults(t: Tables, fs: seq<Field>, msgType: Wire, body: seq<FieldSchema>, params: SessionParameters)
    : seq<Report>
    requires |t.header| >= 3
  {
    HeaderFaults(t, fs, msgType, params) + SchemaFaults(fs, body, 0) + SchemaFaults(fs, t.trailer, 0)
  }

  /** A field that no schema accounts for. */
  ghost predicate HasStray(t: Tables, fs: seq<Field>, body: seq<FieldSchema>) {
    exists k: nat :: k < |fs| && !CoveredBy(t, fs, body, k)
  }

  /** Everything that is reported about a message. Stray fields are looked for only if nothing else is wrong. */
  ghost function MessageFaults(t: Tables, fs: seq<Field>, params: SessionParameters): (r: seq<Report>)
    requires |t.header| >= 3
    ensures r == [] <==> Accepts(t, fs, params)
  {
    match LastValue(fs, 35)
    case None => [Report(35, RequiredTagMissing)]
    case Some(msgType) =>
      match t.registry(msgType)
      case None => [Report(0, InvalidMsgType)]
      case Some(body) =>
        var faults := KnownFaults(t, fs, msgType, body, params);
        if faults == [] && HasStray(t, fs, body) then [Report(0, InvalidTagNumber)] else faults
  }
}
