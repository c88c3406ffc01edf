/** The messages of the registry, and what a message takes to be accepted when no group is in it. */
module Schemas {
  import opened Bytes
  import opened Decimals
  import opened Wires
  import opened MessageStores
  import opened MessageFields
  import opened ValidatorSpec
  import opened Validators
  import opened Acceptance
  import Conformance

  // ---- the registry ----

  const MSG_TYPES: seq<Member> := [Member(372, String, Required), Member(385, Char, Required)]

  const LOGON: seq<FieldSchema> := [
    Plain(98, Int, Required),
    Plain(108, Int, Required),
    Plain(141, Boolean, Optional),
    Plain(95, Int, Optional),
    Plain(96, String, Optional),
    Plain(553, String, Optional),
    Plain(554, String, Optional),
    Plain(789, Int, Optional),
    Plain(383, Int, Optional),
    FieldSchema(Member(384, Group, Optional), Some(MSG_TYPES)),
    Plain(464, Boolean, Optional)]

  const HEARTBEAT: seq<FieldSchema> := [Plain(112, String, Optional)]

  const TEST_REQUEST: seq<FieldSchema> := [Plain(112, String, Required)]

  const RESEND_REQUEST: seq<FieldSchema> := [Plain(7, Int, Required), Plain(16, Int, Required)]

  const SEQUENCE_RESET: seq<FieldSchema> := [Plain(36, Int, Required), Plain(123, Boolean, Optional)]

  const REJECT: seq<FieldSchema> := [
    Plain(45, Int, Required),
    Plain(371, Int, Optional),
    Plain(372, String, Optional),
    Plain(373, Int, Optional),
    Plain(58, String, Optional),
    Plain(354, Int, Optional),
    Plain(355, String, Optional)]

  const LOGOUT: seq<FieldSchema> := [
    Plain(58, String, Optional),
    Plain(354, Int, Optional),
    Plain(355, String, Optional)]

  const CUSTOM_SCHEMA: seq<FieldSchema> := [Plain(9250, String, Required)]

  function Registered(msgType: Wire): Option<seq<FieldSchema>> {
    if msgType == CUSTOM then Some(CUSTOM_SCHEMA)
    else if |msgType| != 1 then None
    else if msgType[0] == 65 then Some(LOGON)
    else if msgType[0] == 48 then Some(HEARTBEAT)
    else if msgType[0] == 49 then Some(TEST_REQUEST)
    else if msgType[0] == 50 then Some(RESEND_REQUEST)
    else if msgType[0] == 51 then Some(REJECT)
    else if msgType[0] == 52 then Some(SEQUENCE_RESET)
    else if msgType[0] == 53 then Some(LOGOUT)
    else None
  }

  const REPOSITORY: Tables := Tables(STANDARD_HEADER, STANDARD_TRAILER, Registered)

  /** The bodies leave the fields of header and trailer to them. */
  predicate Apart(body: seq<FieldSchema>) {
    forall j {:trigger body[j]} | 0 <= j < |body| ::
      && body[j].member.tag !in {8, 9, 35, 34, 49, 56, 52, 43, 122, 10}
      && (body[j].group.Some? ==> body[j].group == Some(MSG_TYPES))
  }

  lemma BodiesAreApart(msgType: Wire)
    requires Registered(msgType).Some?
    ensures Apart(Registered(msgType).value)
  {
  }

  lemma ApartIsSilent(body: seq<FieldSchema>, tag: nat)
    requires Apart(body) && tag in RESENT
    ensures Silent(body, tag)
  {
    assert forall i | 0 <= i < |MSG_TYPES| :: MSG_TYPES[i].tag >= 372;
  }

  /** The tables of the repository are standard ones, and flat, as the validator asks for. */
  lemma RepositoryIsStandard()
    ensures Standard(REPOSITORY) && Registered([52]) == Some(SEQUENCE_RESET)
    ensures forall w | Registered(w).Some? :: AllFlat(Registered(w).value)
  {
    forall w, tag | Registered(w).Some? && tag in RESENT ensures Silent(Registered(w).value, tag) {
      BodiesAreApart(w);
      ApartIsSilent(Registered(w).value, tag);
    }
    forall w | Registered(w).Some? ensures AllFlat(Registered(w).value) {
      BodiesAreFlat(w);
    }
  }

  /** They name each member of a group once. */
  lemma RepositoryIsDistinct()
    ensures Conformance.TablesDistinct(REPOSITORY) && REPOSITORY.header[..3] == STANDARD_HEADER[..3]
  {
    forall w | Registered(w).Some? ensures Conformance.AllDistinct(Registered(w).value) {
      BodiesAreApart(w);
    }
  }

  lemma BodiesAreFlat(msgType: Wire)
    requires Registered(msgType).Some?
    ensures AllFlat(Registered(msgType).value)
  {
    assert forall i | 0 <= i < |MSG_TYPES| :: MSG_TYPES[i].kind != Group;
  }

  // ---- acceptance without groups ----

  /** Wherever the schema names the field, it takes it, as a field of its own. */
  ghost predicate TakenBy(schema: seq<FieldSchema>, f: Field) {
    forall j {:trigger schema[j]} | 0 <= j < |schema| && schema[j].member.tag == f.tag ::
      schema[j].member.kind != Group && TypeOk(f.value, schema[j].member.kind)
  }

  /** One of the schemas names it, and all that do take it. */
  ghost predicate Proper(t: Tables, body: seq<FieldSchema>, f: Field) {
    && TakenBy(t.header, f) && TakenBy(body, f) && TakenBy(t.trailer, f)
    && (InSchema(t.header, f.tag) || InSchema(body, f.tag) || InSchema(t.trailer, f.tag))
  }

  ghost predicate Holds(all: seq<Field>, tag: nat) {
    exists k | 0 <= k < |all| :: all[k].tag == tag
  }

  ghost predicate RequiredAreThere(schema: seq<FieldSchema>, all: seq<Field>) {
    forall j {:trigger schema[j]} | 0 <= j < |schema| && schema[j].member.presence == Required ::
      Holds(all, schema[j].member.tag)
  }

  predicate DistinctFields(all: seq<Field>) {
    forall i, j | 0 <= i < j < |all| :: all[i].tag != all[j].tag
  }

  lemma OnlyOneOf(all: seq<Field>, k: nat)
    requires DistinctFields(all) && k < |all|
    ensures FirstWith(all, all[k].tag) == Some(k) && LastWith(all, all[k].tag) == Some(k)
    ensures LastValue(all, all[k].tag) == Some(all[k].value)
  {
    var i, j := FirstWith(all, all[k].tag).value, LastWith(all, all[k].tag).value;
    assert all[i].tag == all[k].tag && all[j].tag == all[k].tag;
  }

  lemma FieldFollowed(all: seq<Field>, f: FieldSchema)
    requires DistinctFields(all) && (f.member.presence == Required ==> Holds(all, f.member.tag))
    requires forall k | 0 <= k < |all| && all[k].tag == f.member.tag ::
      f.member.kind != Group && TypeOk(all[k].value, f.member.kind)
    ensures FieldRule(all, f)
    ensures forall k: nat | k < |all| && all[k].tag == f.member.tag :: AccountsFor(all, f, k)
  {
    var first := FirstWith(all, f.member.tag);
    if first.Some? {
      assert all[first.value].tag == f.member.tag;
      OnlyOneOf(all, first.value);
    }
    forall k: nat | k < |all| && all[k].tag == f.member.tag ensures AccountsFor(all, f, k) {
      OnlyOneOf(all, k);
    }
  }

  lemma SchemaFollowed(all: seq<Field>, schema: seq<FieldSchema>)
    requires DistinctFields(all) && RequiredAreThere(schema, all)
    requires forall k | 0 <= k < |all| :: TakenBy(schema, all[k])
    ensures SchemaRule(all, schema)
    ensures forall k: nat | k < |all| && InSchema(schema, all[k].tag) :: Covers(all, schema, k)
  {
    forall j | 0 <= j < |schema|
      ensures FieldRule(all, schema[j])
      ensures forall k: nat | k < |all| && all[k].tag == schema[j].member.tag :: AccountsFor(all, schema[j], k)
    {
      forall k | 0 <= k < |all| && all[k].tag == schema[j].member.tag
        ensures schema[j].member.kind != Group && TypeOk(all[k].value, schema[j].member.kind)
      {
        assert TakenBy(schema, all[k]);
      }
      FieldFollowed(all, schema[j]);
    }
  }

  /** A message whose fields are all different is accepted if the header is right, each field is proper, and
      what is required is there. */
  lemma ProperIsAccepted(t: Tables, params: SessionParameters, all: seq<Field>, msgType: Wire, body: seq<FieldSchema>)
    requires |t.header| >= 3 && t.registry(msgType) == Some(body) && LastValue(all, 35) == Some(msgType)
    requires HeaderRule(t, all, msgType, params) && DistinctFields(all)
    requires forall k | 0 <= k < |all| :: Proper(t, body, all[k])
    requires RequiredAreThere(t.header, all) && RequiredAreThere(body, all) && RequiredAreThere(t.trailer, all)
    ensures Accepts(t, all, params)
  {
    ProperIsCovered(t, all, body);
  }

  lemma ProperIsCovered(t: Tables, all: seq<Field>, body: seq<FieldSchema>)
    requires DistinctFields(all) && forall k | 0 <= k < |all| :: Proper(t, body, all[k])
    requires RequiredAreThere(t.header, all) && RequiredAreThere(body, all) && RequiredAreThere(t.trailer, all)
    ensures SchemaRule(all, t.header) && SchemaRule(all, body) && SchemaRule(all, t.trailer)
    ensures forall k: nat | k < |all| :: CoveredBy(t, all, body, k)
  {
    forall k | 0 <= k < |all|
      ensures TakenBy(t.header, all[k]) && TakenBy(body, all[k]) && TakenBy(t.trailer, all[k])
    {
      assert Proper(t, body, all[k]);
    }
    SchemaFollowed(all, t.header);
    SchemaFollowed(all, body);
    SchemaFollowed(all, t.trailer);
    forall k: nat | k < |all| ensures CoveredBy(t, all, body, k) {
      assert Proper(t, body, all[k]);
    }
  }
}
