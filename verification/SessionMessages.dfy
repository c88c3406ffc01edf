/** The messages a session prints by itself, field by field: what they stand for, and that the other end's
    validator accepts them. */
module SessionMessages {
  import opened Bytes
  import opened Decimals
  import opened Protocol
  import opened Wires
  import opened MessageStores
  import opened MessageFields
  import opened ValidatorSpec
  import opened Acceptance
  import opened Schemas

  const NO: Wire := [78]

  /** What is printed beside the kind of a message: the encryption method of a Logon, reason and tag of a
      Reject, and the text of a Reject or Logout. */
  datatype Details = Details(encryptMethod: nat, reason: nat, tag: nat, text: Wire)

  /** Everything but the messages of the application. */
  predicate IsOwn(k: Kind) {
    !k.App?
  }

  function TypeText(k: Kind): Wire
    requires IsOwn(k)
  {
    match k
    case Logon(_, _) => [65]
    case Heartbeat(_) => [48]
    case TestRequest(_) => [49]
    case ResendRequest(_, _) => [50]
    case Reject(_) => [51]
    case SequenceReset(_, _) => [52]
    case Logout => [53]
    case Custom(_) => CUSTOM
  }

  function Optionally(tag: nat, text: Wire): seq<Field> {
    if text == [] then [] else [Field(tag, text)]
  }

  function OwnFields(k: Kind, d: Details): seq<Field>
    requires IsOwn(k)
  {
    match k
    case Logon(hb, reset) =>
      [Field(98, Dec(d.encryptMethod)), Field(141, if reset then YES else NO), Field(108, Dec(hb))]
    case Heartbeat(id) => Optionally(112, id)
    case TestRequest(id) => [Field(112, id)]
    case ResendRequest(b, e) => [Field(7, Dec(b)), Field(16, Dec(e))]
    case Reject(ref) =>
      [Field(45, Dec(ref))] + (if d.tag == 0 then [] else [Field(371, Dec(d.tag))])
      + [Field(373, Dec(d.reason))] + Optionally(58, d.text)
    case SequenceReset(n, gapFill) => (if gapFill then [Field(123, YES)] else []) + [Field(36, Dec(n))]
    case Logout => Optionally(58, d.text)
    case Custom(payload) => [Field(9250, payload)]
  }

  function PrintedFields(num: nat, k: Kind, p: Parties, now: Wire, d: Details): seq<Field>
    requires IsOwn(k)
  {
    HeaderFields(TypeText(k), num, p, now) + OwnFields(k, d)
  }

  // ---- what they stand for ----

  lemma GetBehindHeader(h: seq<Field>, own: seq<Field>, tag: nat)
    requires forall i | 0 <= i < |h| :: h[i].tag != tag
    ensures Get(h + own, tag) == Get(own, tag)
  {
    GetNone(h, tag);
    GetConcat(h, own, tag);
  }

  /** The fields of its own that a session looks at. */
  lemma OwnGets(k: Kind, d: Details)
    requires IsOwn(k)
    ensures
      var own := OwnFields(k, d);
      && Get(own, 43) == None
      && match k
         case Logon(hb, reset) => Get(own, 108) == Some(Dec(hb)) && (Get(own, 141) == Some(YES) <==> reset)
         case Heartbeat(id) => Text(Get(own, 112)) == id
         case TestRequest(id) => Text(Get(own, 112)) == id
         case ResendRequest(b, e) => Get(own, 7) == Some(Dec(b)) && Get(own, 16) == Some(Dec(e))
         case Reject(ref) => Get(own, 45) == Some(Dec(ref))
         case SequenceReset(n, gapFill) => Get(own, 36) == Some(Dec(n)) && (Get(own, 123) == Some(YES) <==> gapFill)
         case Logout => true
         case Custom(payload) => Text(Get(own, 9250)) == payload
  {
    var own := OwnFields(k, d);
    GetNone(own, 43);
    match k
    case Logon(hb, reset) =>
      GetIs(own, 141, 1);
      GetIs(own, 108, 2);
    case Heartbeat(id) => if id == [] { GetNone(own, 112); } else { GetIs(own, 112, 0); }
    case TestRequest(id) => GetIs(own, 112, 0);
    case ResendRequest(b, e) =>
      GetIs(own, 7, 0);
      GetIs(own, 16, 1);
    case Reject(ref) => GetIs(own, 45, 0);
    case SequenceReset(n, gapFill) =>
      GetIs(own, 36, if gapFill then 1 else 0);
      if gapFill { GetIs(own, 123, 0); } else { GetNone(own, 123); }
    case Logout =>
    case Custom(payload) => GetIs(own, 9250, 0);
  }

  /** What is printed beside the kind: the encryption method of a Logon, reason, tag and text of a Reject, and the
      text of a Logout. Tag and text are left out where there is none. */
  lemma DetailsArePrinted(k: Kind, d: Details)
    requires IsOwn(k)
    ensures
      var own := OwnFields(k, d);
      match k
      case Logon(_, _) => Get(own, 98) == Some(Dec(d.encryptMethod))
      case Reject(_) =>
        && Get(own, 373) == Some(Dec(d.reason))
        && Get(own, 371) == (if d.tag == 0 then None else Some(Dec(d.tag)))
        && Get(own, 58) == (if d.text == [] then None else Some(d.text))
      case Logout => Get(own, 58) == (if d.text == [] then None else Some(d.text))
      case _ => true
  {
    var own := OwnFields(k, d);
    match k
    case Logon(_, _) => GetIs(own, 98, 0);
    case Reject(_) =>
      var at := if d.tag == 0 then 1 else 2;
      GetIs(own, 373, at);
      if d.tag == 0 { GetNone(own, 371); } else { GetIs(own, 371, 1); }
      if d.text == [] { GetNone(own, 58); } else { GetIs(own, 58, at + 1); }
    case Logout => if d.text == [] { GetNone(own, 58); } else { GetIs(own, 58, 0); }
    case _ =>
  }

  lemma NumberOfDec(n: nat)
    ensures Number(Some(Dec(n))) == n
  {
    ParseDecOfDec(n);
  }

  /** A printed message stands for itself, as an original. */
  lemma PrintedMeans(num: nat, k: Kind, p: Parties, now: Wire, d: Details)
    requires IsOwn(k)
    ensures Meaning(PrintedFields(num, k, p, now, d)) == Msg(num, k, false)
  {
    var h, own := HeaderFields(TypeText(k), num, p, now), OwnFields(k, d);
    FromAppMeaning(TypeText(k), num, p, now, own);
    OwnGets(k, d);
    GetBehindHeader(h, own, 43);
    match k
    case Logon(hb, reset) =>
      GetBehindHeader(h, own, 108);
      GetBehindHeader(h, own, 141);
      NumberOfDec(hb);
    case Heartbeat(id) => GetBehindHeader(h, own, 112);
    case TestRequest(id) => GetBehindHeader(h, own, 112);
    case ResendRequest(b, e) =>
      GetBehindHeader(h, own, 7);
      GetBehindHeader(h, own, 16);
      NumberOfDec(b);
      NumberOfDec(e);
    case Reject(ref) =>
      GetBehindHeader(h, own, 45);
      NumberOfDec(ref);
    case SequenceReset(n, gapFill) =>
      GetBehindHeader(h, own, 36);
      GetBehindHeader(h, own, 123);
      NumberOfDec(n);
    case Logout =>
    case Custom(payload) => GetBehindHeader(h, own, 9250);
  }

  // ---- that they are accepted ----

  /** The tags around the fields of its own. */
  const FRONT_TAGS: seq<nat> := [8, 9, 35, 34, 49, 56, 52]

  /** The tags of its own fields: none of header or trailer. */
  const OWN_TAGS: set<nat> := {98, 141, 108, 112, 7, 16, 45, 371, 373, 58, 123, 36, 9250}

  lemma OwnTagsOnly(k: Kind, d: Details)
    requires IsOwn(k)
    ensures
      var own := OwnFields(k, d);
      DistinctFields(own) && forall i | 0 <= i < |own| :: own[i].tag in OWN_TAGS
  {
  }

  lemma OwnTagsAreForeign(t: Tables, tag: nat, v: Wire)
    requires t.header == STANDARD_HEADER && t.trailer == STANDARD_TRAILER && tag in OWN_TAGS
    ensures TakenBy(t.header, Field(tag, v)) && TakenBy(t.trailer, Field(tag, v))
  {
  }

  /** The schema of a kind. */
  function BodyOf(k: Kind): seq<FieldSchema>
    requires IsOwn(k)
    ensures Registered(TypeText(k)) == Some(BodyOf(k))
  {
    match k
    case Logon(_, _) => LOGON
    case Heartbeat(_) => HEARTBEAT
    case TestRequest(_) => TEST_REQUEST
    case ResendRequest(_, _) => RESEND_REQUEST
    case Reject(_) => REJECT
    case SequenceReset(_, _) => SEQUENCE_RESET
    case Logout => LOGOUT
    case Custom(_) => CUSTOM_SCHEMA
  }

  lemma DecIsInt(n: nat)
    ensures IsInt(Dec(n))
  {
    DigitsAreInt(Dec(n));
  }

  /** The schema of its kind names each of its own fields, and takes it. */
  lemma OwnFieldsFit(k: Kind, d: Details, i: nat)
    requires IsOwn(k) && i < |OwnFields(k, d)|
    ensures TakenBy(BodyOf(k), OwnFields(k, d)[i]) && InSchema(BodyOf(k), OwnFields(k, d)[i].tag)
  {
    var f := OwnFields(k, d)[i];
    match k
    case Logon(hb, _) =>
      DecIsInt(d.encryptMethod);
      DecIsInt(hb);
      assert LOGON[0].member.tag == 98 && LOGON[1].member.tag == 108 && LOGON[2].member.tag == 141;
    case Heartbeat(_) => assert HEARTBEAT[0].member.tag == f.tag;
    case TestRequest(_) => assert TEST_REQUEST[0].member.tag == f.tag;
    case ResendRequest(b, e) =>
      DecIsInt(b);
      DecIsInt(e);
      assert RESEND_REQUEST[i].member.tag == f.tag;
    case Reject(ref) => RejectFieldsFit(k, d, i);
    case SequenceReset(n, _) =>
      DecIsInt(n);
      assert SEQUENCE_RESET[0].member.tag == 36 && SEQUENCE_RESET[1].member.tag == 123;
    case Logout => assert LOGOUT[0].member.tag == f.tag;
    case Custom(_) => assert CUSTOM_SCHEMA[0].member.tag == f.tag;
  }

  lemma RejectFieldsFit(k: Kind, d: Details, i: nat)
    requires k.Reject? && i < |OwnFields(k, d)|
    ensures TakenBy(BodyOf(k), OwnFields(k, d)[i]) && InSchema(BodyOf(k), OwnFields(k, d)[i].tag)
  {
    DecIsInt(k.refSeqNum);
    DecIsInt(d.tag);
    DecIsInt(d.reason);
    assert REJECT[0].member.tag == 45 && REJECT[1].member.tag == 371;
    assert REJECT[3].member.tag == 373 && REJECT[4].member.tag == 58;
  }

  lemma RequiredIsPrinted(k: Kind, d: Details)
    requires IsOwn(k)
    ensures RequiredAreThere(BodyOf(k), OwnFields(k, d))
  {
    var own := OwnFields(k, d);
    match k
    case Logon(_, _) => assert own[0].tag == 98 && own[2].tag == 108;
    case Heartbeat(_) =>
    case TestRequest(_) => assert own[0].tag == 112;
    case ResendRequest(_, _) => assert own[0].tag == 7 && own[1].tag == 16;
    case Reject(_) => assert own[0].tag == 45;
    case SequenceReset(_, gapFill) => assert own[if gapFill then 1 else 0].tag == 36;
    case Logout =>
    case Custom(_) => assert own[0].tag == 9250;
  }

  /** A printed message on the wire: the front, its own fields, the checksum. */
  lemma PrintedIs(num: nat, k: Kind, p: Parties, now: Wire, d: Details)
    returns (all: seq<Field>, front: seq<Field>, last: Field)
    requires IsOwn(k)
    ensures all == AllFields(PrintedFields(num, k, p, now, d)) && all == front + OwnFields(k, d) + [last]
    ensures |front| == |FRONT_TAGS| && forall i | 0 <= i < |front| :: front[i].tag == FRONT_TAGS[i]
    ensures front[0].value == VERSION && IsInt(front[1].value) && front[2].value == TypeText(k)
    ensures front[3].value == Dec(num) && front[4].value == p.sender && front[5].value == p.target
    ensures last.tag == 10 && IsInt(last.value)
  {
    var fs := PrintedFields(num, k, p, now, d);
    all := AllFields(fs);
    var length, checksum := AllFieldsFramed(fs);
    front, last := [Field(8, VERSION), Field(9, length)] + HeaderFields(TypeText(k), num, p, now), Field(10, checksum);
  }

  lemma FrontIsProper(t: Tables, body: seq<FieldSchema>, f: Field)
    requires t.header == STANDARD_HEADER && t.trailer == STANDARD_TRAILER && Apart(body)
    requires f.tag in {8, 9, 35, 34, 49, 56, 52, 10} && (f.tag in {9, 34, 10} ==> IsInt(f.value))
    ensures Proper(t, body, f)
  {
    assert STANDARD_HEADER[0].member.tag == 8 && STANDARD_HEADER[1].member.tag == 9;
    assert STANDARD_HEADER[2].member.tag == 35 && STANDARD_HEADER[3].member.tag == 49;
    assert STANDARD_HEADER[4].member.tag == 56 && STANDARD_HEADER[5].member.tag == 34;
    assert STANDARD_HEADER[6].member.tag == 52 && STANDARD_TRAILER[0].member.tag == 10;
  }

  lemma PrintedIsDistinct(front: seq<Field>, own: seq<Field>, last: Field)
    requires |front| == |FRONT_TAGS| && forall i | 0 <= i < |front| :: front[i].tag == FRONT_TAGS[i]
    requires DistinctFields(own) && (forall i | 0 <= i < |own| :: own[i].tag in OWN_TAGS) && last.tag == 10
    ensures DistinctFields(front + own + [last])
  {
    assert forall i, j | 0 <= i < j < |FRONT_TAGS| :: FRONT_TAGS[i] != FRONT_TAGS[j];
    assert forall i | 0 <= i < |FRONT_TAGS| :: FRONT_TAGS[i] !in OWN_TAGS && FRONT_TAGS[i] != 10;
    var all, n := front + own + [last], |front|;
    forall i, j | 0 <= i < j < |all| ensures all[i].tag != all[j].tag {
      if j < n {
      } else if j < n + |own| {
        assert all[j] == own[j - n];
        if i >= n { assert all[i] == own[i - n]; }
      } else {
        assert all[j] == last;
        if i >= n { assert all[i] == own[i - n]; }
      }
    }
  }

  lemma PrintedIsProper(t: Tables, k: Kind, d: Details, front: seq<Field>, last: Field, all: seq<Field>)
    requires t.header == STANDARD_HEADER && t.trailer == STANDARD_TRAILER && IsOwn(k)
    requires |front| == |FRONT_TAGS| && (forall i | 0 <= i < |front| :: front[i].tag == FRONT_TAGS[i])
    requires IsInt(front[1].value) && IsInt(front[3].value) && last.tag == 10 && IsInt(last.value)
    requires all == front + OwnFields(k, d) + [last]
    ensures forall i | 0 <= i < |all| :: Proper(t, BodyOf(k), all[i])
  {
    var own, n := OwnFields(k, d), |front|;
    BodiesAreApart(TypeText(k));
    forall i | 0 <= i < |all| ensures Proper(t, BodyOf(k), all[i]) {
      if i < n {
        assert all[i] == front[i] && front[i].tag == FRONT_TAGS[i];
        FrontIsProper(t, BodyOf(k), all[i]);
      } else if i < n + |own| {
        assert all[i] == own[i - n];
        OwnFieldsFit(k, d, i - n);
        OwnTagsOnly(k, d);
        OwnTagsAreForeign(t, own[i - n].tag, own[i - n].value);
      } else {
        FrontIsProper(t, BodyOf(k), last);
      }
    }
  }

  lemma HoldsWithin(front: seq<Field>, own: seq<Field>, last: Field, tag: nat)
    requires Holds(front, tag) || Holds(own, tag) || last.tag == tag
    ensures Holds(front + own + [last], tag)
  {
    var all := front + own + [last];
    if Holds(front, tag) {
      var i :| 0 <= i < |front| && front[i].tag == tag;
      assert all[i] == front[i];
    } else if Holds(own, tag) {
      var i :| 0 <= i < |own| && own[i].tag == tag;
      assert all[|front| + i] == own[i];
    } else {
      assert all[|front| + |own|] == last;
    }
  }

  lemma RequiredIsThere(k: Kind, d: Details, front: seq<Field>, last: Field, all: seq<Field>)
    requires IsOwn(k) && |front| == |FRONT_TAGS| && last.tag == 10
    requires forall i | 0 <= i < |front| :: front[i].tag == FRONT_TAGS[i]
    requires all == front + OwnFields(k, d) + [last]
    ensures RequiredAreThere(STANDARD_HEADER, all) && RequiredAreThere(STANDARD_TRAILER, all)
    ensures RequiredAreThere(BodyOf(k), all)
  {
    var own := OwnFields(k, d);
    RequiredIsPrinted(k, d);
    forall tag | Holds(front, tag) || Holds(own, tag) || tag == 10 ensures Holds(all, tag) {
      HoldsWithin(front, own, last, tag);
    }
    assert front[0].tag == 8 && front[1].tag == 9 && front[2].tag == 35 && front[3].tag == 34;
    assert front[4].tag == 49 && front[5].tag == 56 && front[6].tag == 52;
  }

  lemma PrintedHeader(t: Tables, params: SessionParameters, k: Kind, num: nat, front: seq<Field>, all: seq<Field>)
    requires t.header == STANDARD_HEADER && IsOwn(k) && DistinctFields(all) && front <= all
    requires |front| == |FRONT_TAGS| && forall i | 0 <= i < |front| :: front[i].tag == FRONT_TAGS[i]
    requires front[0].value == VERSION && IsInt(front[1].value) && front[2].value == TypeText(k)
    requires front[3].value == Dec(num)
    requires front[4].value == params.targetCompId && front[5].value == params.senderCompId
    ensures HeaderRule(t, all, TypeText(k), params) && LastValue(all, 35) == Some(TypeText(k))
  {
    assert forall i | 0 <= i < |front| :: all[i] == front[i];
    assert all[2].tag == 35 && all[3].tag == 34 && all[4].tag == 49 && all[5].tag == 56;
    DecIsInt(num);
    OnlyOneOf(all, 2);
    OnlyOneOf(all, 3);
    OnlyOneOf(all, 4);
    OnlyOneOf(all, 5);
  }

  /** The other end's validator accepts every message a session prints by itself. */
  lemma PrintedIsAccepted(t: Tables, params: SessionParameters, num: nat, k: Kind, p: Parties, now: Wire, d: Details)
    requires t.header == STANDARD_HEADER && t.trailer == STANDARD_TRAILER && IsOwn(k)
    requires t.registry(TypeText(k)) == Some(BodyOf(k)) && p == Parties(params.targetCompId, params.senderCompId)
    ensures Accepts(t, AllFields(PrintedFields(num, k, p, now, d)), params)
  {
    var all, front, last := PrintedIs(num, k, p, now, d);
    OwnTagsOnly(k, d);
    DecIsInt(num);
    PrintedIsDistinct(front, OwnFields(k, d), last);
    PrintedIsProper(t, k, d, front, last, all);
    RequiredIsThere(k, d, front, last, all);
    PrintedHeader(t, params, k, num, front, all);
    ProperIsAccepted(t, params, all, TypeText(k), BodyOf(k));
  }

  /** A gap fill is a printed sequence reset with two fields of a resend more. */
  lemma GapFillIsReset(num: nat, newSeqNo: nat, p: Parties, now: Wire, later: Wire, d: Details)
    ensures
      var fs := PrintedFields(num, SequenceReset(newSeqNo, true), p, now, d);
      && Typed(fs) && GapFillFields(num, newSeqNo, p, now, later) == Put(Put(fs, 43, YES), 122, later)
  {
    var fs := PrintedFields(num, SequenceReset(newSeqNo, true), p, now, d);
    assert Put(fs, 43, YES) == fs + [Field(43, YES)];
    assert Put(fs + [Field(43, YES)], 122, later) == fs + [Field(43, YES)] + [Field(122, later)];
  }

  /** The other end's validator accepts a printed gap fill. */
  lemma GapFillAccepted(t: Tables, params: SessionParameters, num: nat, newSeqNo: nat, p: Parties,
                        now: Wire, later: Wire)
    requires Standard(t) && t.registry([52]) == Some(SEQUENCE_RESET)
    requires p == Parties(params.targetCompId, params.senderCompId)
    ensures Accepts(t, AllFields(GapFillFields(num, newSeqNo, p, now, later)), params)
  {
    var k, d := SequenceReset(newSeqNo, true), Details(0, 0, 0, []);
    var fs := PrintedFields(num, k, p, now, d);
    PrintedIsAccepted(t, params, num, k, p, now, d);
    GapFillIsReset(num, newSeqNo, p, now, later, d);
    var length, checksum := AllFieldsFramed(fs);
    var a := PutAccepted(t, params, length, fs, checksum, 43, YES);
    var b := PutAccepted(t, params, length, a, checksum, 122, later);
    var length', checksum' := AllFieldsFramed(b);
    ReframedAccepted(t, params, length, b, checksum, length', checksum');
  }
}
