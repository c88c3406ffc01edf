/** What the fields of a message say: lookup, replacement, and the session message they stand for. */
module MessageFields {
  import opened Bytes
  import opened Decimals
  import opened Protocol
  import opened Wires
  import opened MessageStores

  const YES: Wire := [89]

  // ---- lookup and replacement ----

  /** The value of the first field with this tag (`std::find_if` over a parsed message). */
  function Get(fs: seq<Field>, tag: nat): Option<Wire> {
    if fs == [] then None
    else if fs[0].tag == tag then Some(fs[0].value)
    else Get(fs[1..], tag)
  }

  predicate AtMostOnce(fs: seq<Field>, tag: nat) {
    forall i, j | 0 <= i < j < |fs| :: fs[i].tag != tag || fs[j].tag != tag
  }

  /** Gives the last field with this tag a new value, or appends one where there is none. */
  function Put(fs: seq<Field>, tag: nat, value: Wire): seq<Field> {
    match LastWith(fs, tag)
    case None => fs + [Field(tag, value)]
    case Some(i) => fs[i := Field(tag, value)]
  }

  lemma {:induction false} GetIs(fs: seq<Field>, tag: nat, i: nat)
    requires i < |fs| && fs[i].tag == tag
    requires forall j | 0 <= j < i :: fs[j].tag != tag
    ensures Get(fs, tag) == Some(fs[i].value)
    decreases i
  {
    if i > 0 {
      GetIs(fs[1..], tag, i - 1);
    }
  }

  lemma {:induction false} GetNone(fs: seq<Field>, tag: nat)
    requires forall j | 0 <= j < |fs| :: fs[j].tag != tag
    ensures Get(fs, tag) == None
    decreases |fs|
  {
    if fs != [] {
      GetNone(fs[1..], tag);
    }
  }

  /** Where a tag occurs once, the first and the last occurrence are the same. */
  lemma GetLast(fs: seq<Field>, tag: nat)
    requires AtMostOnce(fs, tag)
    ensures LastWith(fs, tag).None? ==> Get(fs, tag) == None
    ensures LastWith(fs, tag).Some? ==> Get(fs, tag) == Some(fs[LastWith(fs, tag).value].value)
  {
    match LastWith(fs, tag)
    case None => GetNone(fs, tag);
    case Some(i) =>
      forall j | 0 <= j < i ensures fs[j].tag != tag {
        assert fs[i].tag == tag;
      }
      GetIs(fs, tag, i);
  }

  lemma {:induction false} GetConcat(fs: seq<Field>, gs: seq<Field>, tag: nat)
    ensures Get(fs + gs, tag) == if Get(fs, tag).Some? then Get(fs, tag) else Get(gs, tag)
    decreases |fs|
  {
    if fs == [] {
      assert fs + gs == gs;
    } else {
      assert (fs + gs)[1..] == fs[1..] + gs;
      GetConcat(fs[1..], gs, tag);
    }
  }

  lemma {:induction false} GetAfterUpdate(fs: seq<Field>, i: nat, value: Wire, tag: nat)
    requires i < |fs| && fs[i].tag != tag
    ensures Get(fs[i := Field(fs[i].tag, value)], tag) == Get(fs, tag)
    decreases i
  {
    var gs := fs[i := Field(fs[i].tag, value)];
    if i > 0 {
      assert gs[1..] == fs[1..][i - 1 := Field(fs[i].tag, value)];
      GetAfterUpdate(fs[1..], i - 1, value, tag);
    } else {
      assert gs[1..] == fs[1..];
    }
  }

  /** `Put` sets what it is asked to set, and nothing else. */
  lemma PutGets(fs: seq<Field>, tag: nat, value: Wire, t: nat)
    requires AtMostOnce(fs, tag)
    ensures Get(Put(fs, tag, value), t) == if t == tag then Some(value) else Get(fs, t)
    ensures AtMostOnce(fs, t) ==> AtMostOnce(Put(fs, tag, value), t)
  {
    var f := Field(tag, value);
    match LastWith(fs, tag)
    case None =>
      GetConcat(fs, [f], t);
      GetNone(fs, tag);
    case Some(i) =>
      if t != tag {
        GetAfterUpdate(fs, i, value, t);
      } else {
        forall j | 0 <= j < i ensures fs[j].tag != tag {
          assert fs[i].tag == tag;
        }
        GetIs(fs[i := f], tag, i);
      }
  }

  // ---- a resend, by its fields ----

  /** The three fields a resend may change. */
  predicate Changeable(tag: nat) {
    tag == 43 || tag == 52 || tag == 122
  }

  /** All other fields, in order. */
  function Others(fs: seq<Field>): seq<Field> {
    if fs == [] then []
    else if Changeable(fs[|fs| - 1].tag) then Others(fs[..|fs| - 1])
    else Others(fs[..|fs| - 1]) + [fs[|fs| - 1]]
  }

  lemma {:induction false} OthersAfterUpdate(fs: seq<Field>, i: nat, f: Field)
    requires i < |fs| && f.tag == fs[i].tag && Changeable(f.tag)
    ensures Others(fs[i := f]) == Others(fs)
    decreases |fs|
  {
    var gs, n := fs[i := f], |fs| - 1;
    if i < n {
      assert gs[..n] == fs[..n][i := f];
      OthersAfterUpdate(fs[..n], i, f);
    } else {
      assert gs[..n] == fs[..n];
    }
  }

  lemma PutKeepsOthers(fs: seq<Field>, tag: nat, value: Wire)
    requires Changeable(tag)
    ensures Others(Put(fs, tag, value)) == Others(fs)
  {
    match LastWith(fs, tag)
    case None => assert (fs + [Field(tag, value)])[..|fs|] == fs;
    case Some(i) => OthersAfterUpdate(fs, i, Field(tag, value));
  }

  /** When a message was sent first. */
  function SentAt(fs: seq<Field>): Wire
    requires LastWith(fs, 52).Some?
  {
    fs[LastWith(fs, 52).value].value
  }

  /** The fields of a resend: flagged as a possible duplicate, sent now, first sent when it was. */
  function Regen(fs: seq<Field>, now: Wire): seq<Field>
    requires LastWith(fs, 52).Some?
  {
    Put(Put(Put(fs, 43, YES), 122, SentAt(fs)), 52, now)
  }

  /** One SendingTime, and at most one of the other fields a resend sets. */
  predicate Resendable(fs: seq<Field>) {
    LastWith(fs, 52).Some? && AtMostOnce(fs, 52) && AtMostOnce(fs, 43) && AtMostOnce(fs, 122)
  }

  /** A resend changes the three fields it is meant to change; every other field keeps its value and
      its place among the others. */
  lemma RegenSetsThreeFields(fs: seq<Field>, now: Wire, t: nat)
    requires Resendable(fs)
    ensures Get(Regen(fs, now), t) ==
      if t == 43 then Some(YES) else if t == 52 then Some(now) else if t == 122 then Get(fs, 52) else Get(fs, t)
    ensures Others(Regen(fs, now)) == Others(fs)
  {
    var a := Put(fs, 43, YES);
    var b := Put(a, 122, SentAt(fs));
    GetLast(fs, 52);
    PutGets(fs, 43, YES, 122);
    PutGets(fs, 43, YES, 52);
    PutGets(a, 122, SentAt(fs), 52);
    PutGets(fs, 43, YES, t);
    PutGets(a, 122, SentAt(fs), t);
    PutGets(b, 52, now, t);
    PutKeepsOthers(fs, 43, YES);
    PutKeepsOthers(a, 122, SentAt(fs));
    PutKeepsOthers(b, 52, now);
  }

  // ---- the session message that fields stand for ----

  function Number(v: Option<Wire>): nat {
    if v.Some? && ParseDec(v.value).Some? then ParseDec(v.value).value else 0
  }

  function Text(v: Option<Wire>): Wire {
    if v.Some? then v.value else []
  }

  const CUSTOM: Wire := [99, 117]

  function KindOf(fs: seq<Field>): Kind {
    var t := Text(Get(fs, 35));
    if t == [65] then Logon(Number(Get(fs, 108)), Get(fs, 141) == Some(YES))
    else if t == [53] then Logout
    else if t == [48] then Heartbeat(Text(Get(fs, 112)))
    else if t == [49] then TestRequest(Text(Get(fs, 112)))
    else if t == [50] then ResendRequest(Number(Get(fs, 7)), Number(Get(fs, 16)))
    else if t == [51] then Reject(Number(Get(fs, 45)))
    else if t == [52] then SequenceReset(Number(Get(fs, 36)), Get(fs, 123) == Some(YES))
    else if t == CUSTOM then Custom(Text(Get(fs, 9250)))
    else App(Encode(Others(fs)))
  }

  function Meaning(fs: seq<Field>): Msg {
    Msg(Number(Get(fs, 34)), KindOf(fs), Get(fs, 43) == Some(YES))
  }

  /** The first field with this tag says "Y". */
  ghost predicate SaysYes(fs: seq<Field>, tag: nat) {
    exists i :: FirstSays(fs, tag, i, [89])
  }

  predicate FirstSays(fs: seq<Field>, tag: nat, i: nat, value: Wire) {
    i < |fs| && fs[i] == Field(tag, value) && forall j | 0 <= j < i :: fs[j].tag != tag
  }

  lemma {:induction false} GetExactly(fs: seq<Field>, tag: nat, value: Wire)
    ensures Get(fs, tag) == Some(value) <==> exists i: nat :: FirstSays(fs, tag, i, value)
    decreases |fs|
  {
    if fs != [] && fs[0].tag != tag {
      GetExactly(fs[1..], tag, value);
      if i: nat :| FirstSays(fs[1..], tag, i, value) {
        assert FirstSays(fs, tag, i + 1, value) by {
          forall j | 0 <= j < i + 1 ensures fs[j].tag != tag {
            if j > 0 { assert fs[1..][j - 1] == fs[j]; }
          }
        }
      }
      if i: nat :| FirstSays(fs, tag, i, value) {
        assert FirstSays(fs[1..], tag, i - 1, value);
      }
    } else if fs != [] {
      assert fs[0].value == value ==> FirstSays(fs, tag, 0, value);
    }
  }

  /** The flags of a message are set by "Y" and by nothing else: "N", or no field, is an original, a Logon without a
      reset, and a reset that is no gap fill. */
  lemma FlagsExactly(fs: seq<Field>)
    ensures Meaning(fs).possDup <==> SaysYes(fs, 43)
    ensures Meaning(fs).kind.Logon? ==> (Meaning(fs).kind.resetSeqNum <==> SaysYes(fs, 141))
    ensures Meaning(fs).kind.SequenceReset? ==> (Meaning(fs).kind.gapFill <==> SaysYes(fs, 123))
  {
    GetExactly(fs, 43, [89]);
    GetExactly(fs, 141, [89]);
    GetExactly(fs, 123, [89]);
  }

  /** The types a resend skips, as `no_resend` lists them. */
  predicate NoResend(msgType: Wire) {
    |msgType| == 1 && msgType[0] in {48, 65, 50, 49, 51, 52, 53}
  }

  lemma NoResendIsAdmin(fs: seq<Field>)
    ensures NoResend(Text(Get(fs, 35))) <==> Admin(KindOf(fs))
  {
    var t := Text(Get(fs, 35));
    if |t| == 1 {
      assert t == [t[0]];
    }
  }

  lemma SameKind(fs: seq<Field>, gs: seq<Field>)
    requires forall t: nat | !Changeable(t) :: Get(fs, t) == Get(gs, t)
    requires Others(fs) == Others(gs)
    ensures KindOf(fs) == KindOf(gs)
  {
    assert Get(fs, 35) == Get(gs, 35) && Get(fs, 108) == Get(gs, 108) && Get(fs, 141) == Get(gs, 141);
    assert Get(fs, 112) == Get(gs, 112) && Get(fs, 7) == Get(gs, 7) && Get(fs, 16) == Get(gs, 16);
    assert Get(fs, 45) == Get(gs, 45) && Get(fs, 36) == Get(gs, 36) && Get(fs, 123) == Get(gs, 123);
    assert Get(fs, 9250) == Get(gs, 9250);
  }

  /** A resend means what the original meant, as a possible duplicate. */
  lemma RegenKeepsMeaning(fs: seq<Field>, now: Wire)
    requires Resendable(fs)
    ensures Meaning(Regen(fs, now)) == Meaning(fs).(possDup := true)
  {
    forall t: nat | true
      ensures !Changeable(t) ==> Get(Regen(fs, now), t) == Get(fs, t)
      ensures Others(Regen(fs, now)) == Others(fs)
    {
      RegenSetsThreeFields(fs, now, t);
    }
    RegenSetsThreeFields(fs, now, 43);
    SameKind(Regen(fs, now), fs);
    assert Get(Regen(fs, now), 34) == Get(fs, 34);
  }

  // ---- what a session prints ----

  datatype Parties = Parties(sender: Wire, target: Wire)

  function HeaderFields(msgType: Wire, num: nat, p: Parties, now: Wire): seq<Field> {
    [Field(35, msgType), Field(34, Dec(num)), Field(49, p.sender), Field(56, p.target), Field(52, now)]
  }

  /** The clock is read once for the header and once more for OrigSendingTime. */
  function GapFillFields(num: nat, newSeqNo: nat, p: Parties, now: Wire, later: Wire): seq<Field> {
    HeaderFields([52], num, p, now)
    + [Field(123, YES), Field(36, Dec(newSeqNo)), Field(43, YES), Field(122, later)]
  }

  lemma GapFillMeaning(b: nat, e: nat, p: Parties, now: Wire, later: Wire)
    ensures Meaning(GapFillFields(b, e + 1, p, now, later)) == GapFill(b, e)
  {
    var fs := GapFillFields(b, e + 1, p, now, later);
    GetIs(fs, 35, 0);
    GetIs(fs, 34, 1);
    GetIs(fs, 123, 5);
    GetIs(fs, 36, 6);
    GetIs(fs, 43, 7);
    ParseDecOfDec(b);
    ParseDecOfDec(e + 1);
  }

  /** An application message as `from_app` prints it stands for itself, as an original. */
  lemma FromAppMeaning(msgType: Wire, num: nat, p: Parties, now: Wire, fs: seq<Field>)
    ensures
      var all := HeaderFields(msgType, num, p, now) + fs;
      && Get(all, 35) == Some(msgType) && Get(all, 34) == Some(Dec(num)) && Get(all, 52) == Some(now)
      && Meaning(all).num == num
      && (Get(fs, 43) == None ==> !Meaning(all).possDup)
  {
    var h := HeaderFields(msgType, num, p, now);
    GetIs(h, 35, 0);
    GetIs(h, 34, 1);
    GetIs(h, 52, 4);
    GetNone(h, 43);
    GetConcat(h, fs, 35);
    GetConcat(h, fs, 34);
    GetConcat(h, fs, 52);
    GetConcat(h, fs, 43);
    ParseDecOfDec(num);
  }
}
