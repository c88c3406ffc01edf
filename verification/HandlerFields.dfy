/** What the handlers of a session look up without a test: it is there, in every message that is accepted. */
module HandlerFields {
  import opened Bytes
  import opened Wires
  import opened MessageStores
  import opened MessageFields
  import opened ValidatorSpec
  import opened Conformance
  import S = Schemas

  predicate IsThere(fs: seq<Field>, tag: nat) {
    FirstWith(fs, tag).Some?
  }

  /** There, and a number. */
  predicate IsNumeral(fs: seq<Field>, tag: nat) {
    IsThere(fs, tag) && Digits(Unsigned(fs[FirstWith(fs, tag).value].value))
  }

  /** A required field of the schema of a type, in an accepted message of that type. */
  lemma RequiredIsThere(fs: seq<Field>, params: SessionParameters, msgType: Wire, j: nat)
    requires Accepts(S.REPOSITORY, fs, params) && LastValue(fs, 35) == Some(msgType)
    requires S.Registered(msgType).Some? && j < |S.Registered(msgType).value|
    requires S.Registered(msgType).value[j].member.presence == Required
    ensures
      var m := S.Registered(msgType).value[j].member;
      IsThere(fs, m.tag) && (m.kind == Int ==> IsNumeral(fs, m.tag))
  {
    var f := S.Registered(msgType).value[j];
    assert FieldRule(fs, f);
    TypeExactly(fs[FirstWith(fs, f.member.tag).value].value, f.member.kind);
  }

  /** So no look-up of a handler fails: an accepted Logon has its interval, a TestRequest its text, a ResendRequest
      both ends of its range, a Reject the number it refers to, a SequenceReset its new number, and a custom message
      its payload. */
  lemma HandlersFind(fs: seq<Field>, params: SessionParameters, msgType: Wire)
    requires Accepts(S.REPOSITORY, fs, params) && LastValue(fs, 35) == Some(msgType)
    ensures msgType == [65] ==> IsNumeral(fs, 98) && IsNumeral(fs, 108)
    ensures msgType == [49] ==> IsThere(fs, 112)
    ensures msgType == [50] ==> IsNumeral(fs, 7) && IsNumeral(fs, 16)
    ensures msgType == [51] ==> IsNumeral(fs, 45)
    ensures msgType == [52] ==> IsNumeral(fs, 36)
    ensures msgType == CUSTOM ==> IsThere(fs, 9250)
  {
    if msgType in {[65], [49], [50], [51], [52], CUSTOM} {
      RequiredIsThere(fs, params, msgType, 0);
      if msgType == [65] || msgType == [50] {
        RequiredIsThere(fs, params, msgType, 1);
      }
    }
  }
}
