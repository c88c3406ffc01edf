/** Building messages, and building them again for a resend, in the scratch buffer. */
module MessageFactories {
  import opened Bytes
  import opened Decimals
  import opened Framing
  import opened Wires
  import opened MessageStores
  import opened MessageFields
  import opened Scratch

  // ---- the wire of a message and the index of that wire ----

  lemma BuildIsEncode(fs: seq<Field>)
    ensures Build(Encode(fs)) == Encode(AllFields(fs))
  {
    var body := Encode(fs);
    var front, last := [Field(8, VERSION), LengthField(body)] + fs, ChecksumField(body);
    PrefixIsEncode(fs);
    EncodeSnoc(front, last);
    TwoDigits(1, 0);
    assert FieldBytes(last) == Trailer(Prefix(body));
  }

  /** The bytes in front of the body. */
  function BodyOffset(body: Wire): nat {
    |BEGIN| + |LengthPart(|body|)|
  }

  function Front(fs: seq<Field>): seq<Field> {
    [Field(8, VERSION), LengthField(Encode(fs))]
  }

  lemma FrontLength(fs: seq<Field>)
    ensures |Encode(Front(fs))| == BodyOffset(Encode(fs))
  {
    PrefixIsEncode(fs);
    EncodeConcat(Front(fs), fs);
  }

  function Shift(p: PatchPoint, n: nat): PatchPoint {
    if p.At? then At(p.off + n, p.len) else Absent
  }

  lemma {:induction false} LastWithBehind(front: seq<Field>, fs: seq<Field>, tag: nat)
    requires forall i | 0 <= i < |front| :: front[i].tag != tag
    ensures LastWith(front + fs, tag) ==
      if LastWith(fs, tag).Some? then Some(|front| + LastWith(fs, tag).value) else None
    decreases |fs|
  {
    if fs == [] {
      assert front + fs == front;
    } else {
      LastWithBehind(front, fs[..|fs| - 1], tag);
      assert (front + fs)[..|front| + |fs| - 1] == front + fs[..|fs| - 1];
    }
  }

  lemma PointShift(front: seq<Field>, fs: seq<Field>, tag: nat, n: nat)
    requires n == |Encode(front)| && forall i | 0 <= i < |front| :: front[i].tag != tag
    ensures PointOf(front + fs, tag) == Shift(PointOf(fs, tag), n)
  {
    LastWithBehind(front, fs, tag);
    var i := LastWith(fs, tag);
    if i.Some? {
      EncodeConcat(front, fs[..i.value]);
      assert (front + fs)[..|front| + i.value] == front + fs[..i.value];
    }
  }

  /** The checksum field is not indexed. */
  lemma IndexOfFront(fs: seq<Field>, off: nat) returns (all: seq<Field>, idx: MsgIndex, len: nat)
    requires NoChecksum(fs)
    ensures all == Front(fs) + fs && NoChecksum(all)
    ensures idx == IndexOf(AllFields(fs), off) == IndexFields(EmptyIndex(off, len), all, 0)
  {
    all, idx, len := Front(fs) + fs, IndexOf(AllFields(fs), off), |Encode(AllFields(fs))|;
    assert AllFields(fs) == all + [ChecksumField(Encode(fs))];
    IndexStops(EmptyIndex(off, len), all, ChecksumField(Encode(fs)), 0);
  }

  /** The index of a built wire points into its body. */
  lemma IndexOfBuild(fs: seq<Field>, off: nat, tag: nat)
    requires NoChecksum(fs) && tag in PATCHED
    ensures Point(IndexOf(AllFields(fs), off), tag) == Shift(PointOf(fs, tag), BodyOffset(Encode(fs)))
  {
    var all, idx, len := IndexOfFront(fs, off);
    IndexPoints(all, off, len, tag);
    assert PointOf(all, tag) == Shift(PointOf(fs, tag), BodyOffset(Encode(fs))) by {
      FrontLength(fs);
      PointShift(Front(fs), fs, tag, BodyOffset(Encode(fs)));
    }
  }

  // ---- one edit ----

  lemma EncodeAround(a: seq<Field>, f: Field, c: seq<Field>)
    ensures Encode(a + [f] + c) == (Encode(a) + (Dec(f.tag) + [EQUALS])) + f.value + ([SOH] + Encode(c))
  {
    EncodeSnoc(a, f);
    EncodeConcat(a + [f], c);
    Regrouped(Encode(a), Dec(f.tag), [EQUALS], f.value, [SOH], Encode(c));
  }

  lemma Regrouped(a: Wire, d: Wire, e: Wire, v: Wire, s: Wire, c: Wire)
    ensures (a + (d + e + v + s)) + c == (a + (d + e)) + v + (s + c)
  {
  }

  /** The print of a list of fields around the value of one of them, whatever that value is. */
  lemma Around(fs: seq<Field>, i: nat, value: Wire) returns (pre: Wire, post: Wire)
    requires i < |fs|
    ensures |pre| == ValueAt(fs, i)
    ensures Encode(fs) == pre + fs[i].value + post
    ensures Encode(fs[i := Field(fs[i].tag, value)]) == pre + value + post
  {
    var f := Field(fs[i].tag, value);
    var a, c := fs[..i], fs[i + 1..];
    pre, post := Encode(a) + (Dec(f.tag) + [EQUALS]), [SOH] + Encode(c);
    EncodeAround(a, fs[i], c);
    EncodeAround(a, f, c);
    assert fs == a + [fs[i]] + c && fs[i := f] == a + [f] + c;
  }

  predicate SameTags(fs: seq<Field>, gs: seq<Field>) {
    |fs| == |gs| && forall i | 0 <= i < |fs| :: fs[i].tag == gs[i].tag
  }

  lemma {:induction false} LastWithSameTags(fs: seq<Field>, gs: seq<Field>, tag: nat)
    requires SameTags(fs, gs)
    ensures LastWith(fs, tag) == LastWith(gs, tag)
    decreases |fs|
  {
    if fs != [] && fs[|fs| - 1].tag != tag {
      LastWithSameTags(fs[..|fs| - 1], gs[..|gs| - 1], tag);
    }
  }

  /** A value of the same length leaves every other value where it is. */
  lemma PointAfterUpdate(fs: seq<Field>, i: nat, value: Wire, tag: nat)
    requires i < |fs| && fs[i].tag != tag && |value| == |fs[i].value|
    ensures PointOf(fs[i := Field(fs[i].tag, value)], tag) == PointOf(fs, tag)
  {
    var gs := fs[i := Field(fs[i].tag, value)];
    LastWithSameTags(fs, gs, tag);
    var j := LastWith(fs, tag);
    if j.Some? {
      if i < j.value {
        assert gs[..j.value] == fs[..j.value][i := Field(fs[i].tag, value)];
        var pre, post := Around(fs[..j.value], i, value);
      } else {
        assert gs[..j.value] == fs[..j.value];
      }
    }
  }

  /** `Put` may change the value of `tag` in place: there is none, or it has the same length. */
  predicate Fits(fs: seq<Field>, tag: nat, value: Wire) {
    LastWith(fs, tag).Some? ==> |value| == |fs[LastWith(fs, tag).value].value|
  }

  lemma PutKeepsPoint(fs: seq<Field>, tag: nat, value: Wire, t: nat)
    requires Fits(fs, tag, value) && t != tag
    ensures PointOf(Put(fs, tag, value), t) == PointOf(fs, t)
    ensures LastWith(Put(fs, tag, value), t) == LastWith(fs, t)
    ensures Fits(Put(fs, tag, value), t, []) <==> Fits(fs, t, [])
    ensures LastWith(fs, t).Some? ==>
      Put(fs, tag, value)[LastWith(fs, t).value] == fs[LastWith(fs, t).value]
  {
    match LastWith(fs, tag)
    case None =>
      PointOfSnoc(fs, Field(tag, value), t);
      assert (fs + [Field(tag, value)])[..|fs|] == fs;
    case Some(i) =>
      PointAfterUpdate(fs, i, value, t);
      LastWithSameTags(fs, fs[i := Field(tag, value)], t);
  }

  // ---- the factory ----

  /** The scratch buffer before the body length is known. */
  function Blank(body: Wire): Wire {
    BEGIN + LENGTH_TAG + Zeros(FactoryScratch.PLACEHOLDER_SIZE) + [SOH] + body
  }

  const BLANK_SIZE: nat := |BEGIN| + 2 + FactoryScratch.PLACEHOLDER_SIZE + 1

  lemma BlankMore(body: Wire, more: Wire)
    ensures Blank(body) + more == Blank(body + more)
  {
  }

  lemma BlankEdit(pre: Wire, v: Wire, post: Wire, value: Wire)
    requires |v| == |value|
    ensures |Blank(pre + v + post)| == BLANK_SIZE + |pre| + |v| + |post|
    ensures
      var s, k := Blank(pre + v + post), BLANK_SIZE + |pre|;
      s[..k] + value + s[k + |value|..] == Blank(pre + value + post)
  {
    var s, k := Blank(pre + v + post), BLANK_SIZE + |pre|;
    BlankMore(pre, v + post);
    assert pre + v + post == pre + (v + post);
    assert s[..k] == Blank(pre);
    assert s[k + |value|..] == post;
    BlankMore(pre, value);
    BlankMore(pre + value, post);
  }

  /** Overwriting a value in the scratch buffer replaces the field. */
  lemma EditGives(fs: seq<Field>, tag: nat, value: Wire, p: PatchPoint, offset: nat)
    returns (s: Wire, k: nat, after: seq<Field>)
    requires LastWith(fs, tag).Some? && Fits(fs, tag, value) && p == Shift(PointOf(fs, tag), offset)
    ensures p.At? && p.off >= offset && |value| == p.len
    ensures s == Blank(Encode(fs)) && after == Put(fs, tag, value)
    ensures k == BLANK_SIZE + p.off - offset && k + p.len <= |s|
    ensures s[..k] + value + s[k + p.len..] == Blank(Encode(after))
  {
    var i := LastWith(fs, tag).value;
    s, k, after := Blank(Encode(fs)), BLANK_SIZE + p.off - offset, Put(fs, tag, value);
    var pre, post := Around(fs, i, value);
    BlankEdit(pre, fs[i].value, post, value);
  }

  /** The wire has a body whose length fits the placeholder. */
  predicate BodyFits(fs: seq<Field>) {
    |Encode(fs)| < Pow10(FactoryScratch.PLACEHOLDER_SIZE)
  }

  /** The body of a built wire: behind the length field, in front of the last "10=". */
  lemma BodyOfBuild(body: Wire)
    ensures
      var w, k := Build(body), BodyOffset(body);
      && Find(w, LENGTH_TAG, 0) == Some(|BEGIN|)
      && FindByte(w, SOH, |BEGIN|) == Some(k - 1)
      && FindLast(w, CHECKSUM_TAG, |w|) == Some(k + |body|) && k + |body| <= |w|
      && w[k..k + |body|] == body
  {
    var w, k := Build(body), BodyOffset(body);
    LastChecksumTag(body);
    assert w == BEGIN + (LENGTH_TAG + Dec(|body|) + [SOH]) + body + Trailer(Prefix(body));
    assert w[|BEGIN|..|BEGIN| + 2] == LENGTH_TAG;
    forall j: nat | j < |BEGIN| ensures !OccursAt(w, LENGTH_TAG, j) {
      OccursByte(w, LENGTH_TAG, j, 0);
      assert w[j] == BEGIN[j];
    }
    FindIs(w, LENGTH_TAG, 0, |BEGIN|);
    forall j: nat | |BEGIN| <= j < k - 1 ensures w[j] != SOH {
      DecHas(|body|, SOH);
      assert w[j] == (LENGTH_TAG + Dec(|body|))[j - |BEGIN|];
    }
    FindByteIs(w, SOH, |BEGIN|, k - 1);
  }

  lemma FindIs(s: Wire, pat: Wire, from: nat, at: nat)
    requires from <= at && OccursAt(s, pat, at)
    requires forall j: nat | from <= j < at :: !OccursAt(s, pat, j)
    ensures Find(s, pat, from) == Some(at)
  {
    assert at + |pat| <= |s|;
  }

  /** What a resend needs: a SendingTime to keep, room for the new values, no checksum in the body. */
  predicate Editable(fs: seq<Field>, now: Wire) {
    && NoChecksum(fs) && LastWith(fs, 52).Some?
    && Fits(fs, 52, now) && Fits(fs, 43, YES) && Fits(fs, 122, SentAt(fs))
  }

  /** The three edits one by one; the index still holds after each of them. */
  lemma RegenSteps(fs: seq<Field>, now: Wire) returns (a: seq<Field>, b: seq<Field>)
    requires Editable(fs, now)
    ensures a == Put(fs, 43, YES) && b == Put(a, 122, SentAt(fs)) && Regen(fs, now) == Put(b, 52, now)
    ensures PointOf(a, 122) == PointOf(fs, 122) && Fits(a, 122, SentAt(fs))
    ensures PointOf(b, 52) == PointOf(fs, 52) && Fits(b, 52, now) && LastWith(b, 52).Some?
  {
    a := Put(fs, 43, YES);
    b := Put(a, 122, SentAt(fs));
    PutKeepsPoint(fs, 43, YES, 122);
    PutKeepsPoint(fs, 43, YES, 52);
    PutKeepsPoint(a, 122, SentAt(fs), 52);
  }

  /** The old SendingTime, read off the wire. */
  lemma SentAtOnWire(wire: Wire, p: PatchPoint, fs: seq<Field>)
    requires wire == Build(Encode(fs)) && LastWith(fs, 52).Some?
    requires p == Shift(PointOf(fs, 52), BodyOffset(Encode(fs)))
    ensures p.At? && p.off + p.len <= |wire| && wire[p.off..p.off + p.len] == SentAt(fs)
  {
    SentPoint(fs, BodyOffset(Encode(fs)));
    BodyOccurs(wire, Encode(fs));
    SentWithin(wire, Encode(fs), BodyOffset(Encode(fs)), fs);
  }

  lemma SentWithin(wire: Wire, body: Wire, k: nat, fs: seq<Field>)
    requires LastWith(fs, 52).Some? && body == Encode(fs) && OccursAt(wire, body, k)
    ensures
      var off := k + ValueAt(fs, LastWith(fs, 52).value);
      off + |SentAt(fs)| <= |wire| && wire[off..off + |SentAt(fs)|] == SentAt(fs)
  {
    var pre, post := Around(fs, LastWith(fs, 52).value, []);
    Within(wire, k, pre, SentAt(fs), post, k + |pre|, |SentAt(fs)|);
  }

  lemma SentPoint(fs: seq<Field>, k: nat)
    requires LastWith(fs, 52).Some?
    ensures Shift(PointOf(fs, 52), k) == At(k + ValueAt(fs, LastWith(fs, 52).value), |SentAt(fs)|)
  {
  }

  lemma BodyOccurs(wire: Wire, body: Wire)
    requires wire == Build(body)
    ensures OccursAt(wire, body, BodyOffset(body))
  {
    BodyOfBuild(body);
  }

  lemma Within(w: Wire, k: nat, pre: Wire, v: Wire, post: Wire, off: nat, len: nat)
    requires OccursAt(w, pre + v + post, k) && off == k + |pre| && len == |v|
    ensures off + len <= |w| && w[off..off + len] == v
  {
    assert pre + v + post == pre + (v + post);
    OccursSplit(w, pre, v + post, k);
    OccursSplit(w, v, post, k + |pre|);
  }

  class MessageFactory {
    const scratch: FactoryScratch
    const parties: Parties
    var nextOut: nat

    ghost predicate Valid()
      reads this, scratch, scratch.buffer
    {
      scratch.Valid()
    }

    /** A message is being printed: everything up to here is there, the body length is still open. */
    ghost predicate Printing(body: Wire)
      reads this, scratch, scratch.buffer
    {
      && Valid() && scratch.bodyLengthDigitSize == FactoryScratch.PLACEHOLDER_SIZE
      && scratch.bodyLengthOffset == |BEGIN| + 2 && scratch.View() == Blank(body)
    }

    constructor (parties: Parties)
      ensures Valid() && nextOut == 1 && this.parties == parties && fresh(scratch) && fresh(scratch.buffer)
    {
      this.parties, nextOut := parties, 1;
      scratch := new FactoryScratch();
    }

    method StampLength()
      requires Valid()
      modifies scratch, scratch.buffer
      ensures Printing([]) && (scratch.buffer == old(scratch.buffer) || fresh(scratch.buffer))
    {
      scratch.Reset();
      scratch.AddField(8, VERSION);
      assert Dec(8) == [56];
      assert scratch.View() == BEGIN;
      scratch.AddBodyLengthPlaceholder();
      assert scratch.View() == Blank([]);
    }

    method AddField(f: Field, ghost fs: seq<Field>)
      requires Printing(Encode(fs))
      modifies scratch, scratch.buffer
      ensures Printing(Encode(fs + [f])) && (scratch.buffer == old(scratch.buffer) || fresh(scratch.buffer))
    {
      EncodeSnoc(fs, f);
      BlankMore(Encode(fs), FieldBytes(f));
      scratch.AddField(f.tag, f.value);
    }

    method AddFields(gs: seq<Field>, ghost fs: seq<Field>)
      requires Printing(Encode(fs))
      modifies scratch, scratch.buffer
      ensures Printing(Encode(fs + gs)) && (scratch.buffer == old(scratch.buffer) || fresh(scratch.buffer))
    {
      assert fs + gs[..0] == fs;
      for i := 0 to |gs|
        invariant Printing(Encode(fs + gs[..i]))
        invariant scratch.buffer == old(scratch.buffer) || fresh(scratch.buffer)
      {
        assert fs + gs[..i + 1] == (fs + gs[..i]) + [gs[i]];
        AddField(gs[i], fs + gs[..i]);
      }
      assert gs[..|gs|] == gs;
    }

    method StampTrailer(ghost body: Wire)
      requires Printing(body) && |body| < Pow10(FactoryScratch.PLACEHOLDER_SIZE)
      modifies scratch, scratch.buffer
      ensures Valid() && scratch.View() == Build(body)
      ensures scratch.buffer == old(scratch.buffer) || fresh(scratch.buffer)
    {
      scratch.InsertBodyLength(BEGIN + LENGTH_TAG, body);
      assert scratch.View() == Prefix(body);
      scratch.InsertChecksum();
    }

    /** An application message: the next number, then the fields of the application. */
    method FromApp(msgType: Wire, fs: seq<Field>, now: Wire) returns (wire: Wire)
      requires Valid() && BodyFits(HeaderFields(msgType, nextOut, parties, now) + fs)
      modifies this, scratch, scratch.buffer
      ensures Valid() && wire == Build(Encode(HeaderFields(msgType, old(nextOut), parties, now) + fs))
      ensures nextOut == old(nextOut) + 1
      ensures scratch.buffer == old(scratch.buffer) || fresh(scratch.buffer)
    {
      var header := HeaderFields(msgType, nextOut, parties, now);
      StampLength();
      AddFields(header, []);
      assert [] + header == header;
      nextOut := nextOut + 1;
      AddFields(fs, header);
      StampTrailer(Encode(header + fs));
      wire := scratch.View();
    }

    /** A gap fill has the number of the first message it stands for and takes none of its own. */
    method SequenceResetGapFill(num: nat, newSeqNo: nat, now: Wire, later: Wire) returns (wire: Wire)
      requires Valid() && BodyFits(GapFillFields(num, newSeqNo, parties, now, later))
      modifies scratch, scratch.buffer
      ensures Valid() && wire == Build(Encode(GapFillFields(num, newSeqNo, parties, now, later)))
      ensures scratch.buffer == old(scratch.buffer) || fresh(scratch.buffer)
    {
      var fs := GapFillFields(num, newSeqNo, parties, now, later);
      StampLength();
      AddFields(fs, []);
      assert [] + fs == fs;
      StampTrailer(Encode(fs));
      wire := scratch.View();
    }

    method GetMsgBody(wire: Wire, ghost body: Wire) returns (r: Wire, offset: nat)
      requires wire == Build(body)
      ensures r == body && offset == BodyOffset(body)
    {
      BodyOfBuild(body);
      var begin := Find(wire, LENGTH_TAG, 0).value;
      offset := FindByte(wire, SOH, begin).value + 1;
      var end := FindLast(wire, CHECKSUM_TAG, |wire|).value;
      r := wire[offset..end];
    }

    /** Overwrites the value of the last field with this tag. */
    method EditField(p: PatchPoint, offset: nat, tag: nat, value: Wire, ghost fs: seq<Field>)
      requires Printing(Encode(fs)) && Fits(fs, tag, value)
      requires LastWith(fs, tag).Some? && p == Shift(PointOf(fs, tag), offset)
      modifies scratch.buffer
      ensures Printing(Encode(Put(fs, tag, value)))
    {
      ghost var s, k, after := EditGives(fs, tag, value, p, offset);
      assert scratch.position == |scratch.View()| == |s|;
      scratch.EditWindow(BLANK_SIZE + p.off - offset, p.len, value);
      assert scratch.View() == Blank(Encode(after));
    }

    /** Sets a field: in place where the index knows one, behind the others where not. */
    method SetField(p: PatchPoint, offset: nat, tag: nat, value: Wire, ghost fs: seq<Field>)
      requires Printing(Encode(fs)) && Fits(fs, tag, value)
      requires p == Shift(PointOf(fs, tag), offset)
      modifies scratch, scratch.buffer
      ensures Printing(Encode(Put(fs, tag, value)))
      ensures scratch.buffer == old(scratch.buffer) || fresh(scratch.buffer)
    {
      if p == Absent {
        AddField(Field(tag, value), fs);
      } else {
        EditField(p, offset, tag, value, fs);
      }
    }

    /** The scratch buffer holds the body of a stored message again. */
    method Reopen(wire: Wire, ghost fs: seq<Field>) returns (offset: nat)
      requires Valid() && wire == Build(Encode(fs))
      modifies scratch, scratch.buffer
      ensures Printing(Encode(fs)) && offset == BodyOffset(Encode(fs))
      ensures scratch.buffer == old(scratch.buffer) || fresh(scratch.buffer)
    {
      StampLength();
      var body;
      body, offset := GetMsgBody(wire, Encode(fs));
      scratch.AddString(body);
      BlankMore([], body);
      assert [] + body == body;
    }

    /** The three edits of a resend. */
    method Patch(p43: PatchPoint, p122: PatchPoint, p52: PatchPoint, offset: nat, sentAt: Wire, now: Wire,
                 ghost fs: seq<Field>)
      requires Printing(Encode(fs)) && Editable(fs, now) && sentAt == SentAt(fs)
      requires p43 == Shift(PointOf(fs, 43), offset) && p122 == Shift(PointOf(fs, 122), offset)
      requires p52 == Shift(PointOf(fs, 52), offset)
      modifies scratch, scratch.buffer
      ensures Printing(Encode(Regen(fs, now)))
      ensures scratch.buffer == old(scratch.buffer) || fresh(scratch.buffer)
    {
      ghost var a, b := RegenSteps(fs, now);
      SetField(p43, offset, 43, YES, fs);
      SetField(p122, offset, 122, sentAt, a);
      EditField(p52, offset, 52, now, b);
    }

    /** A stored message again, for a resend. `idx` is the index of the stored wire, and the edits in
        place need values of the same length. */
    method RegenerateMessage(wire: Wire, idx: MsgIndex, now: Wire, ghost fs: seq<Field>) returns (r: Wire)
      requires Valid() && wire == Build(Encode(fs)) && idx == IndexOf(AllFields(fs), idx.off)
      requires Editable(fs, now) && BodyFits(Regen(fs, now))
      modifies scratch, scratch.buffer
      ensures Valid() && r == Build(Encode(Regen(fs, now)))
      ensures scratch.buffer == old(scratch.buffer) || fresh(scratch.buffer)
    {
      var offset := Reopen(wire, fs);
      PatchPoints(wire, idx, fs);
      Patch(idx.p43, idx.p122, idx.p52, offset, wire[idx.p52.off..idx.p52.off + idx.p52.len], now, fs);
      StampTrailer(Encode(Regen(fs, now)));
      r := scratch.View();
    }
  }

  /** The patch points of a stored wire, and the value the one for SendingTime finds. */
  lemma PatchPoints(wire: Wire, idx: MsgIndex, fs: seq<Field>)
    requires wire == Build(Encode(fs)) && idx == IndexOf(AllFields(fs), idx.off)
    requires NoChecksum(fs) && LastWith(fs, 52).Some?
    ensures
      var offset := BodyOffset(Encode(fs));
      && idx.p43 == Shift(PointOf(fs, 43), offset) && idx.p122 == Shift(PointOf(fs, 122), offset)
      && idx.p52 == Shift(PointOf(fs, 52), offset)
    ensures idx.p52.At? && idx.p52.off + idx.p52.len <= |wire|
    ensures wire[idx.p52.off..idx.p52.off + idx.p52.len] == SentAt(fs)
  {
    IndexOfBuild(fs, idx.off, 43);
    IndexOfBuild(fs, idx.off, 122);
    IndexOfBuild(fs, idx.off, 52);
    assert idx.p52 == Point(idx, 52) && idx.p43 == Point(idx, 43) && idx.p122 == Point(idx, 122);
    SentAtOnWire(wire, idx.p52, fs);
  }
}
