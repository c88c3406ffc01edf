/** The outbound store: every sent wire back to back in one growing buffer, with an index that
    remembers where in each wire a resend has to be patched. */
module MessageStores {
  import opened Bytes
  import opened Decimals
  import opened Framing
  import opened Wires

  /** Where a value stands in its wire, if its tag occurs. */
  datatype PatchPoint = Absent | At(off: nat, len: nat)

  datatype MsgIndex = MsgIndex(
    off: nat, len: nat, seqNum: nat,
    p34: PatchPoint, p52: PatchPoint, p43: PatchPoint, p122: PatchPoint,
    msgType: Wire)

  // ---- the index of a wire, by its fields ----

  function Note(idx: MsgIndex, f: Field, at: nat): MsgIndex {
    var p := At(at, |f.value|);
    if f.tag == 34 then idx.(p34 := p, seqNum := if AllDigits(f.value) then DecValue(f.value) else 0)
    else if f.tag == 52 then idx.(p52 := p)
    else if f.tag == 43 then idx.(p43 := p)
    else if f.tag == 122 then idx.(p122 := p)
    else if f.tag == 35 then idx.(msgType := if |f.value| < 2 then f.value else f.value[..2])
    else idx
  }

  /** Fields from `pos` on, up to the first checksum. */
  function IndexFields(idx: MsgIndex, fs: seq<Field>, pos: nat): (r: MsgIndex)
    ensures r.off == idx.off && r.len == idx.len
    decreases |fs|
  {
    if fs == [] || fs[0].tag == 10 then idx
    else IndexFields(Note(idx, fs[0], pos + |Dec(fs[0].tag)| + 1), fs[1..], pos + |FieldBytes(fs[0])|)
  }

  function EmptyIndex(off: nat, len: nat): MsgIndex {
    MsgIndex(off, len, 0, Absent, Absent, Absent, Absent, [])
  }

  function IndexOf(fs: seq<Field>, off: nat): MsgIndex {
    IndexFields(EmptyIndex(off, |Encode(fs)|), fs, 0)
  }

  /** The last place where `tag` occurs. */
  function LastWith(fs: seq<Field>, tag: nat): (i: Option<nat>)
    ensures i.Some? ==> i.value < |fs| && fs[i.value].tag == tag
    ensures i.Some? ==> forall j | i.value < j < |fs| :: fs[j].tag != tag
    ensures i.None? ==> forall j | 0 <= j < |fs| :: fs[j].tag != tag
  {
    if fs == [] then None
    else if fs[|fs| - 1].tag == tag then Some(|fs| - 1)
    else LastWith(fs[..|fs| - 1], tag)
  }

  function ValueAt(fs: seq<Field>, i: nat): nat
    requires i < |fs|
  {
    |Encode(fs[..i])| + |Dec(fs[i].tag)| + 1
  }

  function PointOf(fs: seq<Field>, tag: nat): PatchPoint {
    match LastWith(fs, tag)
    case None => Absent
    case Some(i) => At(ValueAt(fs, i), |fs[i].value|)
  }

  lemma EncodeSnoc(fs: seq<Field>, f: Field)
    ensures Encode(fs + [f]) == Encode(fs) + FieldBytes(f)
  {
    EncodeConcat(fs, [f]);
    assert [f][1..] == [];
    assert Encode([f]) == FieldBytes(f) + [];
  }

  predicate NoChecksum(fs: seq<Field>) {
    forall i | 0 <= i < |fs| :: fs[i].tag != 10
  }

  lemma {:induction false} IndexFieldsSnoc(idx: MsgIndex, fs: seq<Field>, f: Field, pos: nat)
    requires NoChecksum(fs) && f.tag != 10
    ensures IndexFields(idx, fs + [f], pos)
            == Note(IndexFields(idx, fs, pos), f, pos + |Encode(fs)| + |Dec(f.tag)| + 1)
    decreases |fs|
  {
    if fs == [] {
      assert [f][1..] == [] && fs + [f] == [f];
    } else {
      assert (fs + [f])[1..] == fs[1..] + [f];
      IndexFieldsSnoc(Note(idx, fs[0], pos + |Dec(fs[0].tag)| + 1), fs[1..], f, pos + |FieldBytes(fs[0])|);
    }
  }

  /** The patch point of one of the four tags a resend looks up. */
  function Point(idx: MsgIndex, tag: nat): PatchPoint
    requires tag in PATCHED
  {
    if tag == 34 then idx.p34 else if tag == 52 then idx.p52 else if tag == 43 then idx.p43 else idx.p122
  }

  const PATCHED: set<nat> := {34, 52, 43, 122}

  lemma NotePoint(idx: MsgIndex, f: Field, at: nat, tag: nat)
    requires tag in PATCHED
    ensures Point(Note(idx, f, at), tag) == if f.tag == tag then At(at, |f.value|) else Point(idx, tag)
  {
  }

  /** The index points at the last occurrence of each tag a resend patches. */
  lemma {:induction false} IndexPoints(fs: seq<Field>, off: nat, len: nat, tag: nat)
    requires NoChecksum(fs) && tag in PATCHED
    ensures Point(IndexFields(EmptyIndex(off, len), fs, 0), tag) == PointOf(fs, tag)
    decreases |fs|
  {
    if fs != [] {
      var more, f := fs[..|fs| - 1], fs[|fs| - 1];
      var at := |Encode(more)| + |Dec(f.tag)| + 1;
      var none := EmptyIndex(off, len);
      var idx := IndexFields(none, more, 0);
      IndexPoints(more, off, len, tag);
      assert fs == more + [f];
      assert IndexFields(none, fs, 0) == Note(idx, f, at) by {
        IndexFieldsSnoc(none, more, f, 0);
      }
      NotePoint(idx, f, at, tag);
      PointOfSnoc(more, f, tag);
    }
  }

  lemma PointOfSnoc(fs: seq<Field>, f: Field, tag: nat)
    ensures PointOf(fs + [f], tag) ==
      if f.tag == tag then At(|Encode(fs)| + |Dec(tag)| + 1, |f.value|) else PointOf(fs, tag)
  {
    var all := fs + [f];
    assert all[..|all| - 1] == fs;
    var i := LastWith(fs, tag);
    if i.Some? {
      assert all[..i.value] == fs[..i.value];
    }
  }

  /** The number and the type in the index, from the last fields that give them. */
  function NumberOf(fs: seq<Field>): nat {
    match LastWith(fs, 34)
    case None => 0
    case Some(i) => if AllDigits(fs[i].value) then DecValue(fs[i].value) else 0
  }

  function TypeOf(fs: seq<Field>): Wire {
    match LastWith(fs, 35)
    case None => []
    case Some(i) => if |fs[i].value| < 2 then fs[i].value else fs[i].value[..2]
  }

  lemma NumberAndTypeSnoc(fs: seq<Field>, f: Field)
    ensures f.tag == 34 ==> NumberOf(fs + [f]) == if AllDigits(f.value) then DecValue(f.value) else 0
    ensures f.tag != 34 ==> NumberOf(fs + [f]) == NumberOf(fs)
    ensures f.tag == 35 ==> TypeOf(fs + [f]) == if |f.value| < 2 then f.value else f.value[..2]
    ensures f.tag != 35 ==> TypeOf(fs + [f]) == TypeOf(fs)
  {
    assert (fs + [f])[..|fs|] == fs;
  }

  lemma NoteNumberAndType(idx: MsgIndex, f: Field, at: nat, fs: seq<Field>)
    requires idx.seqNum == NumberOf(fs) && idx.msgType == TypeOf(fs)
    ensures Note(idx, f, at).seqNum == NumberOf(fs + [f]) && Note(idx, f, at).msgType == TypeOf(fs + [f])
  {
    NumberAndTypeSnoc(fs, f);
  }

  lemma {:induction false} IndexNumberAndType(fs: seq<Field>, off: nat, len: nat)
    requires NoChecksum(fs)
    ensures IndexFields(EmptyIndex(off, len), fs, 0).seqNum == NumberOf(fs)
    ensures IndexFields(EmptyIndex(off, len), fs, 0).msgType == TypeOf(fs)
    decreases |fs|
  {
    if fs != [] {
      var more, f := fs[..|fs| - 1], fs[|fs| - 1];
      var none := EmptyIndex(off, len);
      var idx := IndexFields(none, more, 0);
      var at := |Encode(more)| + |Dec(f.tag)| + 1;
      assert fs == more + [f];
      assert IndexFields(none, fs, 0) == Note(idx, f, at) by {
        IndexFieldsSnoc(none, more, f, 0);
      }
      IndexNumberAndType(more, off, len);
      NoteNumberAndType(idx, f, at, more);
    }
  }

  /** Whatever follows the first checksum field does not count. */
  lemma {:induction false} IndexStops(idx: MsgIndex, fs: seq<Field>, f: Field, pos: nat)
    requires NoChecksum(fs) && f.tag == 10
    ensures IndexFields(idx, fs + [f], pos) == IndexFields(idx, fs, pos)
    decreases |fs|
  {
    if fs == [] {
      assert fs + [f] == [f];
    } else {
      assert (fs + [f])[1..] == fs[1..] + [f];
      IndexStops(Note(idx, fs[0], pos + |Dec(fs[0].tag)| + 1), fs[1..], f, pos + |FieldBytes(fs[0])|);
    }
  }

  // ---- the scan that makes the index ----

  predicate AllSohFree(fs: seq<Field>) {
    forall i | 0 <= i < |fs| :: SohFree(fs[i].value)
  }

  /** Reading a tag as text tells tags apart. */
  lemma TagText(tag: nat, other: nat, text: Wire)
    requires Dec(other) == text
    ensures Dec(tag) == text <==> tag == other
  {
    ParseDecOfDec(tag);
    ParseDecOfDec(other);
  }

  lemma TwoDigits(hi: nat, lo: nat)
    requires 1 <= hi < 10 && lo < 10
    ensures Dec(10 * hi + lo) == [48 + hi, 48 + lo]
  {
    assert Dec(hi) == [48 + hi];
  }

  lemma TagTexts(tag: nat)
    ensures Dec(tag) == [51, 52] <==> tag == 34
    ensures Dec(tag) == [53, 50] <==> tag == 52
    ensures Dec(tag) == [52, 51] <==> tag == 43
    ensures Dec(tag) == [49, 50, 50] <==> tag == 122
    ensures Dec(tag) == [51, 53] <==> tag == 35
  {
    TwoDigits(3, 4);
    TagText(tag, 34, [51, 52]);
    TwoDigits(5, 2);
    TagText(tag, 52, [53, 50]);
    TwoDigits(4, 3);
    TagText(tag, 43, [52, 51]);
    TwoDigits(1, 2);
    TagText(tag, 122, [49, 50, 50]);
    TwoDigits(3, 5);
    TagText(tag, 35, [51, 53]);
  }

  lemma ChecksumText(tag: nat)
    ensures Dec(tag) == [49, 48] <==> tag == 10
  {
    TwoDigits(1, 0);
    TagText(tag, 10, [49, 48]);
  }

  /** Enters one field of a message, given as texts, into the index. */
  method NoteField(before: MsgIndex, tag: Wire, value: Wire, at: nat, ghost f: Field, ghost after: MsgIndex)
    returns (idx: MsgIndex)
    requires tag == Dec(f.tag) && value == f.value && after == Note(before, f, at)
    ensures idx == after
  {
    TagTexts(f.tag);
    idx := before;
    if tag == [51, 52] {
      idx := idx.(p34 := At(at, |value|), seqNum := if AllDigits(value) then DecValue(value) else 0);
    } else if tag == [53, 50] {
      idx := idx.(p52 := At(at, |value|));
    } else if tag == [52, 51] {
      idx := idx.(p43 := At(at, |value|));
    } else if tag == [49, 50, 50] {
      idx := idx.(p122 := At(at, |value|));
    } else if tag == [51, 53] {
      idx := idx.(msgType := if |value| < 2 then value else value[..2]);
    }
  }

  /** What is still to be scanned at `pos` is the print of `rest`, which takes `idx` to `target`. */
  ghost predicate Scanning(wire: Wire, pos: nat, rest: seq<Field>, idx: MsgIndex, target: MsgIndex) {
    && AllSohFree(rest) && OccursAt(wire, Encode(rest), pos) && pos + |Encode(rest)| == |wire|
    && IndexFields(idx, rest, pos) == target
  }

  lemma IndexFieldsStep(idx: MsgIndex, fs: seq<Field>, pos: nat, at: nat, next: nat)
    requires fs != [] && at == pos + |Dec(fs[0].tag)| + 1 && next == pos + |FieldBytes(fs[0])|
    ensures fs[0].tag == 10 ==> IndexFields(idx, fs, pos) == idx
    ensures fs[0].tag != 10 ==> IndexFields(idx, fs, pos) == IndexFields(Note(idx, fs[0], at), fs[1..], next)
  {
  }

  /** One turn of the scan: where the next field has its parts, and what the index makes of it. */
  lemma ScanTurn(wire: Wire, pos: nat, rest: seq<Field>, idx: MsgIndex, target: MsgIndex)
    returns (f: Field, eqPos: nat, sohPos: nat, after: MsgIndex, more: seq<Field>)
    requires Scanning(wire, pos, rest, idx, target) && pos < |wire|
    ensures FindByte(wire, EQUALS, pos) == Some(eqPos) && FindByte(wire, SOH, eqPos + 1) == Some(sohPos)
    ensures pos <= eqPos < sohPos < |wire|
    ensures wire[pos..eqPos] == Dec(f.tag) && wire[eqPos + 1..sohPos] == f.value
    ensures after == Note(idx, f, eqPos + 1)
    ensures f.tag == 10 ==> idx == target
    ensures f.tag != 10 ==> Scanning(wire, sohPos + 1, more, after, target)
  {
    assert |Encode(rest)| > 0;
    f, more := rest[0], rest[1..];
    eqPos, sohPos := FieldHere(wire, pos, f, more);
    after := Note(idx, f, eqPos + 1);
    IndexFieldsStep(idx, rest, pos, eqPos + 1, sohPos + 1);
    assert |Encode(rest)| == |FieldBytes(f)| + |Encode(more)|;
  }

  lemma ScanEnd(wire: Wire, pos: nat, rest: seq<Field>, idx: MsgIndex, target: MsgIndex)
    requires Scanning(wire, pos, rest, idx, target) && pos >= |wire|
    ensures idx == target
  {
    assert rest != [] ==> Encode(rest) != [];
  }

  /** The field at `pos`, entered into the index unless it is the checksum. */
  method IndexField(wire: Wire, pos: nat, before: MsgIndex, ghost rest: seq<Field>, ghost target: MsgIndex)
    returns (idx: MsgIndex, next: nat, done: bool, ghost more: seq<Field>)
    requires Scanning(wire, pos, rest, before, target) && pos < |wire|
    ensures pos < next <= |wire|
    ensures done ==> idx == target
    ensures !done ==> Scanning(wire, next, more, idx, target)
  {
    ghost var f, e, s, after;
    f, e, s, after, more := ScanTurn(wire, pos, rest, before, target);
    var eqPos := FindByte(wire, EQUALS, pos).value;
    var sohPos := FindByte(wire, SOH, eqPos + 1).value;
    assert eqPos == e && sohPos == s;
    var tag := wire[pos..eqPos];
    ChecksumText(f.tag);
    idx, next, done := before, sohPos + 1, tag == [49, 48];
    if !done {
      idx := NoteField(before, tag, wire[eqPos + 1..sohPos], eqPos + 1, f, after);
    }
  }

  /** Scans a complete message for its patch points, up to the checksum. */
  method CreateMessageIndex(wire: Wire, off: nat, ghost fs: seq<Field>) returns (idx: MsgIndex)
    requires wire == Encode(fs) && AllSohFree(fs)
    ensures idx == IndexOf(fs, off)
  {
    idx := EmptyIndex(off, |wire|);
    var pos, done := 0, false;
    ghost var rest, target := fs, IndexOf(fs, off);
    assert wire[0..|wire|] == wire;
    while pos < |wire| && !done
      invariant pos <= |wire|
      invariant done ==> idx == target
      invariant !done ==> Scanning(wire, pos, rest, idx, target)
      decreases |wire| - pos
    {
      idx, pos, done, rest := IndexField(wire, pos, idx, rest, target);
    }
    if !done { ScanEnd(wire, pos, rest, idx, target); }
  }

  /** Where the print of a field has its parts. */
  lemma FieldHere(w: Wire, p: nat, f: Field, more: seq<Field>) returns (e: nat, s: nat)
    requires OccursAt(w, FieldBytes(f) + Encode(more), p) && SohFree(f.value)
    ensures e == p + |Dec(f.tag)| && s == e + 1 + |f.value| && s + 1 == p + |FieldBytes(f)|
    ensures FindByte(w, EQUALS, p) == Some(e) && w[p..e] == Dec(f.tag)
    ensures FindByte(w, SOH, e + 1) == Some(s) && w[e + 1..s] == f.value
    ensures OccursAt(w, Encode(more), s + 1)
  {
    var d := Dec(f.tag);
    e := p + |d|;
    s := e + 1 + |f.value|;
    OccursSplit(w, FieldBytes(f), Encode(more), p);
    assert FieldBytes(f) == (d + [EQUALS]) + (f.value + [SOH]);
    OccursSplit(w, d + [EQUALS], f.value + [SOH], p);
    DecHas(f.tag, EQUALS);
    FindAfter(w, d, EQUALS, p);
    OccursSplit(w, d, [EQUALS], p);
    ValueOfPrint(w, e + 1, f.value);
  }

  // ---- the store ----

  /** Every stored wire, as its fields. */
  function Printed(log: seq<seq<Field>>): (r: seq<Wire>)
    ensures |r| == |log| && forall i | 0 <= i < |log| :: r[i] == Encode(log[i])
  {
    seq(|log|, i requires 0 <= i < |log| => Encode(log[i]))
  }

  /** Entry `idx` of the index belongs to the `n`-th message, which it slices out of `bytes`. */
  ghost predicate Entry(bytes: Wire, idx: MsgIndex, fs: seq<Field>, n: nat) {
    && AllSohFree(fs) && idx == IndexOf(fs, idx.off) && idx.seqNum == n
    && OccursAt(bytes, Encode(fs), idx.off)
  }

  ghost predicate EntryAt(bytes: Wire, index: seq<MsgIndex>, log: seq<seq<Field>>, i: nat)
    requires i < |index| == |log|
  {
    Entry(bytes, index[i], log[i], i + 1)
  }

  ghost predicate Indexed(bytes: Wire, index: seq<MsgIndex>, log: seq<seq<Field>>) {
    && |index| == |log|
    && forall i: nat {:trigger EntryAt(bytes, index, log, i)} | i < |log| :: EntryAt(bytes, index, log, i)
  }

  lemma IndexedMore(bytes: Wire, index: seq<MsgIndex>, log: seq<seq<Field>>, idx: MsgIndex, fs: seq<Field>)
    requires Indexed(bytes, index, log) && AllSohFree(fs)
    requires idx == IndexOf(fs, |bytes|) && idx.seqNum == |log| + 1
    ensures Indexed(bytes + Encode(fs), index + [idx], log + [fs])
    ensures Printed(log + [fs]) == Printed(log) + [Encode(fs)]
    ensures Concat(Printed(log + [fs])) == Concat(Printed(log)) + Encode(fs)
  {
    var w := Encode(fs);
    forall i: nat | i < |log| + 1 ensures EntryAt(bytes + w, index + [idx], log + [fs], i) {
      if i < |log| {
        assert EntryAt(bytes, index, log, i);
        OccursFurther(bytes, w, Encode(log[i]), index[i].off);
      } else {
        assert (bytes + w)[|bytes|..|bytes| + |w|] == w;
      }
    }
    assert Printed(log + [fs])[..|log|] == Printed(log);
  }

  lemma OccursFurther(s: Wire, t: Wire, pat: Wire, i: nat)
    requires OccursAt(s, pat, i)
    ensures OccursAt(s + t, pat, i)
  {
    assert (s + t)[i..i + |pat|] == s[i..i + |pat|];
  }

  class MessageStore {
    static const START_SIZE: nat := 8 * 1024 * 1024
    static const MIN_GROW_SIZE: nat := 4 * 1024 * 1024

    var blob: array<byte>
    var used: nat
    var index: seq<MsgIndex>
    /** The messages stored so far, in order, as their fields. */
    ghost var log: seq<seq<Field>>

    /** The stored bytes are the stored messages, back to back, and the index finds each one. */
    ghost predicate Valid()
      reads this, blob
    {
      && used <= blob.Length
      && blob[..used] == Concat(Printed(log))
      && Indexed(blob[..used], index, log)
    }

    constructor ()
      ensures Valid() && log == [] && fresh(blob)
    {
      blob := new byte[START_SIZE];
      used, index, log := 0, [], [];
    }

    method GrowBlobBuffer(additional: nat)
      requires Valid()
      modifies this`blob
      ensures Valid() && fresh(blob) && blob.Length >= old(blob.Length) + additional
      ensures blob[..used] == old(blob[..used])
    {
      var newBuffer := new byte[blob.Length + Max(MIN_GROW_SIZE, additional)];
      forall i | 0 <= i < used { newBuffer[i] := blob[i]; }
      assert newBuffer[..used] == blob[..used];
      blob := newBuffer;
    }

    /** Puts the bytes of `wire` behind the used part, which stays as it is. */
    method Copy(wire: Wire)
      requires Valid()
      modifies this`blob, blob
      ensures used + |wire| <= blob.Length && blob[..used + |wire|] == old(blob[..used]) + wire
      ensures blob == old(blob) || fresh(blob)
    {
      if used + |wire| > blob.Length {
        GrowBlobBuffer(|wire| + used - blob.Length);
      }
      ghost var bytes := blob[..used];
      forall i | 0 <= i < |wire| { blob[used + i] := wire[i]; }
      assert blob[..used + |wire|] == bytes + wire;
    }

    /** Stores the next message; messages must come in sequence. */
    method StoreOutboundMessage(wire: Wire, ghost fs: seq<Field>)
      requires Valid() && wire == Encode(fs) && AllSohFree(fs)
      requires IndexOf(fs, used).seqNum == |log| + 1
      modifies this, blob
      ensures Valid() && log == old(log) + [fs]
      ensures index == old(index) + [IndexOf(fs, old(used))]
      ensures blob == old(blob) || fresh(blob)
    {
      ghost var bytes := blob[..used];
      Copy(wire);
      var idx := CreateMessageIndex(wire, used, fs);
      IndexedMore(bytes, index, log, idx, fs);
      index := index + [idx];
      used := used + |wire|;
      log := log + [fs];
    }

    /** The index entry of message `n`. */
    method GetMessageIndex(n: nat) returns (idx: MsgIndex)
      requires Valid() && 1 <= n <= |log|
      ensures Entry(blob[..used], idx, log[n - 1], n)
    {
      idx := index[n - 1];
      var i: nat := n - 1;
      assert EntryAt(blob[..used], index, log, i);
    }

    /** The bytes of message `n`, by its index entry. */
    method GetMessageWire(idx: MsgIndex, ghost n: nat) returns (wire: Wire)
      requires Valid() && 1 <= n <= |log| && Entry(blob[..used], idx, log[n - 1], n)
      ensures wire == Encode(log[n - 1])
    {
      wire := blob[idx.off..idx.off + idx.len];
      assert wire == blob[..used][idx.off..idx.off + idx.len];
    }
  }
}
