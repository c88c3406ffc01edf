/** The outbound side in bytes: sending an application message, and answering a resend request out of
    the store. The answer stands for exactly the replay a session owes. */
module Resending {
  import opened Bytes
  import opened Decimals
  import opened Framing
  import opened Protocol
  import opened Wires
  import opened MessageStores
  import opened MessageFields
  import opened MessageFactories

  // ---- what is sent, as fields ----

  function Meanings(ms: seq<seq<Field>>): (r: seq<Msg>)
    ensures |r| == |ms|
  {
    seq(|ms|, i requires 0 <= i < |ms| => Meaning(ms[i]))
  }

  lemma MeaningsAt(ms: seq<seq<Field>>, i: nat)
    requires i < |ms|
    ensures Meanings(ms)[i] == Meaning(ms[i])
  {
  }

  function Stored(ms: seq<seq<Field>>): (r: seq<seq<Field>>)
    ensures |r| == |ms| && forall i | 0 <= i < |ms| :: r[i] == AllFields(ms[i])
  {
    seq(|ms|, i requires 0 <= i < |ms| => AllFields(ms[i]))
  }

  function Built(ms: seq<seq<Field>>): (r: seq<Wire>)
    ensures |r| == |ms| && forall i | 0 <= i < |ms| :: r[i] == Build(Encode(ms[i]))
  {
    seq(|ms|, i requires 0 <= i < |ms| => Build(Encode(ms[i])))
  }

  /** The readings of the clock, two for each number. */
  type Clock = nat -> Wire

  /** The number after the first message of an answer that starts at `b`. */
  function NextNumber(log: seq<Msg>, b: SeqNo, e: nat): (next: nat)
    requires b <= e <= |log|
    ensures b < next <= e + 1
  {
    if Admin(log[b - 1].kind) then RunEnd(log, b, e) + 1 else b + 1
  }

  /** The fields of that message: a gap fill, or a stored message again. */
  function FirstFields(m: seq<Field>, admin: bool, b: nat, next: nat, p: Parties, clock: Clock): seq<Field>
    requires Resendable(m)
  {
    if admin then GapFillFields(b, next, p, clock(2 * b), clock(2 * b + 1)) else Regen(m, clock(2 * b))
  }

  /** The answer to ResendRequest(b, e), message by message as fields. `log` is what the stored
      messages `ms` stand for. */
  function Answers(ms: seq<seq<Field>>, log: seq<Msg>, b: SeqNo, e: nat, p: Parties, clock: Clock)
    : seq<seq<Field>>
    requires e <= |ms| == |log| && AllResendable(ms)
    decreases e + 1 - b
  {
    if b > e then []
    else
      var next := NextNumber(log, b, e);
      [FirstFields(ms[b - 1], Admin(log[b - 1].kind), b, next, p, clock)] + Answers(ms, log, next, e, p, clock)
  }

  predicate AllResendable(ms: seq<seq<Field>>) {
    forall i | 0 <= i < |ms| :: Resendable(ms[i])
  }

  lemma MeaningsCons(m: seq<Field>, ms: seq<seq<Field>>)
    ensures Meanings([m] + ms) == [Meaning(m)] + Meanings(ms)
  {
  }

  lemma AnswersStep(ms: seq<seq<Field>>, log: seq<Msg>, b: SeqNo, e: nat, p: Parties, clock: Clock)
    returns (first: seq<Field>, next: nat)
    requires b <= e <= |ms| == |log| && AllResendable(ms)
    ensures next == NextNumber(log, b, e)
    ensures first == FirstFields(ms[b - 1], Admin(log[b - 1].kind), b, next, p, clock)
    ensures Answers(ms, log, b, e, p, clock) == [first] + Answers(ms, log, next, e, p, clock)
  {
    next := NextNumber(log, b, e);
    first := FirstFields(ms[b - 1], Admin(log[b - 1].kind), b, next, p, clock);
  }

  /** What the first message of an answer stands for. */
  lemma FirstMeaning(m: seq<Field>, admin: bool, b: nat, next: nat, p: Parties, clock: Clock, first: seq<Field>)
    returns (meaning: Msg)
    requires Resendable(m) && b < next && first == FirstFields(m, admin, b, next, p, clock)
    ensures meaning == Meaning(first)
    ensures meaning == if admin then GapFill(b, next - 1) else Meaning(m).(possDup := true)
  {
    meaning := Meaning(first);
    if admin {
      GapFillMeaning(b, next - 1, p, clock(2 * b), clock(2 * b + 1));
    } else {
      RegenKeepsMeaning(m, clock(2 * b));
    }
  }

  lemma FirstOfReplay(log: seq<Msg>, b: SeqNo, e: nat, next: nat, first: Msg)
    requires b <= e <= |log| && next == NextNumber(log, b, e)
    requires first == if Admin(log[b - 1].kind) then GapFill(b, next - 1) else log[b - 1].(possDup := true)
    ensures Replay(log, b, e) == [first] + Replay(log, next, e)
  {
  }

  /** What the first message of an answer stands for, in terms of the log. */
  lemma FirstStandsFor(ms: seq<seq<Field>>, log: seq<Msg>, b: SeqNo, next: nat, p: Parties, clock: Clock,
                       first: seq<Field>)
    returns (meaning: Msg)
    requires log == Meanings(ms) && b <= |ms| && b < next && Resendable(ms[b - 1])
    requires first == FirstFields(ms[b - 1], Admin(log[b - 1].kind), b, next, p, clock)
    ensures meaning == Meaning(first)
    ensures meaning == if Admin(log[b - 1].kind) then GapFill(b, next - 1) else log[b - 1].(possDup := true)
  {
    MeaningsAt(ms, b - 1);
    meaning := FirstMeaning(ms[b - 1], Admin(log[b - 1].kind), b, next, p, clock, first);
  }

  lemma AnswerAndReplayStep(ms: seq<seq<Field>>, log: seq<Msg>, b: SeqNo, e: nat, p: Parties, clock: Clock)
    returns (first: seq<Field>, next: nat, meaning: Msg)
    requires log == Meanings(ms) && b <= e <= |ms| && AllResendable(ms)
    ensures b < next <= e + 1 && meaning == Meaning(first)
    ensures Answers(ms, log, b, e, p, clock) == [first] + Answers(ms, log, next, e, p, clock)
    ensures Replay(log, b, e) == [meaning] + Replay(log, next, e)
  {
    first, next := AnswersStep(ms, log, b, e, p, clock);
    meaning := FirstStandsFor(ms, log, b, next, p, clock, first);
    FirstOfReplay(log, b, e, next, meaning);
  }

  /** The fields of the answer stand for the replay of the messages the store stands for. */
  lemma {:induction false} AnswersMeanReplay(ms: seq<seq<Field>>, log: seq<Msg>, b: SeqNo, e: nat,
                                             p: Parties, clock: Clock)
    requires log == Meanings(ms) && e <= |ms| && AllResendable(ms)
    ensures Meanings(Answers(ms, log, b, e, p, clock)) == Replay(log, b, e)
    decreases e + 1 - b
  {
    if b > e {
      assert Meanings([]) == [];
    } else {
      var first, next, meaning := AnswerAndReplayStep(ms, log, b, e, p, clock);
      AnswersMeanReplay(ms, log, next, e, p, clock);
      MeaningsCons(first, Answers(ms, log, next, e, p, clock));
    }
  }

  // ---- a resend, parsed again ----

  lemma PutOk(fs: seq<Field>, tag: nat, value: Wire)
    requires FieldsOk(fs) && FieldOk(Field(tag, value))
    ensures FieldsOk(Put(fs, tag, value))
  {
  }

  /** Parsing a resend gives version, length, the fields of the resend, and checksum. */
  lemma RegenParses(fs: seq<Field>, now: Wire)
    requires FieldsOk(fs) && Resendable(fs) && now != [] && SohFree(now)
    ensures FieldsOk(Regen(fs, now))
    ensures Parse(Build(Encode(Regen(fs, now)))) == Fields(AllFields(Regen(fs, now)))
  {
    assert Pow10(7) == 10000000;
    assert FieldOk(fs[LastWith(fs, 52).value]);
    PutOk(fs, 43, YES);
    PutOk(Put(fs, 43, YES), 122, SentAt(fs));
    PutOk(Put(Put(fs, 43, YES), 122, SentAt(fs)), 52, now);
    ParseOfBuild(Regen(fs, now));
  }

  // ---- the store, as a session keeps it ----

  /** A message that can be stored and sent again: number n, one type, no checksum in its body. */
  ghost predicate Loggable(fs: seq<Field>, n: nat) {
    && NoChecksum(fs) && AllSohFree(fs) && Resendable(fs)
    && AtMostOnce(fs, 34) && AtMostOnce(fs, 35)
    && LastWith(fs, 35).Some? && Get(fs, 34) == Some(Dec(n))
  }

  ghost predicate LoggableAt(ms: seq<seq<Field>>, i: nat)
    requires i < |ms|
  {
    Loggable(ms[i], i + 1)
  }

  ghost predicate AllLoggable(ms: seq<seq<Field>>) {
    forall i: nat {:trigger LoggableAt(ms, i)} | i < |ms| :: LoggableAt(ms, i)
  }

  lemma NumberAndTypeBehind(front: seq<Field>, fs: seq<Field>)
    requires forall i | 0 <= i < |front| :: front[i].tag != 34 && front[i].tag != 35
    ensures NumberOf(front + fs) == NumberOf(fs) && TypeOf(front + fs) == TypeOf(fs)
  {
    LastWithBehind(front, fs, 34);
    LastWithBehind(front, fs, 35);
  }

  lemma NumberAndTypeOf(fs: seq<Field>, n: nat)
    requires Loggable(fs, n)
    ensures NumberOf(fs) == n
    ensures NoResend(TypeOf(fs)) <==> Admin(KindOf(fs))
  {
    GetLast(fs, 34);
    GetLast(fs, 35);
    ParseDecOfDec(n);
    NoResendIsAdmin(fs);
  }

  lemma StoredSohFree(fs: seq<Field>)
    requires AllSohFree(fs)
    ensures AllSohFree(AllFields(fs))
  {
    DecHas(|Encode(fs)|, SOH);
    Pad3IsThreeDigits(Checksum(Prefix(Encode(fs))));
    var all := AllFields(fs);
    forall i | 0 <= i < |all| ensures SohFree(all[i].value) {
      if 2 <= i < |fs| + 2 {
        assert all[i] == fs[i - 2];
      }
    }
  }

  /** What the index of a stored message says about number and type. */
  lemma IndexSays(fs: seq<Field>, n: nat, off: nat) returns (idx: MsgIndex)
    requires Loggable(fs, n)
    ensures idx == IndexOf(AllFields(fs), off)
    ensures idx.seqNum == n && (NoResend(idx.msgType) <==> Admin(KindOf(fs)))
  {
    idx := IndexOf(AllFields(fs), off);
    var all, last := Front(fs) + fs, ChecksumField(Encode(fs));
    var none := EmptyIndex(off, |Encode(AllFields(fs))|);
    assert idx == IndexFields(none, all, 0) by {
      assert AllFields(fs) == all + [last];
      IndexStops(none, all, last, 0);
    }
    IndexNumberAndType(all, off, none.len);
    NumberAndTypeBehind(Front(fs), fs);
    NumberAndTypeOf(fs, n);
  }

  lemma RunEndIs(log: seq<Msg>, b: SeqNo, e: nat, r: nat)
    requires b <= r <= e <= |log| && AllAdmin(log, b - 1, r)
    requires r < e ==> !Admin(log[r].kind)
    ensures Admin(log[b - 1].kind) && RunEnd(log, b, e) == r
  {
    assert Admin(log[b - 1].kind);
  }

  /** The index tells the admin messages of the log. */
  ghost predicate Marks(index: seq<MsgIndex>, log: seq<Msg>) {
    |index| == |log| && forall i | 0 <= i < |index| :: NoResend(index[i].msgType) <==> Admin(log[i].kind)
  }

  /** The end of the admin messages from `current` on, cut at `e`. */
  method SkipAdmins(index: seq<MsgIndex>, current: SeqNo, e: nat, ghost log: seq<Msg>) returns (next: nat)
    requires Marks(index, log) && current <= e <= |index|
    ensures current <= next <= e + 1
    ensures AllAdmin(log, current - 1, next - 1)
    ensures next <= e ==> !Admin(log[next - 1].kind)
    ensures Admin(log[current - 1].kind) <==> next > current
    ensures next > current ==> next == NextNumber(log, current, e)
  {
    next := current;
    while next <= e && NoResend(index[next - 1].msgType)
      invariant current <= next <= e + 1
      invariant AllAdmin(log, current - 1, next - 1)
    {
      assert Admin(log[next - 1].kind);
      next := next + 1;
    }
    if next > current {
      RunEndIs(log, current, e, next - 1);
    }
  }

  lemma BuiltCons(m: seq<Field>, ms: seq<seq<Field>>)
    ensures Built([m] + ms) == [Build(Encode(m))] + Built(ms)
  {
  }

  lemma MoveOver<T>(done: seq<T>, first: T, rest: seq<T>)
    ensures done + ([first] + rest) == (done + [first]) + rest
  {
  }

  ghost predicate CanFill(n: nat, m: nat, p: Parties, clock: Clock) {
    BodyFits(GapFillFields(n, m, p, clock(2 * n), clock(2 * n + 1)))
  }

  ghost predicate CanPatch(ms: seq<seq<Field>>, n: nat, clock: Clock)
    requires 1 <= n <= |ms|
  {
    && Resendable(ms[n - 1]) && Editable(ms[n - 1], clock(2 * n))
    && BodyFits(Regen(ms[n - 1], clock(2 * n)))
  }

  /** Everything a resend of [b, e] may print can be printed. */
  ghost predicate Printable(ms: seq<seq<Field>>, b: nat, e: nat, p: Parties, clock: Clock) {
    && (forall n: nat {:trigger CanPatch(ms, n, clock)} | b <= n <= e && 1 <= n <= |ms| :: CanPatch(ms, n, clock))
    && (forall n: nat, m: nat {:trigger CanFill(n, m, p, clock)} | b <= n < m <= e + 1 :: CanFill(n, m, p, clock))
  }

  lemma LogMore(ms: seq<seq<Field>>, fs: seq<Field>)
    requires AllLoggable(ms) && Loggable(fs, |ms| + 1)
    ensures Stored(ms + [fs]) == Stored(ms) + [AllFields(fs)] && AllLoggable(ms + [fs])
  {
    forall i: nat | i < |ms| + 1 ensures LoggableAt(ms + [fs], i) {
      if i < |ms| {
        assert LoggableAt(ms, i);
      }
    }
  }

  lemma PrintableFrom(ms: seq<seq<Field>>, b: nat, n: nat, e: nat, p: Parties, clock: Clock)
    requires Printable(ms, b, e, p, clock) && b <= n
    ensures Printable(ms, n, e, p, clock)
  {
  }

  /** The first wire of an answer, handed out. */
  lemma WireAdded(ms: seq<seq<Field>>, log: seq<Msg>, b: SeqNo, e: nat, p: Parties, clock: Clock,
                  wire: Wire, wires: seq<Wire>)
    requires b <= e <= |ms| == |log| && AllResendable(ms)
    requires
      var next := NextNumber(log, b, e);
      wire == Build(Encode(FirstFields(ms[b - 1], Admin(log[b - 1].kind), b, next, p, clock)))
    ensures wires + Built(Answers(ms, log, b, e, p, clock))
            == (wires + [wire]) + Built(Answers(ms, log, NextNumber(log, b, e), e, p, clock))
  {
    var first, next := AnswersStep(ms, log, b, e, p, clock);
    var rest := Answers(ms, log, next, e, p, clock);
    BuiltCons(first, rest);
    MoveOver(wires, wire, Built(rest));
  }

  /** A session's outbound half: the factory that numbers messages, and the store that keeps them. */
  class Outbox {
    const store: MessageStore
    const factory: MessageFactory
    /** The stored messages, as the fields between length and checksum. */
    ghost var sent: seq<seq<Field>>

    /** The store holds what was sent. */
    ghost predicate Kept()
      reads this, store, store.blob
    {
      store.Valid() && store.log == Stored(sent) && AllLoggable(sent)
    }

    ghost predicate Valid()
      reads this, store, store.blob, factory, factory.scratch, factory.scratch.buffer
    {
      Kept() && factory.Valid() && store.blob != factory.scratch.buffer
    }

    /** The next number is the one after the last stored message. */
    predicate Aligned()
      reads this, store, factory
    {
      factory.nextOut == |store.index| + 1
    }

    constructor (parties: Parties)
      ensures Valid() && Aligned() && sent == [] && factory.parties == parties
    {
      store := new MessageStore();
      factory := new MessageFactory(parties);
      sent := [];
    }

    /** Puts a printed message into the store. */
    method Keep(wire: Wire, ghost fs: seq<Field>)
      requires Valid() && Loggable(fs, |sent| + 1) && wire == Build(Encode(fs))
      modifies this`sent, store, store.blob
      ensures Valid() && sent == old(sent) + [fs] && |store.index| == |old(store.index)| + 1
    {
      BuildIsEncode(fs);
      StoredSohFree(fs);
      ghost var idx := IndexSays(fs, |sent| + 1, store.used);
      LogMore(sent, fs);
      store.StoreOutboundMessage(wire, AllFields(fs));
      sent := sent + [fs];
    }

    /** Prints, stores and hands out a message: header, its own fields, trailer. Numbers and store stay in step. */
    method Send(msgType: Wire, fs: seq<Field>, now: Wire) returns (wire: Wire)
      requires Valid() && Aligned()
      requires Loggable(HeaderFields(msgType, factory.nextOut, factory.parties, now) + fs, factory.nextOut)
      requires BodyFits(HeaderFields(msgType, factory.nextOut, factory.parties, now) + fs)
      modifies this, store, store.blob, factory, factory.scratch, factory.scratch.buffer
      ensures Valid() && Aligned()
      ensures sent == old(sent) + [HeaderFields(msgType, old(factory.nextOut), factory.parties, now) + fs]
      ensures wire == Build(Encode(sent[|old(sent)|]))
      ensures factory.nextOut == old(factory.nextOut) + 1
    {
      ghost var all := HeaderFields(msgType, factory.nextOut, factory.parties, now) + fs;
      StoreCounts();
      wire := factory.FromApp(msgType, fs, now);
      Keep(wire, all);
    }

    /** The store has as many entries as messages. */
    lemma StoreCounts()
      requires Valid()
      ensures |store.index| == |sent|
    {
    }

    /** What the index says about a stored message is what it stands for. */
    lemma EntrySays(i: nat)
      requires Valid() && i < |sent|
      ensures |store.index| == |sent|
      ensures NoResend(store.index[i].msgType) <==> Admin(KindOf(sent[i]))
    {
      assert EntryAt(store.blob[..store.used], store.index, store.log, i);
      assert LoggableAt(sent, i);
      var idx := IndexSays(sent[i], i + 1, store.index[i].off);
    }

    lemma SentIsResendable()
      requires Valid()
      ensures AllResendable(sent)
    {
      forall i: nat | i < |sent| ensures Resendable(sent[i]) {
        assert LoggableAt(sent, i);
      }
    }

    lemma IndexMarks(log: seq<Msg>)
      requires Valid() && log == Meanings(sent)
      ensures Marks(store.index, log)
    {
      StoreCounts();
      forall i: nat | i < |sent| ensures NoResend(store.index[i].msgType) <==> Admin(log[i].kind) {
        EntrySays(i);
        MeaningsAt(sent, i);
      }
    }

    /** A stored message again. */
    method Again(n: SeqNo, now: Wire) returns (wire: Wire)
      requires Valid() && n <= |sent| && Editable(sent[n - 1], now) && BodyFits(Regen(sent[n - 1], now))
      modifies factory.scratch, factory.scratch.buffer
      ensures Valid() && wire == Build(Encode(Regen(sent[n - 1], now)))
      ensures factory.scratch.buffer == old(factory.scratch.buffer) || fresh(factory.scratch.buffer)
    {
      var idx := store.GetMessageIndex(n);
      var original := store.GetMessageWire(idx, n);
      BuildIsEncode(sent[n - 1]);
      wire := factory.RegenerateMessage(original, idx, now, sent[n - 1]);
    }

    /** The next message of an answer, and the number that comes after it. */
    method NextAnswer(current: SeqNo, e: nat, clock: Clock, ghost log: seq<Msg>) returns (wire: Wire, next: nat)
      requires Valid() && current <= e <= |sent| == |log| && Resendable(sent[current - 1])
      requires Marks(store.index, log) && Printable(sent, current, e, factory.parties, clock)
      modifies factory.scratch, factory.scratch.buffer
      ensures Valid() && next == NextNumber(log, current, e)
      ensures wire == Build(Encode(
        FirstFields(sent[current - 1], Admin(log[current - 1].kind), current, next, factory.parties, clock)))
      ensures factory.scratch.buffer == old(factory.scratch.buffer) || fresh(factory.scratch.buffer)
    {
      next := SkipAdmins(store.index, current, e, log);
      if next > current {
        assert CanFill(current, next, factory.parties, clock);
        wire := factory.SequenceResetGapFill(current, next, clock(2 * current), clock(2 * current + 1));
      } else {
        assert CanPatch(sent, current, clock);
        wire := Again(current, clock(2 * current));
        next := next + 1;
      }
    }

    /** Hands out the next message of an answer. */
    method AddAnswer(wires: seq<Wire>, current: SeqNo, e: nat, clock: Clock, ghost log: seq<Msg>)
      returns (more: seq<Wire>, next: nat)
      requires Valid() && current <= e <= |sent| == |log| && AllResendable(sent)
      requires Marks(store.index, log) && Printable(sent, current, e, factory.parties, clock)
      modifies factory.scratch, factory.scratch.buffer
      ensures Valid() && current < next <= e + 1
      ensures wires + Built(Answers(sent, log, current, e, factory.parties, clock))
              == more + Built(Answers(sent, log, next, e, factory.parties, clock))
      ensures factory.scratch.buffer == old(factory.scratch.buffer) || fresh(factory.scratch.buffer)
    {
      var wire;
      wire, next := NextAnswer(current, e, clock, log);
      WireAdded(sent, log, current, e, factory.parties, clock, wire, wires);
      more := wires + [wire];
    }

    /** Answers a resend request out of the store. Neither the store nor the next number changes. */
    method Resend(b: SeqNo, e: nat, clock: Clock) returns (wires: seq<Wire>)
      requires Valid() && b <= e + 1 && e <= |sent|
      requires Printable(sent, b, e, factory.parties, clock)
      modifies factory.scratch, factory.scratch.buffer
      ensures Valid() && AllResendable(sent)
      ensures wires == Built(Answers(sent, Meanings(sent), b, e, factory.parties, clock))
    {
      SentIsResendable();
      ghost var log := Meanings(sent);
      IndexMarks(log);
      wires := Replayed(b, e, clock, log);
    }

    method Replayed(b: SeqNo, e: nat, clock: Clock, ghost log: seq<Msg>) returns (wires: seq<Wire>)
      requires Valid() && b <= e + 1 && e <= |sent| == |log| && AllResendable(sent) && Marks(store.index, log)
      requires Printable(sent, b, e, factory.parties, clock)
      modifies factory.scratch, factory.scratch.buffer
      ensures Valid() && wires == Built(Answers(sent, log, b, e, factory.parties, clock))
    {
      wires := [];
      var current := b;
      ghost var ms, p := sent, factory.parties;
      ghost var all := Built(Answers(ms, log, b, e, p, clock));
      while current <= e
        invariant b <= current <= e + 1 && Valid() && sent == ms
        invariant factory.scratch.buffer == old(factory.scratch.buffer) || fresh(factory.scratch.buffer)
        invariant all == wires + Built(Answers(ms, log, current, e, p, clock))
      {
        PrintableFrom(ms, b, current, e, p, clock);
        wires, current := AddAnswer(wires, current, e, clock, log);
      }
      assert wires + Built([]) == wires;
    }
  }
}
