/** Gap recovery through the validator: what a session makes of a wire is what the modelled parser and
    validator make of it, and the answer of the peer passes them. */
module AcceptedRecovery {
  import opened Bytes
  import opened Decimals
  import opened Framing
  import opened Protocol
  import opened SessionSpec
  import opened SessionRuns
  import opened OutboundLog
  import opened Draining
  import opened GapRecovery
  import opened Wires
  import opened Reader
  import opened FrameRoundTrip
  import opened MessageStores
  import opened MessageFields
  import opened Resending
  import opened ValidatorSpec
  import opened Validators
  import opened Acceptance
  import opened Schemas
  import opened SessionMessages
  import opened Framers
  import opened WireRecovery

  /** What a session makes of a wire: the parser, then the validator over the tables `t`, then the number.
      A resend request from number 0 is not told apart from a wire without a number. */
  ghost function Judged(t: Tables, params: SessionParameters, parsed: Parsed): View
    requires |t.header| >= 3
  {
    match parsed
    case ParseFailed(_, _) => ParseError
    case Fields(all) =>
      if Accepts(t, all, params) then
        var fs := all[2..|all| - 1];
        if IsInbound(Meaning(fs)) && IsNumbered(fs) then Valid(Meaning(fs)) else Unnumbered
      else if LastValue(all, 35).Some? && t.registry(LastValue(all, 35).value).Some?
              && HeaderFatal(t, all, LastValue(all, 35).value, params) then Fatal
      else Invalid(Number(LastValue(all, 34)))
  }

  predicate IsNumbered(fs: seq<Field>) {
    Get(fs, 34).Some? && ParseDec(Get(fs, 34).value).Some?
  }

  ghost function AcceptedView(t: Tables, params: SessionParameters): Wire -> View
    requires |t.header| >= 3
  {
    w => Judged(t, params, Parse(w))
  }

  /** The validator accepts the message with these fields, and the session can number it. */
  ghost predicate Accepted(t: Tables, params: SessionParameters, fs: seq<Field>)
    requires |t.header| >= 3
  {
    Accepts(t, AllFields(fs), params) && IsInbound(Meaning(fs)) && IsNumbered(fs)
  }

  lemma AcceptedPasses(t: Tables, params: SessionParameters, fs: seq<Field>)
    requires |t.header| >= 3 && Accepted(t, params, fs)
    ensures Passes(AcceptedView(t, params), fs)
  {
    assert AllFields(fs)[2..|AllFields(fs)| - 1] == fs;
  }

  /** The two ends know each other, and their validators the messages of the standard. */
  ghost predicate Agreed(t: Tables, params: SessionParameters, p: Parties) {
    && Standard(t) && t.registry([52]) == Some(SEQUENCE_RESET)
    && p == Parties(params.targetCompId, params.senderCompId)
    && p.sender != [] && SohFree(p.sender) && p.target != [] && SohFree(p.target)
  }

  ghost predicate Telling(clock: Clock) {
    forall n: nat :: clock(n) != [] && SohFree(clock(n))
  }

  lemma ResendIsAccepted(t: Tables, params: SessionParameters, fs: seq<Field>, now: Wire)
    requires Standard(t) && Typed(fs) && Resendable(fs) && Accepted(t, params, fs)
    ensures Accepted(t, params, Regen(fs, now))
  {
    RegenAccepted(t, params, fs, now);
    RegenKeepsMeaning(fs, now);
    RegenSetsThreeFields(fs, now, 34);
  }

  lemma GapFillIsAccepted(t: Tables, params: SessionParameters, b: nat, next: nat, p: Parties, now: Wire, later: Wire)
    requires Agreed(t, params, p) && b < next
    ensures Accepted(t, params, GapFillFields(b, next, p, now, later))
  {
    GapFillAccepted(t, params, b, next, p, now, later);
    GapFillIsNumbered(b, next, p, now, later);
  }

  lemma GapFillIsNumbered(b: nat, next: nat, p: Parties, now: Wire, later: Wire)
    requires b < next
    ensures
      var fs := GapFillFields(b, next, p, now, later);
      IsInbound(Meaning(fs)) && IsNumbered(fs)
  {
    GapFillMeaning(b, next - 1, p, now, later);
    GetIs(GapFillFields(b, next, p, now, later), 34, 1);
    ParseDecOfDec(b);
  }

  lemma GapFillFieldsOk(b: nat, next: nat, p: Parties, now: Wire, later: Wire)
    requires p.sender != [] && SohFree(p.sender) && p.target != [] && SohFree(p.target)
    requires now != [] && SohFree(now) && later != [] && SohFree(later)
    ensures FieldsOk(GapFillFields(b, next, p, now, later))
  {
    assert Pow10(7) == 10000000;
    DecHas(b, SOH);
    DecHas(next, SOH);
  }

  /** A message the peer may have to send again. */
  ghost predicate Repeatable(t: Tables, params: SessionParameters, fs: seq<Field>)
    requires |t.header| >= 3
  {
    Typed(fs) && Resendable(fs) && FieldsOk(fs) && Accepted(t, params, fs)
  }

  /** Everything the peer prints in answer is accepted by the validator that accepted, or would have
      accepted, the originals. */
  lemma {:induction false} AnswersAccepted(t: Tables, params: SessionParameters, ms: seq<seq<Field>>, log: seq<Msg>,
                                           b: SeqNo, e: nat, p: Parties, clock: Clock, m: seq<Field>)
    requires Agreed(t, params, p) && Telling(clock) && e <= |ms| == |log| && AllResendable(ms)
    requires forall j | b - 1 <= j < |ms| :: Repeatable(t, params, ms[j])
    requires m in Answers(ms, log, b, e, p, clock)
    ensures Accepted(t, params, m) && FieldsOk(m)
    decreases e + 1 - b
  {
    var first, next := AnswersStep(ms, log, b, e, p, clock);
    if m == first {
      if Admin(log[b - 1].kind) {
        GapFillIsAccepted(t, params, b, next, p, clock(2 * b), clock(2 * b + 1));
        GapFillFieldsOk(b, next, p, clock(2 * b), clock(2 * b + 1));
      } else {
        assert Repeatable(t, params, ms[b - 1]);
        ResendIsAccepted(t, params, ms[b - 1], clock(2 * b));
        RegenParses(ms[b - 1], clock(2 * b));
      }
    } else {
      AnswersAccepted(t, params, ms, log, next, e, p, clock, m);
    }
  }

  /** What may arrive: accepted, and printable. */
  ghost predicate Good(t: Tables, params: SessionParameters, m: seq<Field>)
    requires |t.header| >= 3
  {
    Accepted(t, params, m) && FieldsOk(m)
  }

  lemma AnswerIsGood(t: Tables, params: SessionParameters, sent: seq<seq<Field>>, history: seq<Inbound>,
                     b: SeqNo, e: nat, p: Parties, clock: Clock, answer: seq<seq<Field>>)
    requires Agreed(t, params, p) && Telling(clock) && e <= |sent| == |history| && AllResendable(sent)
    requires forall j | b - 1 <= j < |sent| :: Repeatable(t, params, sent[j])
    requires answer == Answers(sent, history, b, e, p, clock)
    ensures forall m | m in answer :: Good(t, params, m)
  {
    forall m | m in answer ensures Good(t, params, m) {
      AnswersAccepted(t, params, sent, history, b, e, p, clock, m);
    }
  }

  lemma SentIsGood(t: Tables, params: SessionParameters, sent: seq<seq<Field>>, e: nat,
                   first: seq<Field>, live: seq<seq<Field>>)
    requires |t.header| >= 3 && e < |sent| && first == sent[e] && live == sent[e + 1..]
    requires forall j | e <= j < |sent| :: Repeatable(t, params, sent[j])
    ensures Good(t, params, first)
    ensures forall m | m in live :: Good(t, params, m)
  {
    RepeatableIsGood(t, params, sent, e, e);
    forall m | m in live ensures Good(t, params, m) {
      var j :| 0 <= j < |live| && live[j] == m;
      RepeatableIsGood(t, params, sent, e, e + 1 + j);
    }
  }

  lemma RepeatableIsGood(t: Tables, params: SessionParameters, sent: seq<seq<Field>>, e: nat, j: nat)
    requires |t.header| >= 3 && e <= j < |sent|
    requires forall i | e <= i < |sent| :: Repeatable(t, params, sent[i])
    ensures Good(t, params, sent[j])
  {
    assert Repeatable(t, params, sent[j]);
  }

  lemma MixtureIsGood(t: Tables, params: SessionParameters, first: seq<Field>, zs: seq<seq<Field>>,
                      answer: seq<seq<Field>>, live: seq<seq<Field>>, arrived: seq<seq<Field>>)
    requires |t.header| >= 3 && Interleaves(zs, answer, live) && arrived == [first] + zs && Good(t, params, first)
    requires forall m | m in answer :: Good(t, params, m)
    requires forall m | m in live :: Good(t, params, m)
    ensures forall i | 0 <= i < |arrived| :: Good(t, params, arrived[i])
  {
    forall i | 0 <= i < |arrived| ensures Good(t, params, arrived[i]) {
      if i > 0 {
        InterleavesMembers(zs, answer, live, i - 1);
        assert arrived[i] == zs[i - 1];
      }
    }
  }

  lemma MixedIsGood(t: Tables, params: SessionParameters, sent: seq<seq<Field>>, history: seq<Inbound>,
                    b: SeqNo, e: nat, p: Parties, clock: Clock, arrived: seq<seq<Field>>)
    requires Agreed(t, params, p) && Telling(clock)
    requires b <= e < |sent| == |history| && AllResendable(sent) && Mixed(sent, history, b, e, p, clock, arrived)
    requires forall j | b - 1 <= j < |sent| :: Repeatable(t, params, sent[j])
    ensures forall i | 0 <= i < |arrived| :: Good(t, params, arrived[i])
  {
    var first, zs, answer, live := MixedIs(sent, history, b, e, p, clock, arrived);
    AnswerIsGood(t, params, sent, history, b, e, p, clock, answer);
    SentIsGood(t, params, sent, e, first, live);
    MixtureIsGood(t, params, first, zs, answer, live, arrived);
  }

  /** If the receiver's validator accepts the peer's messages from number b on as they were first sent, it
      accepts all that arrives: also what is sent again, and the gap fills. */
  lemma AcceptedIsUnderstood(t: Tables, params: SessionParameters, sent: seq<seq<Field>>, history: seq<Inbound>,
                             b: SeqNo, e: nat, p: Parties, clock: Clock, arrived: seq<seq<Field>>)
    requires Agreed(t, params, p) && Telling(clock)
    requires b <= e < |sent| == |history| && AllResendable(sent) && Mixed(sent, history, b, e, p, clock, arrived)
    requires forall j | b - 1 <= j < |sent| :: Repeatable(t, params, sent[j])
    requires forall i | 0 <= i < |arrived| :: |Encode(arrived[i])| <= MAX_MESSAGE_SIZE
    ensures forall i | 0 <= i < |arrived| :: Understood(AcceptedView(t, params), arrived[i])
  {
    MixedIsGood(t, params, sent, history, b, e, p, clock, arrived);
    GoodIsUnderstood(t, params, arrived);
  }

  lemma GoodIsUnderstood(t: Tables, params: SessionParameters, arrived: seq<seq<Field>>)
    requires |t.header| >= 3
    requires forall i | 0 <= i < |arrived| :: Good(t, params, arrived[i])
    requires forall i | 0 <= i < |arrived| :: |Encode(arrived[i])| <= MAX_MESSAGE_SIZE
    ensures forall i | 0 <= i < |arrived| :: Understood(AcceptedView(t, params), arrived[i])
  {
    forall i | 0 <= i < |arrived| ensures Understood(AcceptedView(t, params), arrived[i]) {
      assert Good(t, params, arrived[i]);
      AcceptedPasses(t, params, arrived[i]);
    }
  }

  /** Recovery through the validator: nothing is assumed of what arrives but that it fits a frame. */
  lemma AcceptedRecovers(t: Tables, params: SessionParameters, s: State, sent: seq<seq<Field>>,
                         history: seq<Inbound>, e: nat, p: Parties, clock: Clock, arrived: seq<seq<Field>>)
    returns (stream: Wire)
    requires Agreed(t, params, p) && Telling(clock)
    requires Arrives(AcceptedView(t, params), s, sent, history, e, p, clock, arrived)
    requires forall j | s.nextIn - 1 <= j < |sent| :: Repeatable(t, params, sent[j])
    requires forall i | 0 <= i < |arrived| :: |Encode(arrived[i])| <= MAX_MESSAGE_SIZE
    ensures stream == BuildAll(Bodies(arrived)) && Inside(stream, Frames(stream, 0))
    ensures Recovered(Run(AcceptedView(t, params), s, Arrivals(Slices(stream, Frames(stream, 0)))), s, history, e + 1)
  {
    AcceptedIsUnderstood(t, params, sent, history, s.nextIn, e, p, clock, arrived);
    stream := ByteStreamRecovers(AcceptedView(t, params), s, sent, history, e, p, clock, arrived);
  }

  // ---- with the repository's tables and what sessions print ----

  /** What a session prints by itself can be sent again: it is accepted, and numbered. */
  lemma PrintedIsRepeatable(params: SessionParameters, num: nat, k: Kind, p: Parties,
                            now: Wire, d: Details)
    requires IsOwn(k) && IsInbound(Msg(num, k, false)) && FieldsOk(PrintedFields(num, k, p, now, d))
    requires p == Parties(params.targetCompId, params.senderCompId)
    ensures Repeatable(REPOSITORY, params, PrintedFields(num, k, p, now, d))
  {
    var fs, own := PrintedFields(num, k, p, now, d), OwnFields(k, d);
    PrintedIsAccepted(REPOSITORY, params, num, k, p, now, d);
    PrintedMeans(num, k, p, now, d);
    FromAppMeaning(TypeText(k), num, p, now, own);
    ParseDecOfDec(num);
    OwnTagsOnly(k, d);
    HasOneSendingTime(TypeText(k), num, p, now, own);
  }

  lemma HasOneSendingTime(msgType: Wire, num: nat, p: Parties, now: Wire, own: seq<Field>)
    requires forall i | 0 <= i < |own| :: own[i].tag in OWN_TAGS
    ensures Resendable(HeaderFields(msgType, num, p, now) + own)
  {
    var h := HeaderFields(msgType, num, p, now);
    assert (h + own)[4].tag == 52;
    OnceBefore(h, own, 52);
    OnceBefore(h, own, 43);
    OnceBefore(h, own, 122);
  }

  lemma OnceBefore(h: seq<Field>, own: seq<Field>, tag: nat)
    requires AtMostOnce(h, tag) && forall i | 0 <= i < |own| :: own[i].tag != tag
    ensures AtMostOnce(h + own, tag)
  {
    forall i, j | 0 <= i < j < |h + own| ensures (h + own)[i].tag != tag || (h + own)[j].tag != tag {
      if j >= |h| { assert (h + own)[j] == own[j - |h|]; }
    }
  }

  /** Two ends of the repository with the tables of the repository agree. */
  lemma RepositoryAgrees(params: SessionParameters, p: Parties)
    requires p == Parties(params.targetCompId, params.senderCompId)
    requires p.sender != [] && SohFree(p.sender) && p.target != [] && SohFree(p.target)
    ensures Agreed(REPOSITORY, params, p)
  {
    RepositoryIsStandard();
  }

  // ---- out of the store, over the network ----

  function Flat(ws: seq<Wire>): Wire {
    if ws == [] then [] else ws[0] + Flat(ws[1..])
  }

  lemma {:induction false} FlatBuilt(ms: seq<seq<Field>>)
    ensures BuildAll(Bodies(ms)) == Flat(Built(ms))
    decreases |ms|
  {
    if ms != [] {
      assert Bodies(ms)[1..] == Bodies(ms[1..]) && Built(ms)[1..] == Built(ms[1..]);
      FlatBuilt(ms[1..]);
    }
  }

  /** The chunks that come in are the wire `first` and then, mixed, the wires `ws` and `live`. */
  ghost predicate Carries(chunks: seq<Wire>, first: Wire, ws: seq<Wire>, live: seq<Wire>) {
    exists mix :: Interleaves(mix, ws, live) && Concat(chunks) == first + Flat(mix)
  }

  /** Wires of built messages, mixed, are the built messages, mixed. */
  lemma {:induction false} InterleavesBuilt(mix: seq<Wire>, xs: seq<seq<Field>>, ys: seq<seq<Field>>)
    returns (zs: seq<seq<Field>>)
    requires Interleaves(mix, Built(xs), Built(ys))
    ensures Interleaves(zs, xs, ys) && Built(zs) == mix
    decreases |mix|
  {
    if mix == [] {
      zs := [];
    } else if xs != [] && mix[0] == Built(xs)[0] && Interleaves(mix[1..], Built(xs)[1..], Built(ys)) {
      BuiltTail(xs);
      var rest := InterleavesBuilt(mix[1..], xs[1..], ys);
      zs := [xs[0]] + rest;
      BuiltCons(xs[0], rest);
      assert zs[1..] == rest;
    } else {
      BuiltTail(ys);
      var rest := InterleavesBuilt(mix[1..], xs, ys[1..]);
      zs := [ys[0]] + rest;
      BuiltCons(ys[0], rest);
      assert zs[1..] == rest;
    }
  }

  lemma BuiltTail(ms: seq<seq<Field>>)
    requires ms != []
    ensures Built(ms)[1..] == Built(ms[1..])
  {
  }

  /** What is sent later does not change the answer. */
  lemma {:induction false} AnswersOfPrefix(ms: seq<seq<Field>>, more: seq<seq<Field>>, log: seq<Msg>, rest: seq<Msg>,
                                           b: SeqNo, e: nat, p: Parties, clock: Clock)
    requires e <= |ms| == |log| && |more| == |rest| && AllResendable(ms) && AllResendable(ms + more)
    ensures Answers(ms + more, log + rest, b, e, p, clock) == Answers(ms, log, b, e, p, clock)
    decreases e + 1 - b
  {
    if b <= e {
      var all := log + rest;
      assert all[..|log|] == log && all[b - 1] == log[b - 1] && (ms + more)[b - 1] == ms[b - 1];
      if Admin(log[b - 1].kind) { RunEndOfPrefix(all, |log|, b, e); }
      AnswersOfPrefix(ms, more, log, rest, NextNumber(log, b, e), e, p, clock);
    }
  }

  /** What the answer and the other messages take up. */
  ghost predicate AllFit(ms: seq<seq<Field>>) {
    forall i | 0 <= i < |ms| :: |Encode(ms[i])| <= MAX_MESSAGE_SIZE
  }

  /** What the network carries is an arrival of the answer, mixed with the messages sent later. */
  lemma CarriedArrives(view: Wire -> View, s: State, sent: seq<seq<Field>>, history: seq<Inbound>, e: nat, p: Parties,
                       clock: Clock, answer: seq<seq<Field>>, chunks: seq<Wire>)
    returns (arrived: seq<seq<Field>>)
    requires Behind(view, s, history, e + 1) && history == Meanings(sent) && AllResendable(sent)
    requires answer == Answers(sent, history, s.nextIn, e, p, clock) && AllFit(answer) && AllFit(sent)
    requires Carries(chunks, Build(Encode(sent[e])), Built(answer), Built(sent[e + 1..]))
    ensures Arrives(view, s, sent, history, e, p, clock, arrived) && AllFit(arrived)
    ensures Concat(chunks) == BuildAll(Bodies(arrived))
  {
    var first, live := sent[e], sent[e + 1..];
    var mix :| Interleaves(mix, Built(answer), Built(live)) && Concat(chunks) == Build(Encode(first)) + Flat(mix);
    var zs := InterleavesBuilt(mix, answer, live);
    arrived := [first] + zs;
    BuiltCons(first, zs);
    FlatBuilt(arrived);
    assert Built(arrived)[0] == Build(Encode(first)) && Built(arrived)[1..] == mix && arrived[1..] == zs;
    forall i | 0 <= i < |arrived| ensures |Encode(arrived[i])| <= MAX_MESSAGE_SIZE {
      if i > 0 {
        InterleavesMembers(zs, answer, live, i - 1);
        assert arrived[i] == zs[i - 1];
      }
    }
  }

  lemma MeaningsConcat(ms: seq<seq<Field>>, more: seq<seq<Field>>)
    ensures Meanings(ms + more) == Meanings(ms) + Meanings(more)
  {
    forall i | 0 <= i < |ms| + |more| ensures Meanings(ms + more)[i] == (Meanings(ms) + Meanings(more))[i] {
      MeaningsAt(ms + more, i);
      if i < |ms| { MeaningsAt(ms, i); } else { MeaningsAt(more, i - |ms|); }
    }
  }

  /** The peer's messages: those it has stored when it answers, and those it sends later. */
  ghost predicate PeerSends(t: Tables, params: SessionParameters, s: State, stored: seq<seq<Field>>,
                            sent: seq<seq<Field>>, history: seq<Inbound>, e: nat, p: Parties, clock: Clock)
  {
    && Agreed(t, params, p) && Telling(clock) && stored <= sent && s.nextIn <= e <= |stored|
    && AllResendable(sent) && history == Meanings(sent) && Behind(AcceptedView(t, params), s, history, e + 1)
    && (forall j | s.nextIn - 1 <= j < |sent| :: Repeatable(t, params, sent[j]))
    && AllFit(sent) && AllFit(Answers(sent, history, s.nextIn, e, p, clock))
  }

  lemma StoredAnswer(stored: seq<seq<Field>>, sent: seq<seq<Field>>, history: seq<Inbound>, b: SeqNo, e: nat,
                     p: Parties, clock: Clock)
    requires stored <= sent && e <= |stored| && AllResendable(sent) && history == Meanings(sent)
    ensures AllResendable(stored)
    ensures Answers(stored, Meanings(stored), b, e, p, clock) == Answers(sent, history, b, e, p, clock)
  {
    var more := sent[|stored|..];
    assert sent == stored + more;
    MeaningsConcat(stored, more);
    AnswersOfPrefix(stored, more, Meanings(stored), Meanings(more), b, e, p, clock);
  }

  /** What the network makes of the answer is understood. */
  lemma NetworkArrives(t: Tables, params: SessionParameters, s: State, stored: seq<seq<Field>>, sent: seq<seq<Field>>,
                       history: seq<Inbound>, e: nat, p: Parties, clock: Clock, wires: seq<Wire>, chunks: seq<Wire>)
    returns (arrived: seq<seq<Field>>)
    requires PeerSends(t, params, s, stored, sent, history, e, p, clock) && AllResendable(stored)
    requires wires == Built(Answers(stored, Meanings(stored), s.nextIn, e, p, clock))
    requires Carries(chunks, Build(Encode(sent[e])), wires, Built(sent[e + 1..]))
    ensures Arrives(AcceptedView(t, params), s, sent, history, e, p, clock, arrived)
    ensures forall i | 0 <= i < |arrived| :: Understood(AcceptedView(t, params), arrived[i])
    ensures Concat(chunks) == BuildAll(Bodies(arrived))
  {
    var answer := Answers(sent, history, s.nextIn, e, p, clock);
    StoredAnswer(stored, sent, history, s.nextIn, e, p, clock);
    arrived := CarriedArrives(AcceptedView(t, params), s, sent, history, e, p, clock, answer, chunks);
    AcceptedIsUnderstood(t, params, sent, history, s.nextIn, e, p, clock, arrived);
  }

  /** The whole way: the peer answers out of its store, the network carries the answer mixed with what the peer
      sends later, in chunks of any size, the read loop frames it, and parser, validator and session handle
      it. The receiver ends active and up to date, with every application message from the one it expected on
      handled once and in order. */
  method RecoverOverNetwork(o: Outbox, b: SeqNo, e: nat, clock: Clock, network: seq<Wire> -> seq<Wire>,
                            ghost t: Tables, ghost params: SessionParameters, ghost s: State,
                            ghost sent: seq<seq<Field>>, ghost history: seq<Inbound>)
    returns (msgs: seq<Wire>)
    requires o.Valid() && b == s.nextIn && Resending.Printable(o.sent, b, e, o.factory.parties, clock)
    requires PeerSends(t, params, s, o.sent, sent, history, e, o.factory.parties, clock)
    requires forall ws {:trigger network(ws)} ::
      Carries(network(ws), Build(Encode(sent[e])), ws, Built(sent[e + 1..]))
    modifies o.factory.scratch, o.factory.scratch.buffer
    ensures Recovered(Run(AcceptedView(t, params), s, Arrivals(msgs)), s, history, e + 1)
  {
    ghost var p, stored := o.factory.parties, o.sent;
    var wires := o.Resend(b, e, clock);
    var chunks := network(wires);
    ghost var arrived := NetworkArrives(t, params, s, stored, sent, history, e, p, clock, wires, chunks);
    msgs := ReadRecovers(chunks, AcceptedView(t, params), s, sent, history, e, p, clock, arrived);
  }

  /** A printed message: its meaning, and that it can be sent again. */
  lemma Printed(params: SessionParameters, num: nat, k: Kind, p: Parties, now: Wire, d: Details)
    returns (fs: seq<Field>)
    requires IsOwn(k) && IsInbound(Msg(num, k, false)) && FieldsOk(PrintedFields(num, k, p, now, d))
    requires p == Parties(params.targetCompId, params.senderCompId)
    ensures fs == PrintedFields(num, k, p, now, d) && Meaning(fs) == Msg(num, k, false)
    ensures Resendable(fs) && Repeatable(REPOSITORY, params, fs)
  {
    fs := PrintedFields(num, k, p, now, d);
    PrintedMeans(num, k, p, now, d);
    PrintedIsRepeatable(params, num, k, p, now, d);
  }

  lemma TwoMeanings(f1: seq<Field>, f2: seq<Field>, m1: Msg, m2: Msg)
    requires Meaning(f1) == m1 && Meaning(f2) == m2
    ensures Meanings([f1, f2]) == [m1, m2]
  {
    MeaningsAt([f1, f2], 0);
    MeaningsAt([f1, f2], 1);
  }

  /** An acceptor that waits for its first Logon. */
  predicate Waiting(s: State) {
    s.Ok() && !s.stopped && s.phase == AwaitingLogon && s.cfg.role.Acceptor? && s.nextIn == 1 && s.cache == map[]
  }

  lemma CustomAndLogon(view: Wire -> View, s: State, payload: Wire) returns (history: seq<Inbound>)
    requires Waiting(s)
    ensures history == [Msg(1, Custom(payload), false), Msg(2, Logon(30, false), false)]
    ensures Behind(view, s, history, 2)
  {
    history := [Msg(1, Custom(payload), false), Msg(2, Logon(30, false), false)];
  }

  /** Such a peer: it has sent a custom message that the acceptor `s` missed, and then its Logon. What is asked
      of the texts is that they can be printed and fit a frame. */
  lemma SuchAPeer(params: SessionParameters, s: State, p: Parties, clock: Clock,
                  payload: Wire, now: Wire, d: Details, e: nat)
    returns (sent: seq<seq<Field>>, history: seq<Inbound>)
    requires Waiting(s) && Telling(clock) && p == Parties(params.targetCompId, params.senderCompId) && e == 1
    requires p.sender != [] && SohFree(p.sender) && p.target != [] && SohFree(p.target)
    requires FieldsOk(PrintedFields(1, Custom(payload), p, now, d))
    requires FieldsOk(PrintedFields(2, Logon(30, false), p, now, d))
    ensures history == [Msg(1, Custom(payload), false), Msg(2, Logon(30, false), false)] == Meanings(sent)
    ensures |sent| == 2 && AllResendable(sent)
    ensures AllFit(sent) && AllFit(Answers(sent, history, s.nextIn, e, p, clock)) ==>
      PeerSends(REPOSITORY, params, s, sent, sent, history, e, p, clock)
  {
    var t := REPOSITORY;
    history := CustomAndLogon(AcceptedView(t, params), s, payload);
    var f1 := Printed(params, 1, Custom(payload), p, now, d);
    var f2 := Printed(params, 2, Logon(30, false), p, now, d);
    sent := [f1, f2];
    TwoMeanings(f1, f2, history[0], history[1]);
    RepositoryAgrees(params, p);
    TwoSend(t, params, s, f1, f2, sent, history, e, p, clock);
  }

  lemma TwoSend(t: Tables, params: SessionParameters, s: State, f1: seq<Field>, f2: seq<Field>,
                sent: seq<seq<Field>>, history: seq<Inbound>, e: nat, p: Parties, clock: Clock)
    requires Agreed(t, params, p) && Telling(clock) && sent == [f1, f2] && history == Meanings(sent)
    requires Resendable(f1) && Resendable(f2) && Repeatable(t, params, f1) && Repeatable(t, params, f2)
    requires Behind(AcceptedView(t, params), s, history, e + 1) && s.nextIn == 1 && e == 1
    ensures AllResendable(sent)
    ensures AllFit(sent) && AllFit(Answers(sent, history, s.nextIn, e, p, clock)) ==>
      PeerSends(t, params, s, sent, sent, history, e, p, clock)
  {
    BothAre(t, params, f1, f2, sent);
  }

  lemma BothAre(t: Tables, params: SessionParameters, f1: seq<Field>, f2: seq<Field>, sent: seq<seq<Field>>)
    requires |t.header| >= 3 && sent == [f1, f2]
    requires Resendable(f1) && Resendable(f2) && Repeatable(t, params, f1) && Repeatable(t, params, f2)
    ensures AllResendable(sent) && forall j | 0 <= j < |sent| :: Repeatable(t, params, sent[j])
  {
    forall j | 0 <= j < |sent| ensures Repeatable(t, params, sent[j]) && Resendable(sent[j]) {
      if j == 0 { assert sent[j] == f1; } else { assert sent[j] == f2; }
    }
  }
}
