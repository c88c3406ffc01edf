/** Gap recovery from bytes to bytes: what one end prints out of its store, mixed with what it goes on
    sending, is read, framed, parsed, validated and handled by the other end as if nothing had been
    missed. */
module WireRecovery {
  import opened Bytes
  import opened Decimals
  import opened Framing
  import opened Protocol
  import opened SessionSpec
  import opened SessionRuns
  import opened OutboundLog
  import opened Draining
  import opened GapRecovery
  import opened Wires
  import opened Reader
  import opened FrameRoundTrip
  import opened MessageStores
  import opened MessageFields
  import opened Resending
  import opened Framers

  /** The validator passes what parses to these fields, and the session reads it by them. */
  ghost predicate Passes(view: Wire -> View, fs: seq<Field>) {
    forall w | Parse(w) == Fields(AllFields(fs)) :: view(w).Valid? && view(w).msg == Meaning(fs)
  }

  /** The parser with a validator that passes everything between length and checksum. */
  function ParsedView(w: Wire): View {
    match Parse(w)
    case ParseFailed(_, _) => ParseError
    case Fields(all) =>
      if |all| < 3 || !IsInbound(Meaning(all[2..|all| - 1])) then Unnumbered
      else Valid(Meaning(all[2..|all| - 1]))
  }

  /** There is such a view. */
  lemma ParsedViewPasses(fs: seq<Field>)
    requires IsInbound(Meaning(fs))
    ensures Passes(ParsedView, fs)
  {
    assert AllFields(fs)[2..|AllFields(fs)| - 1] == fs;
  }

  /** Field values that can be told apart on the wire, and a message that can be framed. */
  predicate Sendable(fs: seq<Field>) {
    FieldsOk(fs) && |Encode(fs)| <= MAX_MESSAGE_SIZE
  }

  lemma PassesBuilt(view: Wire -> View, fs: seq<Field>)
    requires Passes(view, fs) && FieldsOk(fs)
    ensures view(Build(Encode(fs))).Valid? && view(Build(Encode(fs))).msg == Meaning(fs)
  {
    ParseOfBuild(fs);
  }

  lemma {:induction false} InterleavesMeanings(zs: seq<seq<Field>>, xs: seq<seq<Field>>, ys: seq<seq<Field>>)
    requires Interleaves(zs, xs, ys)
    ensures Interleaves(Meanings(zs), Meanings(xs), Meanings(ys))
    decreases |zs|
  {
    if zs != [] {
      MeaningsFrom(zs, 1);
      if xs != [] && zs[0] == xs[0] && Interleaves(zs[1..], xs[1..], ys) {
        MeaningsFrom(xs, 1);
        InterleavesMeanings(zs[1..], xs[1..], ys);
      } else {
        MeaningsFrom(ys, 1);
        InterleavesMeanings(zs[1..], xs, ys[1..]);
      }
    }
  }

  /** The bytes of built messages, cut into messages again. */
  lemma StreamIsCut(ms: seq<seq<Field>>, bodies: seq<Wire>)
    requires |bodies| == |ms|
    requires forall i | 0 <= i < |ms| :: Sendable(ms[i]) && bodies[i] == Encode(ms[i])
    ensures
      var s := BuildAll(bodies);
      Inside(s, Frames(s, 0)) && Slices(s, Frames(s, 0)) == Built(ms)
  {
    BuiltStreamFramesAndParses(ms, bodies);
  }

  lemma BuiltReads(view: Wire -> View, ms: seq<seq<Field>>)
    requires forall i | 0 <= i < |ms| :: FieldsOk(ms[i]) && Passes(view, ms[i])
    ensures Reads(view, Built(ms), Meanings(ms))
  {
    forall i | 0 <= i < |ms| ensures view(Built(ms)[i]).Valid? && view(Built(ms)[i]).msg == Meanings(ms)[i] {
      PassesBuilt(view, ms[i]);
      MeaningsAt(ms, i);
    }
  }

  function Bodies(ms: seq<seq<Field>>): (r: seq<Wire>)
    ensures |r| == |ms| && forall i | 0 <= i < |ms| :: r[i] == Encode(ms[i])
  {
    seq(|ms|, i requires 0 <= i < |ms| => Encode(ms[i]))
  }

  /** The session-level outcome, for messages given as fields. */
  ghost predicate Recovered(r: State, s: State, history: seq<Inbound>, k: nat)
    requires 1 <= s.nextIn < k <= |history|
  {
    && CaughtUp(r, TermsOf(s), |history| + 1)
    && s.handled <= r.handled
    && AppContent(r.handled[|s.handled|..]) == AppContent(history[s.nextIn - 1..])
    && AskedOnce(s, r, k)
  }

  lemma WiresRecover(view: Wire -> View, s: State, history: seq<Inbound>, e: nat,
                     wk: Wire, ws: seq<Wire>, ms: seq<Msg>, replay: seq<Msg>, after: seq<Msg>)
    requires Behind(view, s, history, e + 1)
    requires view(wk) == Valid(history[e])
    requires replay == Replay(history, s.nextIn, e) && after == history[e + 1..]
    requires Reads(view, ws, ms) && Interleaves(ms, replay, after)
    ensures Recovered(Run(view, s, Arrivals([wk] + ws)), s, history, e + 1)
  {
    var k := e + 1;
    AnswerConverges(view, s, history, k, wk, ws, ms);
    AnswerKeepsAppContent(history, s.nextIn, k);
    HandledSince(s.handled, Replay(history, s.nextIn, k - 1) + history[k - 1..],
                 Run(view, s, Arrivals([wk] + ws)).handled);
  }

  lemma HandledSince(before: seq<Msg>, more: seq<Msg>, now: seq<Msg>)
    requires now == before + more
    ensures before <= now && now[|before|..] == more
  {
  }

  ghost predicate Understood(view: Wire -> View, m: seq<Field>) {
    Sendable(m) && Passes(view, m)
  }

  /** What the receiver gets first, and what then comes in, read as messages. */
  lemma ArrivedReads(view: Wire -> View, first: seq<Field>, zs: seq<seq<Field>>, arrived: seq<seq<Field>>)
    returns (wk: Wire, ws: seq<Wire>, ms: seq<Msg>)
    requires arrived == [first] + zs
    requires forall i | 0 <= i < |arrived| :: Understood(view, arrived[i])
    ensures Built(arrived) == [wk] + ws
    ensures view(wk).Valid? && view(wk).msg == Meaning(first)
    ensures ms == Meanings(zs) && Reads(view, ws, ms)
  {
    wk, ws, ms := Build(Encode(first)), Built(zs), Meanings(zs);
    BuiltCons(first, zs);
    RestUnderstood(view, first, zs, arrived);
    PassesBuilt(view, first);
    BuiltReads(view, zs);
  }

  lemma RestUnderstood(view: Wire -> View, first: seq<Field>, zs: seq<seq<Field>>, arrived: seq<seq<Field>>)
    requires arrived == [first] + zs
    requires forall i | 0 <= i < |arrived| :: Understood(view, arrived[i])
    ensures Understood(view, first)
    ensures forall i | 0 <= i < |zs| :: FieldsOk(zs[i]) && Passes(view, zs[i])
  {
    assert Understood(view, arrived[0]);
    forall i | 0 <= i < |zs| ensures FieldsOk(zs[i]) && Passes(view, zs[i]) {
      assert Understood(view, arrived[i + 1]);
    }
  }

  lemma MeaningsFrom(ms: seq<seq<Field>>, k: nat)
    requires k <= |ms|
    ensures Meanings(ms[k..]) == Meanings(ms)[k..]
  {
    forall i | 0 <= i < |ms| - k ensures Meanings(ms[k..])[i] == Meanings(ms)[k..][i] {
      MeaningsAt(ms[k..], i);
      MeaningsAt(ms, k + i);
    }
  }

  lemma InterleavesAs(zs: seq<seq<Field>>, xs: seq<seq<Field>>, ys: seq<seq<Field>>, mx: seq<Msg>, my: seq<Msg>)
    requires Interleaves(zs, xs, ys) && mx == Meanings(xs) && my == Meanings(ys)
    ensures Interleaves(Meanings(zs), mx, my)
  {
    InterleavesMeanings(zs, xs, ys);
  }

  lemma ArrivedIsCut(view: Wire -> View, ms: seq<seq<Field>>) returns (stream: Wire)
    requires forall i | 0 <= i < |ms| :: Understood(view, ms[i])
    ensures stream == BuildAll(Bodies(ms))
    ensures Inside(stream, Frames(stream, 0)) && Slices(stream, Frames(stream, 0)) == Built(ms)
  {
    stream := BuildAll(Bodies(ms));
    forall i | 0 <= i < |ms| ensures Sendable(ms[i]) {
      assert Understood(view, ms[i]);
    }
    StreamIsCut(ms, Bodies(ms));
  }

  /** Recovery from a stream of bytes, when the answer is known to stand for the replay. */
  lemma StreamRecovers(view: Wire -> View, s: State, history: seq<Inbound>, e: nat,
                       answer: seq<seq<Field>>, replay: seq<Msg>, live: seq<seq<Field>>, after: seq<Msg>,
                       first: seq<Field>, zs: seq<seq<Field>>, arrived: seq<seq<Field>>)
    returns (stream: Wire)
    requires Behind(view, s, history, e + 1)
    requires replay == Replay(history, s.nextIn, e) && after == history[e + 1..]
    requires replay == Meanings(answer) && after == Meanings(live) && Meaning(first) == history[e]
    requires Interleaves(zs, answer, live) && arrived == [first] + zs
    requires forall i | 0 <= i < |arrived| :: Understood(view, arrived[i])
    ensures stream == BuildAll(Bodies(arrived)) && Inside(stream, Frames(stream, 0))
    ensures Recovered(Run(view, s, Arrivals(Slices(stream, Frames(stream, 0)))), s, history, e + 1)
  {
    stream := ArrivedIsCut(view, arrived);
    var wk, ws, ms := ArrivedReads(view, first, zs, arrived);
    InterleavesAs(zs, answer, live, replay, after);
    WiresRecover(view, s, history, e, wk, ws, ms, replay, after);
  }

  /** What the message after the first e stands for, and what is sent after that. */
  lemma SentAround(sent: seq<seq<Field>>, history: seq<Inbound>, e: nat, first: seq<Field>, live: seq<seq<Field>>)
    returns (after: seq<Msg>)
    requires e < |sent| && history == Meanings(sent) && first == sent[e] && live == sent[e + 1..]
    ensures Meaning(first) == history[e] && after == history[e + 1..] && after == Meanings(live)
  {
    after := history[e + 1..];
    MeaningsAt(sent, e);
    MeaningsFrom(sent, e + 1);
  }

  lemma AnswerReads(sent: seq<seq<Field>>, history: seq<Inbound>, b: SeqNo, e: nat, p: Parties, clock: Clock,
                    answer: seq<seq<Field>>)
    returns (replay: seq<Msg>)
    requires history == Meanings(sent) && AllResendable(sent) && e <= |sent|
    requires answer == Answers(sent, history, b, e, p, clock)
    ensures replay == Replay(history, b, e) && replay == Meanings(answer)
  {
    replay := Replay(history, b, e);
    AnswersMeanReplay(sent, history, b, e, p, clock);
  }

  /** `sent` are the messages of a peer as fields, `history` what they stand for. A receiver `s` misses
      everything from the one it expects to message e. It gets message e + 1 first, and then, in any
      interleaving, the answer the peer prints out of its store and the messages it goes on sending. */
  ghost predicate Arrives(view: Wire -> View, s: State, sent: seq<seq<Field>>, history: seq<Inbound>, e: nat,
                          p: Parties, clock: Clock, arrived: seq<seq<Field>>)
  {
    && Behind(view, s, history, e + 1) && history == Meanings(sent) && AllResendable(sent)
    && Mixed(sent, history, s.nextIn, e, p, clock, arrived)
  }

  /** First message e + 1, then the answer for [b, e] mixed with what comes after. */
  predicate Mixed(sent: seq<seq<Field>>, history: seq<Inbound>, b: SeqNo, e: nat, p: Parties, clock: Clock,
                  arrived: seq<seq<Field>>)
    requires e < |sent| == |history| && AllResendable(sent)
  {
    && arrived != [] && arrived[0] == sent[e]
    && Interleaves(arrived[1..], Answers(sent, history, b, e, p, clock), sent[e + 1..])
  }

  lemma MixedIs(sent: seq<seq<Field>>, history: seq<Inbound>, b: SeqNo, e: nat, p: Parties, clock: Clock,
                arrived: seq<seq<Field>>)
    returns (first: seq<Field>, zs: seq<seq<Field>>, answer: seq<seq<Field>>, live: seq<seq<Field>>)
    requires e < |sent| == |history| && AllResendable(sent)
    requires Mixed(sent, history, b, e, p, clock, arrived)
    ensures first == sent[e] && live == sent[e + 1..] && answer == Answers(sent, history, b, e, p, clock)
    ensures Interleaves(zs, answer, live) && arrived == [first] + zs
  {
    first, zs, live := sent[e], arrived[1..], sent[e + 1..];
    answer := Answers(sent, history, b, e, p, clock);
    HeadAndRest(arrived);
  }

  lemma HeadAndRest<T>(s: seq<T>)
    requires s != []
    ensures s == [s[0]] + s[1..]
  {
  }

  /** Recovery in bytes. Framed out of one stream and handled, what arrives leaves the receiver active and up
      to date, with the application messages from e on handled each once and in order. */
  lemma ByteStreamRecovers(view: Wire -> View, s: State, sent: seq<seq<Field>>, history: seq<Inbound>, e: nat,
                           p: Parties, clock: Clock, arrived: seq<seq<Field>>)
    returns (stream: Wire)
    requires Arrives(view, s, sent, history, e, p, clock, arrived)
    requires forall i | 0 <= i < |arrived| :: Understood(view, arrived[i])
    ensures stream == BuildAll(Bodies(arrived)) && Inside(stream, Frames(stream, 0))
    ensures Recovered(Run(view, s, Arrivals(Slices(stream, Frames(stream, 0)))), s, history, e + 1)
  {
    var first, zs, answer, live := MixedIs(sent, history, s.nextIn, e, p, clock, arrived);
    var after := SentAround(sent, history, e, first, live);
    var replay := AnswerReads(sent, history, s.nextIn, e, p, clock, answer);
    stream := StreamRecovers(view, s, history, e, answer, replay, live, after, first, zs, arrived);
  }

  // ---- however it is read ----

  lemma {:induction false} InterleavesLength<T>(zs: seq<T>, xs: seq<T>, ys: seq<T>)
    requires Interleaves(zs, xs, ys)
    ensures |zs| == |xs| + |ys|
    decreases |zs|
  {
    if zs != [] {
      if xs != [] && zs[0] == xs[0] && Interleaves(zs[1..], xs[1..], ys) {
        InterleavesLength(zs[1..], xs[1..], ys);
      } else {
        InterleavesLength(zs[1..], xs, ys[1..]);
      }
    }
  }

  lemma {:induction false} InterleavesMembers<T>(zs: seq<T>, xs: seq<T>, ys: seq<T>, i: nat)
    requires Interleaves(zs, xs, ys) && i < |zs|
    ensures zs[i] in xs || zs[i] in ys
    decreases |zs|
  {
    if i > 0 {
      if xs != [] && zs[0] == xs[0] && Interleaves(zs[1..], xs[1..], ys) {
        InterleavesMembers(zs[1..], xs[1..], ys, i - 1);
      } else {
        InterleavesMembers(zs[1..], xs, ys[1..], i - 1);
      }
    }
  }

  /** An answer has no more messages than the range has numbers. */
  lemma {:induction false} AnswersLength(ms: seq<seq<Field>>, log: seq<Msg>, b: SeqNo, e: nat, p: Parties, clock: Clock)
    requires b <= e + 1 && e <= |ms| == |log| && AllResendable(ms)
    ensures |Answers(ms, log, b, e, p, clock)| <= e + 1 - b
    decreases e + 1 - b
  {
    if b <= e {
      var first, next := AnswersStep(ms, log, b, e, p, clock);
      AnswersLength(ms, log, next, e, p, clock);
    }
  }

  /** What arrives fits the window, and so the queue of the framer. */
  lemma MixedLength(sent: seq<seq<Field>>, history: seq<Inbound>, b: SeqNo, e: nat, p: Parties, clock: Clock,
                    arrived: seq<seq<Field>>)
    requires b <= e < |sent| == |history| && AllResendable(sent)
    requires Mixed(sent, history, b, e, p, clock, arrived)
    ensures |arrived| <= |sent| + 1 - b
  {
    var first, zs, answer, live := MixedIs(sent, history, b, e, p, clock, arrived);
    AnswersLength(sent, history, b, e, p, clock);
    InterleavesLength(zs, answer, live);
  }

  /** Recovery from reads: however the bytes are cut into chunks, the messages the read loop hands out are
      the ones that recover. */
  method ReadRecovers(chunks: seq<Wire>, ghost view: Wire -> View, ghost s: State, ghost sent: seq<seq<Field>>,
                      ghost history: seq<Inbound>, ghost e: nat, ghost p: Parties, ghost clock: Clock,
                      ghost arrived: seq<seq<Field>>)
    returns (msgs: seq<Wire>)
    requires Arrives(view, s, sent, history, e, p, clock, arrived)
    requires forall i | 0 <= i < |arrived| :: Understood(view, arrived[i])
    requires Concat(chunks) == BuildAll(Bodies(arrived))
    ensures msgs == Built(arrived)
    ensures Recovered(Run(view, s, Arrivals(msgs)), s, history, e + 1)
  {
    ghost var stream := ByteStreamRecovers(view, s, sent, history, e, p, clock, arrived);
    ghost var same := ArrivedIsCut(view, arrived);
    MixedLength(sent, history, s.nextIn, e, p, clock, arrived);
    msgs := ReadAll(chunks);
  }
}
