/** What one message does to an end that may be behind: how its recovery gets on, what it handles, and what
    it says. */
module CatchingUp {
  import opened Bytes
  import opened Protocol
  import opened SessionSpec
  import opened SessionRuns
  import opened Draining
  import opened RecoveryPhase
  import opened GapRecovery
  import opened Answering
  import opened TwoEnds
  import opened Directions

  /** `r` is `y` after it has read one message: it has handled `h`, said `ks`, and stands as in `st`. */
  ghost predicate HasRead(view: Wire -> View, log: seq<Inbound>, y: State, r: State, rest: seq<Msg>, st: Stage,
                          ks: seq<Kind>, h: seq<Msg>)
  {
    && Incoming(view, log, r, rest, st) && Replied(y, r, ks)
    && r.cfg == y.cfg && TermsOf(r) == TermsOf(y) && r.handled == y.handled + h
    && 1 <= y.nextIn <= r.nextIn <= |log| + 1
    && AppContent(h) == AppContent(log[y.nextIn - 1..r.nextIn - 1])
  }

  lemma PlainIsLive(t: Terms, hb: nat, log: seq<Inbound>, n: nat)
    requires Numbered(log) && PlainFrom(hb, log, n) && 10 <= hb <= 120
    requires t.interval.Some? ==> t.interval.value == hb
    ensures LiveFrom(t, log, n)
  {
  }

  /** The first message, which is early: it is filed and asked about. */
  lemma ReadFirst(view: Wire -> View, printed: Msg -> Wire, log: seq<Inbound>, y: State, xy: seq<Msg>, e: nat)
    returns (r: State, st: Stage, ks: seq<Kind>)
    requires Incoming(view, log, y, xy, Missing(e)) && xy != [] && Numbered(log) && Prints(view, printed)
    requires |log| < y.nextIn + WINDOW
    ensures r == Process(view, y, printed(xy[0])) && st == Asked(e, e + 1, y.nextOut)
    ensures ks == [ResendRequest(y.nextIn, e)]
    ensures HasRead(view, log, y, r, xy[1..], st, ks, [])
    ensures r.phase == RecoveringResend && r.base == y.nextIn
  {
    var w := printed(xy[0]);
    assert xy[0] == log[e] && xy[1..] == log[e + 1..];
    GapOpens(view, y, log, e + 1, w);
    r, ks := EarlyRead(view, y, log[e], w);
    st := Asked(e, e + 1, y.nextOut);
  }

  /** Filing a message says nothing. */
  lemma FilingSays(view: Wire -> View, y: State, m: Inbound, w: Wire)
    requires OkEnd(view, y) && !y.stopped && y.phase == RecoveringResend && y.nextIn < m.num && InWindow(y.base, m.num)
    requires view(w) == Valid(m) && y.nextIn !in y.cache
    ensures
      var r := Process(view, y, w);
      Replied(y, r, []) && r.nextIn == y.nextIn && r.base == y.base && r.cfg == y.cfg
  {
    RepliedNothing(y, Process(view, y, w));
  }

  /** A live message during the recovery. */
  lemma ReadLive(view: Wire -> View, log: seq<Inbound>, y: State, e: nat, j: nat, p: nat, w: Wire)
    returns (r: State)
    requires OkEnd(view, y) && LiveFrom(TermsOf(y), log, e + 1) && |log| < y.base + WINDOW
    requires Mid(view, y, TermsOf(y), log, y.base, e + 1, j + 1, p) && j < |log| && view(w) == Valid(log[j])
    ensures r == Process(view, y, w) && OkEnd(view, r)
    ensures Mid(view, r, TermsOf(r), log, r.base, e + 1, j + 2, p)
    ensures Replied(y, r, []) && r.handled == y.handled && r.cfg == y.cfg && TermsOf(r) == TermsOf(y)
    ensures r.nextIn == y.nextIn && r.base == y.base && r.phase == RecoveringResend && !r.stopped
  {
    r := Process(view, y, w);
    LiveIsCached(view, y, TermsOf(y), log, y.base, e + 1, j + 1, p, w);
    FilingSays(view, y, log[j], w);
  }

  /** Before the request was answered. */
  lemma ReadWhileAsking(view: Wire -> View, printed: Msg -> Wire, log: seq<Inbound>, y: State, xy: seq<Msg>,
                        e: nat, j: nat, n: nat)
    returns (r: State, st: Stage)
    requires Incoming(view, log, y, xy, Asked(e, j, n)) && xy != [] && Prints(view, printed)
    requires LiveFrom(TermsOf(y), log, e + 1) && |log| < y.base + WINDOW
    ensures r == Process(view, y, printed(xy[0])) && st == Asked(e, j + 1, n)
    ensures HasRead(view, log, y, r, xy[1..], st, [], []) && r.nextIn == y.nextIn && r.base == y.base
    ensures r.phase == RecoveringResend
  {
    assert xy[0] == log[j] && xy[1..] == log[j + 1..];
    r := ReadLive(view, log, y, e, j, y.nextIn, printed(xy[0]));
    st := Asked(e, j + 1, n);
  }

  /** An expected message, with nothing missing. */
  lemma ReadInOrder(view: Wire -> View, printed: Msg -> Wire, log: seq<Inbound>, y: State, xy: seq<Msg>)
    returns (r: State, ks: seq<Kind>)
    requires Incoming(view, log, y, xy, Level) && xy != [] && Prints(view, printed)
    requires Numbered(log) && Harmless(TermsOf(y), xy[0]) && !xy[0].kind.ResendRequest?
    ensures r == Process(view, y, printed(xy[0])) && ks == Reply(y.cfg, xy[0].kind)
    ensures HasRead(view, log, y, r, xy[1..], Level, ks, [xy[0]])
    ensures r.phase == PhaseAfter(TermsOf(y), y.phase, xy[0]) && r.nextIn == y.nextIn + 1
    ensures Listening(y.phase) || Admin(xy[0].kind)
  {
    var m, w := log[y.nextIn - 1], printed(xy[0]);
    r, ks := Process(view, y, w), Reply(y.cfg, m.kind);
    assert xy[0] == m && xy[1..] == log[y.nextIn..];
    assert Listening(y.phase) || Admin(m.kind);
    DispatchOutcome(y, m, w);
    DispatchReplies(y, m, w);
    HarmlessMeans(TermsOf(y), m, y.phase);
    AdmitsRest(y.phase, xy, r.phase);
    assert log[y.nextIn - 1..r.nextIn - 1] == [m];
  }

  // ---- the answer arrives ----

  /** No application message from number a to b - 1 asks for a reply. */
  predicate Mute(cfg: Config, log: seq<Msg>, a: nat, b: nat) {
    forall i | 0 <= i < |log| && a <= i + 1 < b && !Admin(log[i].kind) :: Reply(cfg, log[i].kind) == []
  }

  /** The first message of a replay carries what it takes the reader across. */
  lemma ReplayedContent(cfg: Config, log: seq<Msg>, p: SeqNo, e: nat, m: Msg, next: nat)
    requires p <= e <= |log| && Numbered(log) && m == Replay(log, p, e)[0] && next == NextExpected(cfg, m)
    ensures p < next <= e + 1 && AppContent([m]) == AppContent(log[p - 1..next - 1])
    ensures Mute(cfg, log, p, next) <==> Reply(cfg, m.kind) == []
    ensures !Admin(m.kind) || (m.kind.SequenceReset? && m.kind.gapFill)
  {
    assert [m][1..] == [];
    if Admin(log[p - 1].kind) {
      assert next == RunEnd(log, p, e) + 1;
      AppContentSkipsAdmins(log, p - 1, next - 1, next - 1);
      assert log[next - 1..next - 1] == [];
    } else {
      assert log[p - 1..p] == [log[p - 1]] && [log[p - 1]][1..] == [];
    }
  }

  lemma ReplayedSays(view: Wire -> View, y: State, m: Inbound, w: Wire)
    requires Expected(y, m) && view(w) == Valid(m) && CacheReads(view, y)
    requires !Admin(m.kind) || (m.kind.SequenceReset? && m.kind.gapFill)
    ensures Replied(y, Received(view, y, w), Reply(y.cfg, m.kind)) && Received(view, y, w).cfg == y.cfg
  {
    DispatchReplies(y, m, w);
    DispatchHandles(y, Valid(m), w);
  }

  /** `m` is the next message of the answer, `rest` what is left of it. */
  ghost predicate NextAnswer(view: Wire -> View, log: seq<Inbound>, y: State, xy: seq<Msg>, e: nat, j: nat, p: nat,
                             w: Wire, m: Inbound, rest: seq<Msg>)
  {
    && OkEnd(view, y) && LiveFrom(TermsOf(y), log, e + 1)
    && Mid(view, y, TermsOf(y), log, y.base, e + 1, j + 1, p)
    && xy != [] && m == xy[0] && view(w) == Valid(m)
    && Replay(log, p, e) == [m] + rest && Interleaves(xy[1..], rest, log[j..])
  }

  lemma SameRest(m: Msg, a: seq<Msg>, b: seq<Msg>)
    ensures ([m] + a)[0] == m
    ensures [m] + a == [m] + b ==> a == b
  {
    assert ([m] + a)[1..] == a && ([m] + b)[1..] == b;
  }

  /** Where a replayed message leads. */
  lemma ReplayedLeads(view: Wire -> View, log: seq<Inbound>, y: State, xy: seq<Msg>, e: nat, j: nat, p: nat,
                      w: Wire, m: Inbound, rest: seq<Msg>)
    returns (u: State)
    requires NextAnswer(view, log, y, xy, e, j, p, w, m, rest)
    ensures u == Received(view, y, w) && OkEnd(view, u) && TermsOf(u) == TermsOf(y) && u.handled == y.handled + [m]
    ensures u.phase == RecoveringResend && !u.stopped && u.base == y.base && u.cache == y.cache && u.cache != map[]
    ensures p < u.nextIn <= e + 1 && rest == Replay(log, u.nextIn, e) && u.nextIn == NextExpected(y.cfg, m)
    ensures u.nextIn <= e ==> Process(view, y, w) == u
    ensures u.nextIn == e + 1 ==> Process(view, y, w) == DrainLoop(view, u)
  {
    SameRest(m, rest, rest);
    u := ReplayMoves(view, y, TermsOf(y), log, y.base, e + 1, j + 1, p, w, m);
    SameRest(m, rest, Replay(log, u.nextIn, e));
    assert u.cache != map[] by { assert e + 1 in y.cache; }
  }

  lemma NextIsFirst(view: Wire -> View, log: seq<Inbound>, y: State, xy: seq<Msg>, e: nat, j: nat, p: nat,
                    w: Wire, m: Inbound, rest: seq<Msg>)
    requires NextAnswer(view, log, y, xy, e, j, p, w, m, rest)
    ensures 1 <= p <= e <= |log| && Numbered(log) && m == Replay(log, p, e)[0] && Expected(y, m)
  {
    SameRest(m, rest, rest);
    ReplayPartitions(log, p, e);
  }

  /** What handling it does, told without the rest of the log. */
  lemma ReplayedTells(view: Wire -> View, log: seq<Inbound>, y: State, u: State, e: nat, p: nat, w: Wire, m: Inbound)
    requires OkEnd(view, y) && view(w) == Valid(m) && Expected(y, m) && u == Received(view, y, w)
    requires 1 <= p <= e <= |log| && Numbered(log) && m == Replay(log, p, e)[0] && u.nextIn == NextExpected(y.cfg, m)
    ensures Replied(y, u, Reply(y.cfg, m.kind)) && u.cfg == y.cfg
    ensures p < u.nextIn <= e + 1 && AppContent([m]) == AppContent(log[p - 1..u.nextIn - 1])
    ensures Mute(y.cfg, log, p, u.nextIn) <==> Reply(y.cfg, m.kind) == []
  {
    ReplayedContent(y.cfg, log, p, e, m, u.nextIn);
    ReplayedSays(view, y, m, w);
  }

  /** A replayed message is handled. */
  lemma ReadReplayed(view: Wire -> View, log: seq<Inbound>, y: State, xy: seq<Msg>, e: nat, j: nat, p: nat,
                     w: Wire, m: Inbound, rest: seq<Msg>)
    returns (u: State)
    requires NextAnswer(view, log, y, xy, e, j, p, w, m, rest)
    ensures u == Received(view, y, w) && OkEnd(view, u) && u.cfg == y.cfg && TermsOf(u) == TermsOf(y)
    ensures Replied(y, u, Reply(y.cfg, m.kind)) && u.handled == y.handled + [m]
    ensures u.phase == RecoveringResend && !u.stopped && u.base == y.base && u.cache == y.cache
    ensures p < u.nextIn <= e + 1 && rest == Replay(log, u.nextIn, e)
    ensures AppContent([m]) == AppContent(log[p - 1..u.nextIn - 1])
    ensures Mute(y.cfg, log, p, u.nextIn) <==> Reply(y.cfg, m.kind) == []
    ensures u.nextIn <= e ==> Process(view, y, w) == u
    ensures u.nextIn == e + 1 ==> Process(view, y, w) == DrainLoop(view, u)
  {
    u := ReplayedLeads(view, log, y, xy, e, j, p, w, m, rest);
    NextIsFirst(view, log, y, xy, e, j, p, w, m, rest);
    ReplayedTells(view, log, y, u, e, p, w, m);
  }

  lemma ContentJoined(log: seq<Msg>, a: nat, b: nat, c: nat, g: seq<Msg>)
    requires a <= b <= c <= |log| && AppContent(g) == AppContent(log[a..b])
    ensures AppContent(g + log[b..c]) == AppContent(log[a..c])
  {
    AppContentConcat(g, log[b..c]);
    AppContentConcat(log[a..b], log[b..c]);
    assert log[a..c] == log[a..b] + log[b..c];
  }

  /** The answer goes on. */
  lemma ReadMore(view: Wire -> View, log: seq<Inbound>, y: State, xy: seq<Msg>, e: nat, j: nat, p: nat,
                 w: Wire, m: Inbound, rest: seq<Msg>)
    returns (r: State)
    requires NextAnswer(view, log, y, xy, e, j, p, w, m, rest) && Received(view, y, w).nextIn <= e
    ensures r == Process(view, y, w)
    ensures HasRead(view, log, y, r, xy[1..], Answered(e, j, r.nextIn), Reply(y.cfg, m.kind), [m])
    ensures p < r.nextIn <= e && r.phase == RecoveringResend && r.base == y.base
    ensures Mute(y.cfg, log, p, r.nextIn) <==> Reply(y.cfg, m.kind) == []
  {
    r := ReadReplayed(view, log, y, xy, e, j, p, w, m, rest);
  }

  /** The cached messages are let through. */
  lemma LetThrough(view: Wire -> View, hb: nat, log: seq<Inbound>, y: State, u: State, e: nat, j: nat, p: nat)
    returns (r: State)
    requires OkEnd(view, u) && LiveFrom(TermsOf(u), log, e + 1) && PlainFrom(hb, log, e + 1)
    requires Mid(view, y, TermsOf(u), log, y.base, e + 1, j + 1, p) && u.cache == y.cache
    requires u.phase == RecoveringResend && !u.stopped && u.nextIn == e + 1
    ensures r == DrainLoop(view, u) && CaughtUp(r, TermsOf(u), j + 1) && CacheReads(view, r) && r.cfg == u.cfg
    ensures r.handled == u.handled + log[e..j] && Replied(u, r, Replies(u.cfg, log[e..j]))
  {
    r := DrainLoop(view, u);
    assert u.cache != map[] by { assert e + 1 in u.cache; }
    ClosingDrains(view, u, TermsOf(u), log, e + 1, j + 1);
    assert Holds(view, TermsOf(u), u.cache, log, e, j);
    DrainReplies(view, u, log, e, j);
  }

  /** The answer ends, and everything cached is let through. */
  lemma ReadLast(view: Wire -> View, hb: nat, log: seq<Inbound>, y: State, xy: seq<Msg>, e: nat, j: nat, p: nat,
                 w: Wire, m: Inbound, rest: seq<Msg>)
    returns (r: State, ks: seq<Kind>)
    requires NextAnswer(view, log, y, xy, e, j, p, w, m, rest) && PlainFrom(hb, log, e + 1)
    requires Received(view, y, w).nextIn == e + 1
    ensures r == Process(view, y, w) && ks == Reply(y.cfg, m.kind) + Replies(y.cfg, log[e..j])
    ensures HasRead(view, log, y, r, xy[1..], Level, ks, [m] + log[e..j])
    ensures r.phase == Active && r.nextIn == j + 1
    ensures Mute(y.cfg, log, p, e + 1) <==> Reply(y.cfg, m.kind) == []
  {
    var u := ReadReplayed(view, log, y, xy, e, j, p, w, m, rest);
    var g, tail, first := log[e..j], xy[1..], Reply(y.cfg, m.kind);
    var more := Replies(y.cfg, g);
    r := LetThrough(view, hb, log, y, u, e, j, p);
    ks := first + more;
    assert rest == [];
    InterleavesNothing(tail, log[j..]);
    LastRead(view, log, y, u, r, tail, e, j, p, m, first, g, more);
  }

  /** The two halves of that read. */
  lemma LastRead(view: Wire -> View, log: seq<Inbound>, y: State, u: State, r: State, rest: seq<Msg>,
                 e: nat, j: nat, p: nat, m: Msg, ks: seq<Kind>, g: seq<Msg>, more: seq<Kind>)
    requires Replied(y, u, ks) && Replied(u, r, more) && u.handled == y.handled + [m] && r.handled == u.handled + g
    requires u.cfg == y.cfg == r.cfg && TermsOf(u) == TermsOf(y) && CaughtUp(r, TermsOf(u), j + 1) && OkEnd(view, r)
    requires 1 <= p <= e <= j <= |log| && y.nextIn == p && g == log[e..j] && rest == log[j..]
    requires u.nextIn == e + 1 && AppContent([m]) == AppContent(log[p - 1..u.nextIn - 1])
    ensures HasRead(view, log, y, r, rest, Level, ks + more, [m] + g)
  {
    RepliedConcat(y, u, r, ks, more);
    ContentJoined(log, p - 1, e, j, [m]);
    assert (y.handled + [m]) + g == y.handled + ([m] + g);
  }

  /** The first message of a replay. */
  lemma FirstReplayed(view: Wire -> View, log: seq<Inbound>, y: State, xy: seq<Msg>, e: nat, j: nat, p: nat, w: Wire)
    returns (m: Inbound, rest: seq<Msg>)
    requires OkEnd(view, y) && LiveFrom(TermsOf(y), log, e + 1)
    requires Mid(view, y, TermsOf(y), log, y.base, e + 1, j + 1, p)
    requires xy != [] && IsInbound(xy[0]) && view(w) == Valid(xy[0])
    requires Replay(log, p, e) != [] && xy[0] == Replay(log, p, e)[0]
    requires Interleaves(xy[1..], Replay(log, p, e)[1..], log[j..])
    ensures NextAnswer(view, log, y, xy, e, j, p, w, m, rest)
  {
    m, rest := xy[0], Replay(log, p, e)[1..];
    assert Replay(log, p, e) == [m] + rest;
  }

  lemma {:induction false} ReplayIsInbound(log: seq<Inbound>, b: SeqNo, e: nat)
    requires b <= e <= |log|
    ensures Replay(log, b, e) != [] && IsInbound(Replay(log, b, e)[0])
  {
    assert IsInbound(log[b - 1]);
  }

  /** What the next message can do while the answer is on its way. */
  datatype Turn = Filed | Passed | Closed

  /** What a replay consists of. */
  predicate Replayable(k: Kind) {
    !Admin(k) || k.SequenceReset?
  }

  /** What reading one more message has done, and what it takes the reader across. */
  ghost predicate TurnOf(log: seq<Inbound>, y: State, r: State, first: Msg, e: nat, j: nat, p: nat,
                         turn: Turn, st: Stage, ks: seq<Kind>)
  {
    match turn
    case Filed =>
      && st == Answered(e, j + 1, p) && ks == [] && r.nextIn == p && r.phase == RecoveringResend && r.base == y.base
    case Passed =>
      && st == Answered(e, j, r.nextIn) && ks == Reply(y.cfg, first.kind) && Replayable(first.kind)
      && p < r.nextIn <= e && r.phase == RecoveringResend && r.base == y.base
      && (Mute(y.cfg, log, p, r.nextIn) <==> ks == [])
    case Closed =>
      && e <= j <= |log| && st == Level && ks == Reply(y.cfg, first.kind) + Replies(y.cfg, log[e..j])
      && Replayable(first.kind) && r.nextIn == j + 1 && r.phase == Active
      && (Mute(y.cfg, log, p, e + 1) <==> Reply(y.cfg, first.kind) == [])
  }

  /** One more message of the answer. */
  lemma ReadReplay(view: Wire -> View, hb: nat, log: seq<Inbound>, y: State, xy: seq<Msg>,
                   e: nat, j: nat, p: nat, w: Wire, m: Inbound, rest: seq<Msg>)
    returns (turn: Turn, r: State, st: Stage, ks: seq<Kind>, h: seq<Msg>)
    requires NextAnswer(view, log, y, xy, e, j, p, w, m, rest) && PlainFrom(hb, log, e + 1)
    ensures r == Process(view, y, w) && HasRead(view, log, y, r, xy[1..], st, ks, h)
    ensures TurnOf(log, y, r, m, e, j, p, turn, st, ks)
  {
    var u := ReadReplayed(view, log, y, xy, e, j, p, w, m, rest);
    ReplayedContent(y.cfg, log, p, e, m, NextExpected(y.cfg, m));
    if u.nextIn <= e {
      r := ReadMore(view, log, y, xy, e, j, p, w, m, rest);
      turn, st, ks, h := Passed, Answered(e, j, r.nextIn), Reply(y.cfg, m.kind), [m];
    } else {
      r, ks := ReadLast(view, hb, log, y, xy, e, j, p, w, m, rest);
      turn, st, h := Closed, Level, [m] + log[e..j];
    }
  }

  /** A live message between the replayed ones. */
  lemma FileLive(view: Wire -> View, log: seq<Inbound>, y: State, xy: seq<Msg>, e: nat, j: nat, p: nat, w: Wire)
    returns (r: State, st: Stage)
    requires OkEnd(view, y) && LiveFrom(TermsOf(y), log, e + 1) && |log| < y.base + WINDOW
    requires Mid(view, y, TermsOf(y), log, y.base, e + 1, j + 1, p) && j < |log| && view(w) == Valid(log[j])
    requires xy != [] && Interleaves(xy[1..], Replay(log, p, e), log[j..][1..])
    ensures r == Process(view, y, w) && st == Answered(e, j + 1, p)
    ensures HasRead(view, log, y, r, xy[1..], st, [], [])
    ensures r.nextIn == p && r.phase == RecoveringResend && r.base == y.base
  {
    assert log[j..][1..] == log[j + 1..];
    r := ReadLive(view, log, y, e, j, p, w);
    st := Answered(e, j + 1, p);
  }

  /** One more message while the answer is on its way: a live one is filed, a replayed one is handled, and
      the last replayed one lets through what is cached. */
  lemma ReadAnswer(view: Wire -> View, printed: Msg -> Wire, hb: nat, log: seq<Inbound>, y: State, xy: seq<Msg>,
                   e: nat, j: nat, p: nat)
    returns (turn: Turn, r: State, st: Stage, ks: seq<Kind>, h: seq<Msg>)
    requires Incoming(view, log, y, xy, Answered(e, j, p)) && xy != [] && Prints(view, printed)
    requires LiveFrom(TermsOf(y), log, e + 1) && PlainFrom(hb, log, e + 1) && |log| < y.base + WINDOW
    ensures r == Process(view, y, printed(xy[0])) && HasRead(view, log, y, r, xy[1..], st, ks, h)
    ensures TurnOf(log, y, r, xy[0], e, j, p, turn, st, ks)
  {
    var w, xs := printed(xy[0]), Replay(log, p, e);
    if j < |log| && xy[0] == log[j] && Interleaves(xy[1..], xs, log[j..][1..]) {
      turn, ks, h := Filed, [], [];
      r, st := FileLive(view, log, y, xy, e, j, p, w);
    } else {
      ReplayIsInbound(log, p, e);
      var m, rest := FirstReplayed(view, log, y, xy, e, j, p, w);
      turn, r, st, ks, h := ReadReplay(view, hb, log, y, xy, e, j, p, w, m, rest);
    }
  }
}
