/** Both ends of a gap: one session misses messages, asks for them, and gets the other one's answer
    mixed with what goes on being sent. */
module GapRecovery {
  import opened Bytes
  import opened Protocol
  import opened SessionSpec
  import opened SessionRuns
  import opened OutboundLog
  import opened Draining
  import opened RecoveryPhase

  // ---- what arrives ----

  /** `zs` is an interleaving of `xs` and `ys`, each in its own order. */
  predicate Interleaves<T(==)>(zs: seq<T>, xs: seq<T>, ys: seq<T>) {
    if zs == [] then xs == [] && ys == []
    else
      || (xs != [] && zs[0] == xs[0] && Interleaves(zs[1..], xs[1..], ys))
      || (ys != [] && zs[0] == ys[0] && Interleaves(zs[1..], xs, ys[1..]))
  }

  lemma {:induction false} InterleavesNothing(zs: seq<Msg>, ys: seq<Msg>)
    requires Interleaves(zs, [], ys)
    ensures zs == ys
  {
    if zs != [] {
      InterleavesNothing(zs[1..], ys[1..]);
    }
  }

  /** The wires `ws` read as the messages `ms`. */
  ghost predicate Reads(view: Wire -> View, ws: seq<Wire>, ms: seq<Msg>) {
    |ws| == |ms| && forall i | 0 <= i < |ws| :: view(ws[i]).Valid? && view(ws[i]).msg == ms[i]
  }

  function Arrivals(ws: seq<Wire>): seq<Event> {
    seq(|ws|, i requires 0 <= i < |ws| => Receive(ws[i]))
  }

  lemma RunArrivals(view: Wire -> View, s: State, ws: seq<Wire>)
    requires s.Ok() && CacheReads(view, s)
    ensures ws == [] ==> Run(view, s, Arrivals(ws)) == s
    ensures ws != [] ==>
      Run(view, s, Arrivals(ws)) == Run(view, Process(view, s, ws[0]), Arrivals(ws[1..]))
  {
    if ws != [] {
      assert Arrivals(ws)[1..] == Arrivals(ws[1..]);
    }
  }

  // ---- nothing is asked for again, nobody logs out ----

  /** What was sent between `s` and `r` holds neither a logout nor a resend request. */
  predicate Quiet(s: State, r: State) {
    s.sent <= r.sent && !SaysLogout(Said(s, r)) && !SaysRequest(Said(s, r))
  }

  lemma QuietTransitive(s: State, t: State, r: State)
    requires Quiet(s, t) && Quiet(t, r)
    ensures Quiet(s, r)
  {
    SaidConcat(s, t, r);
    SaysConcat(Said(s, t), Said(t, r));
  }

  // ---- one message at a time ----

  /** While recovering: expecting `p` of a gap [e, k - 1], with the messages k, ..., j - 1 cached. */
  ghost predicate Mid(view: Wire -> View, s: State, t: Terms, history: seq<Inbound>, e: nat, k: nat, j: nat, p: nat) {
    && s.Ok() && s.phase == RecoveringResend && !s.stopped && s.base == e && s.nextIn == p && TermsOf(s) == t
    && 1 <= e <= p < k < j <= |history| + 1
    && (forall i | i in s.cache :: k <= i < j && view(s.cache[i]) == Valid(history[i - 1]))
    && (forall i | k <= i < j :: i in s.cache)
  }

  /** Caught up: everything below `n` handled, nothing cached. */
  predicate CaughtUp(s: State, t: Terms, n: nat) {
    s.Ok() && s.phase == Active && !s.stopped && s.cache == map[] && s.nextIn == n && TermsOf(s) == t
  }

  /** The history of a peer whose messages from k on are harmless to a session on these terms. What came
      before may be anything: it comes back as application messages and gap fills. */
  predicate LiveFrom(t: Terms, history: seq<Inbound>, k: nat) {
    Numbered(history) && forall i | 0 <= i < |history| && k <= i + 1 :: Harmless(t, history[i])
  }

  /** An early live message is cached. */
  lemma LiveIsCached(view: Wire -> View, s: State, t: Terms, history: seq<Inbound>,
                     e: nat, k: nat, j: nat, p: nat, w: Wire)
    requires LiveFrom(t, history, k) && |history| < e + WINDOW
    requires Mid(view, s, t, history, e, k, j, p) && CacheReads(view, s)
    requires j <= |history| && view(w) == Valid(history[j - 1])
    ensures
      var r := Process(view, s, w);
      && Mid(view, r, t, history, e, k, j + 1, p)
      && r.handled == s.handled && r.sent == s.sent
  {
    assert s.nextIn !in s.cache;
  }

  /** A replayed message that does not close the gap moves the expected number to the next one. */
  lemma ReplayMoves(view: Wire -> View, s: State, t: Terms, history: seq<Inbound>,
                    e: nat, k: nat, j: nat, p: nat, w: Wire, m: Inbound)
    returns (s1: State)
    requires LiveFrom(t, history, k)
    requires Mid(view, s, t, history, e, k, j, p) && CacheReads(view, s)
    requires view(w) == Valid(m) && m == Replay(history, p, k - 1)[0]
    ensures s1 == Received(view, s, w)
    ensures s1.phase == RecoveringResend && !s1.stopped && s1.base == e && s1.cache == s.cache && TermsOf(s1) == t
    ensures s1.nextIn == NextExpected(t.cfg, m)
    ensures p < s1.nextIn <= k && Replay(history, p, k - 1) == [m] + Replay(history, s1.nextIn, k - 1)
    ensures s1.handled == s.handled + [m] && Quiet(s, s1)
    ensures s1.nextIn < k ==> Process(view, s, w) == s1
    ensures s1.nextIn == k ==> Process(view, s, w) == Drain(view, s1)
  {
    s1 := Received(view, s, w);
    DispatchOutcome(s, m, w);
    if Admin(history[p - 1].kind) {
      assert NextExpected(t.cfg, m) == RunEnd(history, p, k - 1) + 1;
    } else {
      HarmlessMeans(t, m, s.phase);
    }
  }

  /** Draining what is cached of the history hands over exactly that. */
  lemma {:induction false} WalkOfHistory(view: Wire -> View, t: Terms, cache: map<nat, Wire>, history: seq<Inbound>,
                                         a: nat, b: nat, p: Phase)
    requires AllRead(view, cache) && Listening(p) && 1 <= a <= b <= |history| + 1
    requires forall i | i in cache :: a <= i < b && view(cache[i]) == Valid(history[i - 1])
    requires forall i | a <= i < b :: i in cache
    requires forall i | a - 1 <= i < b - 1 :: Harmless(t, history[i])
    ensures Walk(view, t, cache, a, p) == Drainage(history[a - 1..b - 1], map[], b)
    ensures !Offends(t, history[a - 1..b - 1]) && !HasLogout(history[a - 1..b - 1])
    decreases b - a
  {
    if a < b {
      var m, rest := history[a - 1], cache - {a};
      HarmlessMeans(t, m, p);
      WalkOfHistory(view, t, rest, history, a + 1, b, PhaseAfter(t, p, m));
      OffendsCons(t, m, history[a..b - 1]);
      assert history[a - 1..b - 1] == [m] + history[a..b - 1];
    } else {
      assert cache == map[];
    }
  }

  /** The replayed message that closes the gap lets everything cached through. */
  lemma ClosingDrains(view: Wire -> View, s1: State, t: Terms, history: seq<Inbound>, k: nat, j: nat)
    requires LiveFrom(t, history, k) && 1 <= k < j <= |history| + 1
    requires s1.Ok() && s1.phase == RecoveringResend && !s1.stopped && s1.nextIn == k && TermsOf(s1) == t
    requires CacheReads(view, s1)
    requires forall i | i in s1.cache :: k <= i < j && view(s1.cache[i]) == Valid(history[i - 1])
    requires forall i | k <= i < j :: i in s1.cache
    ensures
      var r := Drain(view, s1);
      && CaughtUp(r, t, j) && r.handled == s1.handled + history[k - 1..j - 1] && Quiet(s1, r)
  {
    assert k in s1.cache;
    WalkOfHistory(view, t, s1.cache, history, k, j, s1.phase);
    DrainWalks(view, s1);
  }

  /** A live message that is the expected one is handled at once. */
  lemma LiveMoves(view: Wire -> View, s: State, t: Terms, history: seq<Inbound>, k: nat, j: nat, w: Wire)
    requires LiveFrom(t, history, k) && 1 <= k <= j <= |history|
    requires CaughtUp(s, t, j) && CacheReads(view, s) && view(w) == Valid(history[j - 1])
    ensures
      var r := Process(view, s, w);
      && CaughtUp(r, t, j + 1) && r.handled == s.handled + [history[j - 1]] && Quiet(s, r)
  {
    var m := history[j - 1];
    DispatchOutcome(s, m, w);
    HarmlessMeans(t, m, s.phase);
  }

  // ---- whole runs ----

  /** From `s` to `r` exactly `h` was handled, and quietly; `r` is caught up with `n`. */
  predicate Converged(s: State, r: State, t: Terms, n: nat, h: seq<Msg>) {
    CaughtUp(r, t, n) && r.handled == s.handled + h && Quiet(s, r)
  }

  lemma ConvergedAfter(s: State, u: State, r: State, t: Terms, n: nat, h1: seq<Msg>, h2: seq<Msg>)
    requires u.handled == s.handled + h1 && Quiet(s, u) && Converged(u, r, t, n, h2)
    ensures Converged(s, r, t, n, h1 + h2)
  {
    QuietTransitive(s, u, r);
  }

  /** Once caught up, live messages are handled as they come. */
  lemma {:induction false} LiveIsHandled(view: Wire -> View, s: State, t: Terms, history: seq<Inbound>,
                                         k: nat, j: nat, ws: seq<Wire>)
    requires LiveFrom(t, history, k) && 1 <= k <= j <= |history| + 1
    requires CaughtUp(s, t, j) && CacheReads(view, s)
    requires Reads(view, ws, history[j - 1..])
    ensures Converged(s, Run(view, s, Arrivals(ws)), t, |history| + 1, history[j - 1..])
    decreases |ws|
  {
    RunArrivals(view, s, ws);
    if ws != [] {
      assert view(ws[0]).msg == history[j - 1..][0];
      LiveMoves(view, s, t, history, k, j, ws[0]);
      var s1 := Process(view, s, ws[0]);
      assert history[j - 1..][1..] == history[j..];
      LiveIsHandled(view, s1, t, history, k, j + 1, ws[1..]);
      ConvergedAfter(s, s1, Run(view, s, Arrivals(ws)), t, |history| + 1, [history[j - 1]], history[j..]);
      assert history[j - 1..] == [history[j - 1]] + history[j..];
    }
  }

  /** The message that closes the gap lets everything cached through. */
  lemma ReplayCloses(view: Wire -> View, s: State, u: State, t: Terms, history: seq<Inbound>,
                     k: nat, j: nat, m: Inbound)
    returns (r: State)
    requires LiveFrom(t, history, k) && 1 <= k < j <= |history| + 1
    requires u.Ok() && u.phase == RecoveringResend && !u.stopped && u.nextIn == k && TermsOf(u) == t
    requires CacheReads(view, u)
    requires forall i | i in u.cache :: k <= i < j && view(u.cache[i]) == Valid(history[i - 1])
    requires forall i | k <= i < j :: i in u.cache
    requires u.handled == s.handled + [m] && Quiet(s, u)
    ensures r == Drain(view, u)
    ensures CaughtUp(r, t, j) && r.handled == s.handled + ([m] + history[k - 1..j - 1]) && Quiet(s, r)
  {
    r := Drain(view, u);
    ClosingDrains(view, u, t, history, k, j);
    ConcatAssociates(s.handled, [m], history[k - 1..j - 1]);
    QuietTransitive(s, u, r);
  }

  lemma ConcatAssociates(a: seq<Msg>, b: seq<Msg>, c: seq<Msg>)
    ensures a + (b + c) == (a + b) + c
  {
  }

  /** `r` is where one arrival of `zs` leads from `s`, having let `h` through. Either the gap stays open,
      expecting p' with j' the next live number, or it is closed (p' == k). */
  ghost predicate Arrived(view: Wire -> View, s: State, r: State, t: Terms, history: seq<Inbound>,
                          e: nat, k: nat, p: nat, zs: seq<Msg>, j': nat, p': nat, h: seq<Msg>)
    requires zs != [] && 1 <= p < k <= |history|
  {
    && 1 <= p' <= k < j' <= |history| + 1
    && r.handled == s.handled + h && Quiet(s, r)
    && if p' < k then
         && Mid(view, r, t, history, e, k, j', p')
         && Interleaves(zs[1..], Replay(history, p', k - 1), history[j' - 1..])
         && h + (Replay(history, p', k - 1) + history[k - 1..]) == Replay(history, p, k - 1) + history[k - 1..]
       else
         && CaughtUp(r, t, j')
         && zs[1..] == history[j' - 1..]
         && h + history[j' - 1..] == Replay(history, p, k - 1) + history[k - 1..]
  }

  lemma OneReplayed(view: Wire -> View, s: State, t: Terms, history: seq<Inbound>,
                    e: nat, k: nat, j: nat, p: nat, w: Wire, zs: seq<Msg>)
    returns (p': nat, h: seq<Msg>)
    requires LiveFrom(t, history, k) && |history| < e + WINDOW
    requires Mid(view, s, t, history, e, k, j, p) && CacheReads(view, s)
    requires zs != [] && view(w).Valid? && view(w).msg == zs[0]
    requires
      var xs := Replay(history, p, k - 1);
      xs != [] && zs[0] == xs[0] && Interleaves(zs[1..], xs[1..], history[j - 1..])
    ensures Arrived(view, s, Process(view, s, w), t, history, e, k, p, zs, j, p', h)
  {
    var xs, ys, m := Replay(history, p, k - 1), history[j - 1..], view(w).msg;
    var u := ReplayMoves(view, s, t, history, e, k, j, p, w, m);
    p' := u.nextIn;
    assert xs[1..] == Replay(history, p', k - 1);
    if p' < k {
      h := [m];
      ConcatAssociates([m], xs[1..], history[k - 1..]);
    } else {
      assert xs[1..] == [];
      h := [m] + history[k - 1..j - 1];
      var r := ReplayCloses(view, s, u, t, history, k, j, m);
      assert zs[1..] == ys by { InterleavesNothing(zs[1..], ys); }
      assert h + ys == xs + history[k - 1..] by {
        assert history[k - 1..j - 1] + ys == history[k - 1..];
        ConcatAssociates([m], history[k - 1..j - 1], ys);
      }
    }
  }

  lemma OneArrival(view: Wire -> View, s: State, t: Terms, history: seq<Inbound>,
                   e: nat, k: nat, j: nat, p: nat, w: Wire, zs: seq<Msg>)
    returns (j': nat, p': nat, h: seq<Msg>)
    requires LiveFrom(t, history, k) && |history| < e + WINDOW
    requires Mid(view, s, t, history, e, k, j, p) && CacheReads(view, s)
    requires Interleaves(zs, Replay(history, p, k - 1), history[j - 1..])
    requires zs != [] && view(w).Valid? && view(w).msg == zs[0]
    ensures Arrived(view, s, Process(view, s, w), t, history, e, k, p, zs, j', p', h)
  {
    var xs, ys := Replay(history, p, k - 1), history[j - 1..];
    if ys != [] && zs[0] == ys[0] && Interleaves(zs[1..], xs, ys[1..]) {
      LiveIsCached(view, s, t, history, e, k, j, p, w);
      j', p', h := j + 1, p, [];
      assert ys[1..] == history[j..];
      ConcatAssociates([], xs, history[k - 1..]);
    } else {
      j' := j;
      p', h := OneReplayed(view, s, t, history, e, k, j, p, w, zs);
    }
  }

  /** From the middle of a recovery, every interleaving of the rest of the replay with the rest of the
      live messages ends caught up, with everything handled in order. */
  lemma {:induction false} RestConverges(view: Wire -> View, s: State, t: Terms, history: seq<Inbound>,
                                         e: nat, k: nat, j: nat, p: nat, ws: seq<Wire>, zs: seq<Msg>)
    requires LiveFrom(t, history, k) && |history| < e + WINDOW
    requires Mid(view, s, t, history, e, k, j, p) && CacheReads(view, s)
    requires Reads(view, ws, zs) && Interleaves(zs, Replay(history, p, k - 1), history[j - 1..])
    ensures Converged(s, Run(view, s, Arrivals(ws)), t, |history| + 1, Replay(history, p, k - 1) + history[k - 1..])
    decreases |ws|
  {
    assert zs != [] by { assert Replay(history, p, k - 1) != []; }
    var j', p', h := OneArrival(view, s, t, history, e, k, j, p, ws[0], zs);
    RunArrivals(view, s, ws);
    var s1 := Process(view, s, ws[0]);
    var r := Run(view, s1, Arrivals(ws[1..]));
    assert Reads(view, ws[1..], zs[1..]);
    if p' < k {
      RestConverges(view, s1, t, history, e, k, j', p', ws[1..], zs[1..]);
      ConvergedAfter(s, s1, r, t, |history| + 1, h, Replay(history, p', k - 1) + history[k - 1..]);
    } else {
      LiveIsHandled(view, s1, t, history, k, j', ws[1..]);
      ConvergedAfter(s, s1, r, t, |history| + 1, h, history[j' - 1..]);
    }
  }

  // ---- both ends ----

  /** The request a session sends when it expects `e` and sees `k`. */
  function Request(s: State, k: nat): Msg
    requires s.nextIn < k
  {
    Msg(s.nextOut, ResendRequest(s.nextIn, k - 1), false)
  }

  /** A session that is not recovering opens a gap for message `m`: an active one for any message, one that
      is not logged on for an admin message, such as the Logon of a peer after a reconnect. */
  predicate OpensGap(s: State, m: Msg) {
    && s.Ok() && !s.stopped && s.phase != RecoveringResend
    && (s.phase == Active || Admin(m.kind)) && m.num > s.nextIn
  }

  /** `s`, which has not asked for logout, has missed what comes before message k of a history that fits its
      window; from k on the history is harmless to it. */
  ghost predicate Behind(view: Wire -> View, s: State, history: seq<Inbound>, k: nat) {
    && CacheReads(view, s) && 1 <= s.nextIn < k <= |history| && |history| < s.nextIn + WINDOW
    && OpensGap(s, history[k - 1]) && s.phase != AwaitingLogout && LiveFrom(TermsOf(s), history, k)
  }

  /** The first early message, in whatever phase. */
  lemma GapOpens(view: Wire -> View, s: State, history: seq<Inbound>, k: nat, w: Wire)
    requires CacheReads(view, s) && Numbered(history) && 1 <= s.nextIn && k < s.nextIn + WINDOW
    requires 1 <= k <= |history| && OpensGap(s, history[k - 1]) && view(w) == Valid(history[k - 1])
    ensures
      var r := Process(view, s, w);
      && Mid(view, r, TermsOf(s), history, s.nextIn, k, k + 1, s.nextIn)
      && r.sent == s.sent + [Request(s, k)] && r.handled == s.handled
  {
    var r := Received(view, s, w);
    assert k in r.cache && r.nextIn !in r.cache;
  }

  /** A peer whose log is aligned answers with the replay of the requested range, in whatever phase. */
  lemma PeerAnswers(q: State, history: seq<Inbound>, e: nat, k: nat, num: nat, dup: bool, w: Wire)
    requires q.Ok() && !q.stopped && Aligned(q) && num == q.nextIn
    requires 1 <= e < k <= |q.store| <= |history| && q.store == history[..|q.store|]
    ensures Dispatch(q, Valid(Msg(num, ResendRequest(e, k - 1), dup)), w).sent
            == q.sent + Replay(history, e, k - 1)
  {
    assert ClampEnd(q, k - 1) == k - 1;
    ReplayOfPrefix(history, |q.store|, e, k - 1);
  }

  /** Request first, nothing else to complain about afterwards. */
  predicate AskedOnce(s: State, r: State, k: nat)
    requires s.nextIn < k
  {
    && s.sent + [Request(s, k)] <= r.sent
    && !SaysLogout(r.sent[|s.sent| + 1..]) && !SaysRequest(r.sent[|s.sent| + 1..])
  }

  lemma AskedThenQuiet(s: State, s1: State, r: State, k: nat)
    requires s.nextIn < k && s1.sent == s.sent + [Request(s, k)] && Quiet(s1, r)
    ensures AskedOnce(s, r, k)
  {
    assert Said(s1, r) == r.sent[|s.sent| + 1..];
  }

  /** The answer and the live messages after it bring the session up to date. */
  lemma AnswerConverges(view: Wire -> View, s: State, history: seq<Inbound>,
                        k: nat, wk: Wire, ws: seq<Wire>, zs: seq<Msg>)
    requires Behind(view, s, history, k)
    requires view(wk) == Valid(history[k - 1])
    requires Reads(view, ws, zs) && Interleaves(zs, Replay(history, s.nextIn, k - 1), history[k..])
    ensures
      var r := Run(view, s, Arrivals([wk] + ws));
      && CaughtUp(r, TermsOf(s), |history| + 1)
      && r.handled == s.handled + (Replay(history, s.nextIn, k - 1) + history[k - 1..])
      && AskedOnce(s, r, k)
  {
    var e, s1 := s.nextIn, Process(view, s, wk);
    GapOpens(view, s, history, k, wk);
    assert Run(view, s, Arrivals([wk] + ws)) == Run(view, s1, Arrivals(ws)) by {
      RunArrivals(view, s, [wk] + ws);
      assert ([wk] + ws)[1..] == ws;
    }
    RestConverges(view, s1, TermsOf(s), history, e, k, k + 1, e, ws, zs);
    AskedThenQuiet(s, s1, Run(view, s1, Arrivals(ws)), k);
  }

  /** The answer and the live messages carry the application messages of the history from `e` on. */
  lemma AnswerKeepsAppContent(history: seq<Msg>, e: nat, k: nat)
    requires 1 <= e < k <= |history|
    ensures AppContent(Replay(history, e, k - 1) + history[k - 1..]) == AppContent(history[e - 1..])
  {
    ReplayKeepsAppContent(history, e, k - 1);
    AppContentConcat(Replay(history, e, k - 1), history[k - 1..]);
    AppContentConcat(history[e - 1..k - 1], history[k - 1..]);
    assert history[e - 1..] == history[e - 1..k - 1] + history[k - 1..];
  }

  /** Gap recovery converges. A receiver `s` expecting e, logged on or not, sees message k of the peer `q`
      first; after a reconnect that is the peer's Logon. It asks for [e, k - 1]. Whatever interleaving `zs`
      of the peer's answer with the messages after k arrives next, in the window, the receiver ends active
      with nothing cached and everything handled: the replay, then the live messages, and so the application
      messages of the peer's history each once and in order. It neither asks again nor logs out. */
  lemma GapRecoveryConverges(view: Wire -> View, s: State, q: State, history: seq<Inbound>,
                             k: nat, wk: Wire, wreq: Wire, ws: seq<Wire>, zs: seq<Msg>)
    requires Behind(view, s, history, k)
    requires q.Ok() && !q.stopped && Aligned(q) && q.nextIn == s.nextOut
    requires k <= |q.store| <= |history| && q.store == history[..|q.store|]
    requires view(wk) == Valid(history[k - 1])
    requires
      var answer := Dispatch(q, Valid(Request(s, k)), wreq).sent[|q.sent|..];
      Reads(view, ws, zs) && Interleaves(zs, answer, history[k..])
    ensures
      var r := Run(view, s, Arrivals([wk] + ws));
      var answer := Dispatch(q, Valid(Request(s, k)), wreq).sent[|q.sent|..];
      && r.phase == Active && !r.stopped && r.cache == map[] && r.nextIn == |history| + 1
      && r.handled == s.handled + (answer + history[k - 1..])
      && AppContent(answer + history[k - 1..]) == AppContent(history[s.nextIn - 1..])
      && AskedOnce(s, r, k)
  {
    var e := s.nextIn;
    PeerAnswers(q, history, e, k, q.nextIn, false, wreq);
    AnswerConverges(view, s, history, k, wk, ws, zs);
    AnswerKeepsAppContent(history, e, k);
  }

  /** After a reconnect: whatever state the connection was lost in, recovering or stuck included, the session
      is behind as soon as the peer's accepted Logon is early. */
  lemma ReconnectIsBehind(view: Wire -> View, s: State, history: seq<Inbound>, k: nat)
    requires s.Ok() && !s.stopped && 1 <= s.nextIn < k <= |history| && |history| < s.nextIn + WINDOW
    requires LiveFrom(TermsOf(s), history, k) && history[k - 1].kind.Logon?
    ensures Behind(view, Reconnect(s), history, k) && TermsOf(Reconnect(s)) == TermsOf(s)
    ensures Reconnect(s).nextIn == s.nextIn && Reconnect(s).handled == s.handled
  {
    var r := Reconnect(s);
    assert r.cache == map[] && Admin(history[k - 1].kind);
  }

  /** A peer is answered with the replay of the requested range exactly if its request is the message that is
      expected: a request that is early itself is filed, or asked about, and not answered. */
  lemma PeerAnswersExactly(q: State, e: nat, k: nat, num: nat, dup: bool, w: Wire)
    requires q.Ok() && !q.stopped && Aligned(q) && q.nextIn <= num && 1 <= e < k <= |q.store|
    ensures
      var r := Dispatch(q, Valid(Msg(num, ResendRequest(e, k - 1), dup)), w);
      r.sent == q.sent + Replay(q.store, e, k - 1) <==> num == q.nextIn
  {
    var r, answer := Dispatch(q, Valid(Msg(num, ResendRequest(e, k - 1), dup)), w), Replay(q.store, e, k - 1);
    assert ClampEnd(q, k - 1) == k - 1;
    if num > q.nextIn {
      assert r.sent == q.sent
        || (|r.sent| == |q.sent| + 1
            && (r.sent[|q.sent|].kind.Logout? || r.sent[|q.sent|].kind.ResendRequest?));
      ReplayIsQuiet(q.store, e, k - 1);
      assert answer != [] && (q.sent + answer)[|q.sent|] == answer[0];
      assert !answer[0].kind.Logout? && !answer[0].kind.ResendRequest?;
    }
  }

  lemma RunReconnected(view: Wire -> View, s: State, es: seq<Event>)
    requires s.Ok() && CacheReads(view, s)
    ensures Run(view, s, [Reconnected] + es) == Run(view, Reconnect(s), es)
  {
    assert ([Reconnected] + es)[1..] == es;
  }

  /** Reconnected to a peer that has missed nothing itself, with the peer's early Logon first, the session gets
      what it missed out of the peer's answer, and ends active and up to date. */
  lemma ReconnectRecovers(view: Wire -> View, s: State, q: State, history: seq<Inbound>,
                          k: nat, wk: Wire, wreq: Wire, ws: seq<Wire>, zs: seq<Msg>)
    requires s.Ok() && CacheReads(view, s) && !s.stopped
    requires 1 <= s.nextIn < k <= |history| && |history| < s.nextIn + WINDOW
    requires LiveFrom(TermsOf(s), history, k) && history[k - 1].kind.Logon?
    requires q.Ok() && !q.stopped && Aligned(q) && q.nextIn == Reconnect(s).nextOut
    requires k <= |q.store| <= |history| && q.store == history[..|q.store|]
    requires view(wk) == Valid(history[k - 1])
    requires
      var answer := Dispatch(q, Valid(Request(Reconnect(s), k)), wreq).sent[|q.sent|..];
      Reads(view, ws, zs) && Interleaves(zs, answer, history[k..])
    ensures
      var r := Run(view, s, [Reconnected] + Arrivals([wk] + ws));
      && CaughtUp(r, TermsOf(s), |history| + 1)
      && r.handled == s.handled + (Replay(history, s.nextIn, k - 1) + history[k - 1..])
      && AppContent(r.handled[|s.handled|..]) == AppContent(history[s.nextIn - 1..])
      && AskedOnce(Reconnect(s), r, k)
  {
    var u, es := Reconnect(s), Arrivals([wk] + ws);
    ReconnectIsBehind(view, s, history, k);
    RunReconnected(view, s, es);
    PeerAnswers(q, history, u.nextIn, k, q.nextIn, false, wreq);
    AnswerConverges(view, u, history, k, wk, ws, zs);
    AnswerKeepsAppContent(history, s.nextIn, k);
    assert Run(view, u, es).handled[|s.handled|..] == Replay(history, s.nextIn, k - 1) + history[k - 1..];
  }
}
