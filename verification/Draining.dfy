/** What draining the recovery cache does, whatever is cached: which messages are handled, what is left
    behind, and how the session stands afterwards. */
module Draining {
  import opened Bytes
  import opened Protocol
  import opened SessionSpec
  import opened SessionRuns

  // ---- what a handled message does to the session ----

  /** What a session holds a Logon against: its configuration, and the interval an initiator insists on. */
  datatype Terms = Terms(cfg: Config, interval: Option<nat>)

  function TermsOf(s: State): Terms {
    Terms(s.cfg, if s.cfg.role.Initiator? then Some(s.heartBeatInt) else None)
  }

  /** A Logon that is answered by a Logout. */
  predicate Refused(t: Terms, m: Msg) {
    && m.kind.Logon?
    && (|| (t.interval.Some? && m.kind.heartBtInt != t.interval.value)
        || m.kind.heartBtInt < 10 || m.kind.heartBtInt > 120
        || (m.kind.resetSeqNum
            && !(if t.cfg.role.Acceptor? then t.cfg.acceptorResetOnLogon else t.cfg.initiatorResetOnLogon)))
  }

  /** A reset, not a gap fill, to a number that was already expected. */
  predicate LowReset(m: Msg) {
    m.kind.SequenceReset? && !m.kind.gapFill && m.kind.newSeqNo <= m.num
  }

  /** Messages whose handlers stop the session or ask for logout. */
  predicate EndsSession(t: Terms, m: Msg) {
    m.kind.Logout? || Refused(t, m) || LowReset(m)
  }

  /** The phase a handler leaves behind. */
  function PhaseAfter(t: Terms, p: Phase, m: Msg): Phase {
    if m.kind.Logout? then Disconnected
    else if EndsSession(t, m) then AwaitingLogout
    else if m.kind.Logon? then Active
    else p
  }

  // ---- what is said ----

  predicate SaysLogout(ms: seq<Msg>) {
    exists i | 0 <= i < |ms| :: ms[i].kind.Logout?
  }

  predicate SaysRequest(ms: seq<Msg>) {
    exists i | 0 <= i < |ms| :: ms[i].kind.ResendRequest?
  }

  lemma SaysConcat(a: seq<Msg>, b: seq<Msg>)
    ensures SaysLogout(a + b) <==> SaysLogout(a) || SaysLogout(b)
    ensures SaysRequest(a + b) <==> SaysRequest(a) || SaysRequest(b)
  {
    forall i | 0 <= i < |b| ensures b[i] == (a + b)[|a| + i] {
    }
    forall i | 0 <= i < |a| ensures a[i] == (a + b)[i] {
    }
  }

  /** What was sent between `s` and `r`. */
  function Said(s: State, r: State): seq<Msg>
    requires s.sent <= r.sent
  {
    r.sent[|s.sent|..]
  }

  lemma SaidConcat(s: State, t: State, r: State)
    requires s.sent <= t.sent <= r.sent
    ensures s.sent <= r.sent && Said(s, r) == Said(s, t) + Said(t, r)
  {
  }

  lemma {:induction false} ReplayIsQuiet(store: seq<Msg>, b: SeqNo, e: nat)
    requires e <= |store|
    ensures !SaysLogout(Replay(store, b, e)) && !SaysRequest(Replay(store, b, e))
    decreases e + 1 - b
  {
    if b <= e {
      var r := if Admin(store[b - 1].kind) then RunEnd(store, b, e) else b;
      ReplayIsQuiet(store, r + 1, e);
      SaysConcat([Replay(store, b, e)[0]], Replay(store, r + 1, e));
      assert Replay(store, b, e) == [Replay(store, b, e)[0]] + Replay(store, r + 1, e);
    }
  }

  // ---- one handled message ----

  /** `r` is `s` after the handler of the expected message `m`. */
  ghost predicate Outcome(s: State, r: State, m: Msg) {
    && TermsOf(r) == TermsOf(s) && r.cache == s.cache && r.base == s.base
    && r.phase == PhaseAfter(TermsOf(s), s.phase, m)
    && (r.stopped <==> m.kind.Logout?)
    && r.nextIn == NextExpected(s.cfg, m) && r.handled == s.handled + [m]
    && s.sent <= r.sent && !SaysRequest(Said(s, r))
    && (SaysLogout(Said(s, r)) <==>
        EndsSession(TermsOf(s), m) && !(m.kind.Logout? && s.phase == AwaitingLogout))
  }

  predicate Expected(s: State, m: Msg) {
    s.Ok() && !s.stopped && m.num == s.nextIn && (Listening(s.phase) || Admin(m.kind))
  }

  lemma SaidOne(s: State, r: State, m: Msg)
    requires r.sent == s.sent + [m]
    ensures Said(s, r) == [m]
    ensures SaysLogout(Said(s, r)) <==> m.kind.Logout?
    ensures SaysRequest(Said(s, r)) <==> m.kind.ResendRequest?
  {
    assert [m][0] == m;
  }

  lemma LogonOutcome(s: State, m: Inbound, w: Wire)
    requires Expected(s, m) && m.kind.Logon?
    ensures Outcome(s, Dispatch(s, Valid(m), w), m)
  {
    var r := Dispatch(s, Valid(m), w);
    if r.sent != s.sent {
      SaidOne(s, r, r.sent[|s.sent|]);
    }
  }

  lemma LogoutOutcome(s: State, m: Inbound, w: Wire)
    requires Expected(s, m) && m.kind.Logout?
    ensures Outcome(s, Dispatch(s, Valid(m), w), m)
  {
    var r := Dispatch(s, Valid(m), w);
    if r.sent != s.sent {
      SaidOne(s, r, r.sent[|s.sent|]);
    }
  }

  lemma ResetOutcome(s: State, m: Inbound, w: Wire)
    requires Expected(s, m) && m.kind.SequenceReset?
    ensures Outcome(s, Dispatch(s, Valid(m), w), m)
  {
    var r := Dispatch(s, Valid(m), w);
    if r.sent != s.sent {
      SaidOne(s, r, r.sent[|s.sent|]);
    }
  }

  lemma RequestOutcome(s: State, m: Inbound, w: Wire)
    requires Expected(s, m) && m.kind.ResendRequest?
    ensures Outcome(s, Dispatch(s, Valid(m), w), m)
  {
    var r := Dispatch(s, Valid(m), w);
    var s1 := s.(nextIn := m.num + 1, handled := s.handled + [m]);
    var answer := Replay(s.store, m.kind.beginSeqNo, ClampEnd(s1, m.kind.endSeqNo));
    ReplayIsQuiet(s.store, m.kind.beginSeqNo, ClampEnd(s1, m.kind.endSeqNo));
    assert r.sent == s.sent + answer;
    assert Said(s, r) == answer;
  }

  lemma OtherOutcome(s: State, m: Inbound, w: Wire)
    requires Expected(s, m)
    requires !m.kind.Logon? && !m.kind.Logout? && !m.kind.SequenceReset? && !m.kind.ResendRequest?
    ensures Outcome(s, Dispatch(s, Valid(m), w), m)
  {
    var r := Dispatch(s, Valid(m), w);
    if r.sent != s.sent {
      SaidOne(s, r, r.sent[|s.sent|]);
    }
  }

  /** What dispatching the expected message does, whatever kind it is. */
  lemma DispatchOutcome(s: State, m: Inbound, w: Wire)
    requires Expected(s, m)
    ensures Outcome(s, Dispatch(s, Valid(m), w), m)
  {
    match m.kind
    case Logon(_, _) => LogonOutcome(s, m, w);
    case Logout => LogoutOutcome(s, m, w);
    case SequenceReset(_, _) => ResetOutcome(s, m, w);
    case ResendRequest(_, _) => RequestOutcome(s, m, w);
    case _ => OtherOutcome(s, m, w);
  }

  // ---- the walk through the cache ----

  /** What draining hands to the handlers, what it leaves in the cache, and the number it stops at. */
  datatype Drainage = Drainage(handled: seq<Msg>, left: map<nat, Wire>, next: nat)

  ghost predicate AllRead(view: Wire -> View, cache: map<nat, Wire>) {
    forall k | k in cache :: view(cache[k]).Valid? && view(cache[k]).msg.num == k
  }

  /** From the expected number on, as long as it is cached. Once a handler has asked for logout an
      application message ends the walk, and so does a Logout; both are gone from the cache, and behind a
      Logout the next number too. */
  ghost function Walk(view: Wire -> View, t: Terms, cache: map<nat, Wire>, n: nat, p: Phase): (d: Drainage)
    requires AllRead(view, cache)
    ensures d.next !in d.left && forall k | k in d.left :: k in cache && d.left[k] == cache[k]
    decreases |cache|
  {
    if n !in cache then Drainage([], cache, n)
    else
      var m, rest := view(cache[n]).msg, cache - {n};
      if !Listening(p) && !Admin(m.kind) then Drainage([], rest, n)
      else if m.kind.Logout? then Drainage([m], rest - {n + 1}, n + 1)
      else
        var d := Walk(view, t, rest, NextExpected(t.cfg, m), PhaseAfter(t, p, m));
        d.(handled := [m] + d.handled)
  }

  /** The walk from a session on. */
  ghost function Drained(view: Wire -> View, s: State): Drainage
    requires CacheReads(view, s)
  {
    Walk(view, TermsOf(s), s.cache, s.nextIn, s.phase)
  }

  /** The phase that the handlers of `h` leave behind. */
  function Settled(t: Terms, p: Phase, h: seq<Msg>): Phase
    decreases |h|
  {
    if h == [] then p else Settled(t, PhaseAfter(t, p, h[0]), h[1..])
  }

  predicate HasLogout(h: seq<Msg>) {
    exists i | 0 <= i < |h| :: h[i].kind.Logout?
  }

  predicate Offends(t: Terms, h: seq<Msg>) {
    exists i | 0 <= i < |h| :: EndsSession(t, h[i])
  }

  lemma OffendsCons(t: Terms, m: Msg, h: seq<Msg>)
    ensures Offends(t, [m] + h) <==> EndsSession(t, m) || Offends(t, h)
    ensures HasLogout([m] + h) <==> m.kind.Logout? || HasLogout(h)
  {
    assert ([m] + h)[0] == m;
    forall i | 0 <= i < |h| ensures h[i] == ([m] + h)[i + 1] {
    }
  }

  /** One turn of the drain loop. */
  function DrainOne(view: Wire -> View, s: State): State
    requires s.Ok() && CacheReads(view, s) && s.nextIn in s.cache
  {
    var s1 := Dispatch(s, view(s.cache[s.nextIn]), s.cache[s.nextIn]);
    s1.(cache := s1.cache - {s.nextIn})
  }

  lemma DrainLoopStep(view: Wire -> View, s: State)
    requires s.Ok() && CacheReads(view, s) && s.nextIn in s.cache
    ensures DrainOne(view, s).Ok() && CacheReads(view, DrainOne(view, s))
    ensures DrainLoop(view, s) == DrainLoop(view, DrainOne(view, s))
  {
  }

  /** `r` is where the walk `d` leads from `s`. Whatever phase the handlers have left behind, it is Active
      if nothing is left in the cache. */
  ghost predicate Leads(s: State, d: Drainage, r: State) {
    && r.cache == d.left && r.nextIn == d.next && r.handled == s.handled + d.handled
    && r.base == s.base && TermsOf(r) == TermsOf(s)
    && r.phase == (if d.left == map[] then Active else Settled(TermsOf(s), s.phase, d.handled))
    && (r.stopped <==> HasLogout(d.handled))
    && s.sent <= r.sent && !SaysRequest(Said(s, r))
    && (s.phase == AwaitingLogout || (SaysLogout(Said(s, r)) <==> Offends(TermsOf(s), d.handled)))
  }

  predicate CanDrain(s: State) {
    s.Ok() && !s.stopped && (Listening(s.phase) || s.phase == AwaitingLogout)
  }

  /** The expected number is not cached: nothing happens. */
  lemma WalkEnds(view: Wire -> View, s: State)
    requires CanDrain(s) && CacheReads(view, s) && s.nextIn !in s.cache
    ensures Leads(s, Drained(view, s), DrainLoop(view, s))
  {
    assert Said(s, DrainLoop(view, s)) == [];
  }

  /** After logout was asked for, an application message ends the walk. */
  lemma WalkShut(view: Wire -> View, s: State)
    requires CanDrain(s) && CacheReads(view, s) && s.nextIn in s.cache
    requires !Listening(s.phase) && !Admin(view(s.cache[s.nextIn]).msg.kind)
    ensures Leads(s, Drained(view, s), DrainLoop(view, s))
  {
    var t := DrainOne(view, s);
    DrainLoopStep(view, s);
    assert DrainLoop(view, t) == if t.cache == map[] then t.(phase := Active) else t;
    SaidOne(s, t, t.sent[|s.sent|]);
  }

  /** A Logout ends the walk; the number behind it is lost. */
  lemma WalkLogout(view: Wire -> View, s: State)
    requires CanDrain(s) && CacheReads(view, s) && s.nextIn in s.cache
    requires view(s.cache[s.nextIn]).msg.kind.Logout?
    ensures Leads(s, Drained(view, s), DrainLoop(view, s))
  {
    var m := view(s.cache[s.nextIn]).msg;
    var t := DrainOne(view, s);
    DrainLoopStep(view, s);
    DispatchOutcome(s, m, s.cache[s.nextIn]);
    assert t.stopped && t.nextIn == s.nextIn + 1;
    OffendsCons(TermsOf(s), m, []);
    assert [m] + [] == [m];
    if t.nextIn in t.cache {
      var u := DrainOne(view, t);
      DrainLoopStep(view, t);
      assert u.sent == t.sent && u.nextIn !in u.cache;
    } else {
      assert t.cache - {t.nextIn} == t.cache;
    }
  }

  /** A handled message, and the walk that follows. */
  lemma WalkOn(s: State, t1: State, t: State, m: Msg, r: State, d: Drainage)
    requires CanDrain(s) && Outcome(s, t1, m) && !m.kind.Logout? && t == t1.(cache := t.cache)
    requires Leads(t, d, r)
    ensures Leads(s, d.(handled := [m] + d.handled), r)
  {
    var h := [m] + d.handled;
    assert h[0] == m && h[1..] == d.handled;
    OffendsCons(TermsOf(s), m, d.handled);
    SaidConcat(s, t, r);
    SaysConcat(Said(s, t), Said(t, r));
    assert s.handled + h == t.handled + d.handled;
  }

  /** Draining is the walk through the cache. */
  lemma {:induction false} DrainWalks(view: Wire -> View, s: State)
    requires CanDrain(s) && CacheReads(view, s)
    ensures Leads(s, Drained(view, s), DrainLoop(view, s))
    decreases |s.cache|
  {
    var n := s.nextIn;
    if n !in s.cache {
      WalkEnds(view, s);
    } else {
      var m := view(s.cache[n]).msg;
      if !Listening(s.phase) && !Admin(m.kind) {
        WalkShut(view, s);
      } else if m.kind.Logout? {
        WalkLogout(view, s);
      } else {
        var t1, t := Dispatch(s, Valid(m), s.cache[n]), DrainOne(view, s);
        DispatchOutcome(s, m, s.cache[n]);
        DrainLoopStep(view, s);
        DrainWalks(view, t);
        WalkOn(s, t1, t, m, DrainLoop(view, t), Drained(view, t));
      }
    }
  }

  // ---- messages that only take their turn ----

  /** Messages that neither end the session nor set sequence numbers: application messages, heartbeats,
      requests, and Logons that are accepted and reset nothing. */
  predicate Harmless(t: Terms, m: Msg) {
    !EndsSession(t, m) && !m.kind.SequenceReset? && !ResettingLogon(t.cfg, m)
  }

  lemma HarmlessMeans(t: Terms, m: Msg, p: Phase)
    requires Harmless(t, m)
    ensures NextExpected(t.cfg, m) == m.num + 1 && !m.kind.Logout?
    ensures Listening(p) ==> Listening(PhaseAfter(t, p, m))
  {
  }

  ghost predicate IsCached(view: Wire -> View, cache: map<nat, Wire>, m: Msg)
    requires AllRead(view, cache)
  {
    m.num in cache && view(cache[m.num]).msg == m
  }

  /** Of harmless messages the walk takes the maximal run of consecutive numbers, in order, and leaves the
      others. */
  lemma {:induction false} WalkIsRun(view: Wire -> View, t: Terms, cache: map<nat, Wire>, n: nat, p: Phase)
    requires AllRead(view, cache) && Listening(p)
    requires forall k | k in cache :: Harmless(t, view(cache[k]).msg)
    ensures
      var d := Walk(view, t, cache, n, p);
      && n <= d.next && |d.handled| == d.next - n && d.next !in cache
      && (forall i | 0 <= i < |d.handled| :: d.handled[i].num == n + i && IsCached(view, cache, d.handled[i]))
      && (forall k | k in cache :: k in d.left <==> k < n || k >= d.next)
      && !Offends(t, d.handled)
    decreases |cache|
  {
    if n in cache {
      var m, rest := view(cache[n]).msg, cache - {n};
      HarmlessMeans(t, m, p);
      WalkIsRun(view, t, rest, n + 1, PhaseAfter(t, p, m));
      var d := Walk(view, t, rest, n + 1, PhaseAfter(t, p, m));
      OffendsCons(t, m, d.handled);
      var h := [m] + d.handled;
      forall i | 0 <= i < |h| ensures h[i].num == n + i && IsCached(view, cache, h[i]) {
        if i > 0 {
          assert h[i] == d.handled[i - 1] && IsCached(view, rest, d.handled[i - 1]);
        }
      }
    }
  }

  // ---- a phase that is not what the handlers left ----

  /** A session that calls itself active after it was stopped or has asked for logout. */
  predicate FalselyActive(s: State, r: State)
    requires s.sent <= r.sent
  {
    r.phase == Active && (r.stopped || SaysLogout(Said(s, r)))
  }

  /** The last message of `h` that decides about the phase is an accepted Logon. */
  predicate BackByLogon(t: Terms, h: seq<Msg>) {
    h != [] && var m := h[|h| - 1];
      (m.kind.Logon? && !Refused(t, m)) || (!m.kind.Logon? && !EndsSession(t, m) && BackByLogon(t, h[..|h| - 1]))
  }

  lemma {:induction false} SettledSnoc(t: Terms, p: Phase, h: seq<Msg>, m: Msg)
    ensures Settled(t, p, h + [m]) == PhaseAfter(t, Settled(t, p, h), m)
    decreases |h|
  {
    if h == [] {
      assert [m][1..] == [] && h + [m] == [m];
    } else {
      assert (h + [m])[1..] == h[1..] + [m];
      SettledSnoc(t, PhaseAfter(t, p, h[0]), h[1..], m);
    }
  }

  lemma {:induction false} SettledActive(t: Terms, p: Phase, h: seq<Msg>)
    requires p == RecoveringResend
    ensures Settled(t, p, h) == Active <==> BackByLogon(t, h)
    decreases |h|
  {
    if h != [] {
      var more, m := h[..|h| - 1], h[|h| - 1];
      assert more + [m] == h;
      SettledSnoc(t, p, more, m);
      SettledActive(t, p, more);
    }
  }

  /** After a drain the session calls itself active although it was stopped or has asked for logout exactly
      if the walk through the cache reaches a Logout, a refused Logon or a low reset, and either nothing is
      left in the cache or an accepted Logon comes last among the messages that decide about the phase. */
  lemma FalselyActiveExactly(view: Wire -> View, s: State)
    requires s.Ok() && !s.stopped && s.phase == RecoveringResend && CacheReads(view, s)
    ensures
      var r, d := DrainLoop(view, s), Drained(view, s);
      && s.sent <= r.sent
      && (FalselyActive(s, r) <==>
          Offends(TermsOf(s), d.handled) && (d.left == map[] || BackByLogon(TermsOf(s), d.handled)))
      && (r.stopped <==> HasLogout(d.handled))
  {
    DrainWalks(view, s);
    SettledActive(TermsOf(s), s.phase, Drained(view, s).handled);
    var h := Drained(view, s).handled;
    assert HasLogout(h) ==> Offends(TermsOf(s), h);
  }

  /** Where no Logon is cached, the condition is that nothing is left. */
  lemma FalselyActiveWithoutLogons(view: Wire -> View, s: State)
    requires s.Ok() && !s.stopped && s.phase == RecoveringResend && CacheReads(view, s)
    requires forall k | k in s.cache :: !view(s.cache[k]).msg.kind.Logon?
    ensures s.sent <= DrainLoop(view, s).sent
    ensures FalselyActive(s, DrainLoop(view, s)) <==>
            Offends(TermsOf(s), Drained(view, s).handled) && Drained(view, s).left == map[]
  {
    FalselyActiveExactly(view, s);
    NoLogonHandled(view, TermsOf(s), s.cache, s.nextIn, s.phase);
  }

  lemma BackByLogonCons(t: Terms, m: Msg, h: seq<Msg>)
    requires !m.kind.Logon? && !BackByLogon(t, h)
    ensures !BackByLogon(t, [m] + h)
    decreases |h|
  {
    var all := [m] + h;
    if h == [] {
      assert all[..|all| - 1] == [];
    } else {
      assert all[|all| - 1] == h[|h| - 1] && all[..|all| - 1] == [m] + h[..|h| - 1];
      if !h[|h| - 1].kind.Logon? && !EndsSession(t, h[|h| - 1]) {
        BackByLogonCons(t, m, h[..|h| - 1]);
      }
    }
  }

  lemma {:induction false} NoLogonHandled(view: Wire -> View, t: Terms, cache: map<nat, Wire>, n: nat, p: Phase)
    requires AllRead(view, cache) && forall k | k in cache :: !view(cache[k]).msg.kind.Logon?
    ensures !BackByLogon(t, Walk(view, t, cache, n, p).handled)
    decreases |cache|
  {
    if n in cache {
      var m, rest := view(cache[n]).msg, cache - {n};
      if m.kind.Logout? {
        BackByLogonCons(t, m, []);
        assert [m] + [] == [m];
      } else if Listening(p) || Admin(m.kind) {
        NoLogonHandled(view, t, rest, NextExpected(t.cfg, m), PhaseAfter(t, p, m));
        BackByLogonCons(t, m, Walk(view, t, rest, NextExpected(t.cfg, m), PhaseAfter(t, p, m)).handled);
      }
    }
  }

  // ---- such drains ----

  /** A cached Logout that empties the cache leaves a stopped session that calls itself active. */
  lemma CachedLogout(view: Wire -> View, s: State, w: Wire, dup: bool)
    requires s.Ok() && !s.stopped && s.phase == RecoveringResend
    requires s.cache == map[s.nextIn := w] && view(w) == Valid(Msg(s.nextIn, Logout, dup))
    ensures DrainLoop(view, s).phase == Active && DrainLoop(view, s).stopped
  {
    DrainLoopStep(view, s);
    assert s.cache - {s.nextIn} == map[];
  }

  /** One step of a walk. */
  lemma WalkStep(view: Wire -> View, t: Terms, cache: map<nat, Wire>, n: nat, p: Phase, m: Msg,
                 rest: map<nat, Wire>, next: nat, after: Phase)
    requires AllRead(view, cache) && n in cache && m == view(cache[n]).msg && rest == cache - {n}
    requires (Listening(p) || Admin(m.kind)) && !m.kind.Logout?
    requires next == NextExpected(t.cfg, m) && after == PhaseAfter(t, p, m)
    ensures
      var d := Walk(view, t, rest, next, after);
      Walk(view, t, cache, n, p) == d.(handled := [m] + d.handled)
  {
  }

  /** A cached low reset that empties the cache leaves a session that has asked for logout and calls itself
      active. */
  lemma CachedLowReset(view: Wire -> View, s: State, w: Wire)
    requires s.Ok() && !s.stopped && s.phase == RecoveringResend && s.nextIn == 5
    requires s.cache == map[5 := w] && view(w) == Valid(Msg(5, SequenceReset(3, false), false))
    ensures
      var r := DrainLoop(view, s);
      && r.phase == Active && !r.stopped
      && s.sent <= r.sent && SaysLogout(Said(s, r))
  {
    var t, m := TermsOf(s), view(w).msg;
    DrainWalks(view, s);
    WalkStep(view, t, s.cache, 5, s.phase, m, map[], 6, AwaitingLogout);
    OffendsCons(t, m, []);
  }

  /** The caches of the next lemma. */
  lemma TwoLogons(view: Wire -> View, t: Terms, w5: Wire, w6: Wire, w8: Wire, cache: map<nat, Wire>)
    requires t.cfg.role.Acceptor? && t.interval.None? && cache == map[5 := w5, 6 := w6, 8 := w8]
    requires view(w5) == Valid(Msg(5, Logon(5, false), false))
    requires view(w6) == Valid(Msg(6, Logon(30, false), false))
    requires view(w8) == Valid(Msg(8, App([]), false))
    ensures Walk(view, t, cache, 5, RecoveringResend) == Drainage([view(w5).msg, view(w6).msg], map[8 := w8], 7)
    ensures Settled(t, RecoveringResend, [view(w5).msg, view(w6).msg]) == Active
    ensures Offends(t, [view(w5).msg, view(w6).msg])
  {
    var m5, m6 := view(w5).msg, view(w6).msg;
    var rest := map[6 := w6, 8 := w8];
    WalkStep(view, t, cache, 5, RecoveringResend, m5, rest, 6, AwaitingLogout);
    WalkStep(view, t, rest, 6, AwaitingLogout, m6, map[8 := w8], 7, Active);
    assert [m5] + ([m6] + []) == [m5, m6];
    OffendsCons(t, m5, [m6]);
    assert [m5] + [m6] == [m5, m6];
    SettledSnoc(t, RecoveringResend, [m5], m6);
    assert [m5][1..] == [];
  }

  /** A refused Logon, an accepted one, and a message further on: the session has asked for logout, calls
      itself active, and keeps the message in its cache. */
  lemma RefusedThenAccepted(view: Wire -> View, s: State, w5: Wire, w6: Wire, w8: Wire)
    requires s.Ok() && !s.stopped && s.phase == RecoveringResend && s.nextIn == 5
    requires s.cfg.role.Acceptor? && s.cache == map[5 := w5, 6 := w6, 8 := w8]
    requires view(w5) == Valid(Msg(5, Logon(5, false), false))
    requires view(w6) == Valid(Msg(6, Logon(30, false), false))
    requires view(w8) == Valid(Msg(8, App([]), false))
    ensures
      var r := DrainLoop(view, s);
      && r.phase == Active && r.cache == map[8 := w8]
      && s.sent <= r.sent && SaysLogout(Said(s, r))
  {
    TwoLogons(view, TermsOf(s), w5, w6, w8, s.cache);
    DrainWalks(view, s);
  }
}
