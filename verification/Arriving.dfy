/** What becomes of a message that does not reach the handlers: it is dropped, filed, rejected, or it makes the
    session ask for logout. */
module Arriving {
  import opened Bytes
  import opened Protocol
  import opened SessionSpec
  import opened SessionRuns
  import opened Draining
  import opened RecoveryPhase
  import opened GapRecovery

  predicate Admitted(s: State, m: Msg) {
    Listening(s.phase) || Admin(m.kind)
  }

  /** A possible duplicate of an old number, one more copy of what is filed already, or a message whose number
      does not read. */
  predicate Drops(s: State, v: View) {
    || v.Unnumbered?
    || (v.Valid? && Admitted(s, v.msg)
        && ((v.msg.num < s.nextIn && v.msg.possDup) || (s.phase == RecoveringResend && v.msg.num in s.cache)))
  }

  /** No message, none of the session's business, an application message before logon, an old number that is not
      said to be a duplicate, or one beyond the 512 numbers of a recovery. */
  predicate Offensive(s: State, v: View) {
    || v.ParseError? || v.Fatal?
    || (v.Valid?
        && (|| !Admitted(s, v.msg)
            || (v.msg.num < s.nextIn && !v.msg.possDup)
            || (s.phase == RecoveringResend && v.msg.num > s.nextIn && !(s.base <= v.msg.num < s.base + 512))))
  }

  /** One message of kind `k` was sent as an original, and nothing else happened but that the phase is `p`. */
  predicate OnlySaid(s: State, r: State, k: Kind, p: Phase) {
    && r.sent == s.sent + [Msg(s.nextOut, k, false)] && r.store == s.store + [Msg(s.nextOut, k, false)]
    && r.nextOut == s.nextOut + 1 && r.phase == p
    && r == s.(sent := r.sent, store := r.store, nextOut := r.nextOut, phase := p)
  }

  /** Between messages a drain has nothing to do. */
  lemma NothingToDrain(view: Wire -> View, s: State)
    requires s.Ok() && CacheReads(view, s) && RecoveryOk(s)
    ensures Drain(view, s) == s
  {
  }

  /** An old number, in any phase that takes it: a possible duplicate changes nothing, an original makes the
      session ask for logout. */
  lemma OldNumber(s: State, m: Inbound, w: Wire)
    requires s.Ok() && !s.stopped && m.num < s.nextIn && Admitted(s, m)
    ensures m.possDup ==> Dispatch(s, Valid(m), w) == s
    ensures !m.possDup ==> OnlySaid(s, Dispatch(s, Valid(m), w), Logout, AwaitingLogout)
  {
  }

  lemma ExpectedChanges(view: Wire -> View, s: State, w: Wire)
    requires s.Ok() && CacheReads(view, s) && view(w).Valid? && Expected(s, view(w).msg)
    ensures |Process(view, s, w).handled| > |s.handled|
  {
    DispatchHandles(s, view(w), w);
    DrainLoopOnlyAdds(view, Dispatch(s, view(w), w));
  }

  /** A message leaves a session as it is exactly if it is dropped. */
  lemma DropsExactly(view: Wire -> View, s: State, w: Wire)
    requires s.Ok() && CacheReads(view, s) && !s.stopped && RecoveryOk(s)
    ensures Process(view, s, w) == s <==> Drops(s, view(w))
  {
    var v := view(w);
    if v.Valid? && Expected(s, v.msg) {
      ExpectedChanges(view, s, w);
    } else if Drops(s, v) {
      NothingToDrain(view, s);
    } else {
      ProcessOnlyAdds(view, s, w);
      UndroppedChanges(view, s, w);
    }
  }

  lemma UndroppedChanges(view: Wire -> View, s: State, w: Wire)
    requires s.Ok() && CacheReads(view, s) && !s.stopped && RecoveryOk(s) && !Drops(s, view(w))
    requires !(view(w).Valid? && Expected(s, view(w).msg))
    ensures Process(view, s, w) != s
  {
    var r, v := Received(view, s, w), view(w);
    DrainLoopOnlyAdds(view, r);
    if v.Valid? && s.phase == RecoveringResend && Admitted(s, v.msg) && v.msg.num > s.nextIn
       && InWindow(s.base, v.msg.num) {
      assert v.msg.num in r.cache && r.nextIn !in r.cache;
    } else {
      assert |r.sent| > |s.sent|;
    }
  }

  /** An offensive message adds exactly one Logout to what is sent, and the session waits for the other end's;
      nothing is handled, delivered, filed or expected anew. */
  lemma OffenceLogsOut(view: Wire -> View, s: State, w: Wire)
    requires s.Ok() && CacheReads(view, s) && !s.stopped && Offensive(s, view(w))
    ensures OnlySaid(s, Process(view, s, w), Logout, AwaitingLogout)
  {
  }

  /** A message the validator finds fault with is answered by a Reject with its number, and by nothing else. */
  lemma FaultIsRejected(view: Wire -> View, s: State, w: Wire)
    requires s.Ok() && CacheReads(view, s) && !s.stopped && RecoveryOk(s) && view(w).Invalid?
    ensures OnlySaid(s, Process(view, s, w), Reject(view(w).refSeqNum), s.phase)
  {
    NothingToDrain(view, s.(sent := Dispatch(s, view(w), w).sent));
  }

  /** While recovering, an early message inside the window that is not filed yet is filed, and nothing else
      happens. */
  lemma EarlyIsFiled(view: Wire -> View, s: State, w: Wire, m: Inbound)
    requires s.Ok() && CacheReads(view, s) && RecoveryOk(s) && s.phase == RecoveringResend && view(w) == Valid(m)
    requires m.num > s.nextIn && s.base <= m.num < s.base + 512 && m.num !in s.cache
    ensures Process(view, s, w) == s.(cache := s.cache[m.num := w])
  {
    assert m.num in s.cache[m.num := w];
  }

  /** What comes in is handled, or is one of these; a message makes the session ask for logout exactly if it is
      offensive, or is the expected one and ends the session. */
  lemma LogsOutExactly(view: Wire -> View, s: State, w: Wire)
    requires s.Ok() && CacheReads(view, s) && !s.stopped
    ensures
      var r, v := Received(view, s, w), view(w);
      && s.sent <= r.sent
      && (SaysLogout(Said(s, r)) <==>
          Offensive(s, v)
          || (v.Valid? && Expected(s, v.msg) && EndsSession(TermsOf(s), v.msg)
              && !(v.msg.kind.Logout? && s.phase == AwaitingLogout)))
  {
    var r, v := Received(view, s, w), view(w);
    if v.Valid? && Expected(s, v.msg) {
      DispatchOutcome(s, v.msg, w);
    } else if r.sent != s.sent {
      SaidOne(s, r, r.sent[|s.sent|]);
    }
  }

  // ---- over runs ----

  lemma {:induction false} RunConcat(view: Wire -> View, s: State, es: seq<Event>, fs: seq<Event>)
    requires s.Ok() && CacheReads(view, s)
    ensures Run(view, s, es + fs) == Run(view, Run(view, s, es), fs)
    decreases |es|
  {
    if es == [] {
      assert es + fs == fs;
    } else {
      assert (es + fs)[1..] == es[1..] + fs;
      RunConcat(view, Apply(view, s, es[0]), es[1..], fs);
    }
  }

  /** Any number of messages that are dropped, old copies above all, leave a session between messages as it is. */
  lemma {:induction false} DroppedChangeNothing(view: Wire -> View, s: State, ws: seq<Wire>)
    requires s.Ok() && CacheReads(view, s) && !s.stopped && RecoveryOk(s)
    requires forall w | w in ws :: Drops(s, view(w))
    ensures Run(view, s, Arrivals(ws)) == s
    decreases |ws|
  {
    RunArrivals(view, s, ws);
    if ws != [] {
      assert ws[0] in ws;
      DropsExactly(view, s, ws[0]);
      DroppedChangeNothing(view, s, ws[1..]);
    }
  }

  /** Wherever such messages come in a run, the run ends as it does without them. */
  lemma DroppedLeaveNoTrace(view: Wire -> View, s: State, es: seq<Event>, ws: seq<Wire>, fs: seq<Event>)
    requires s.Ok() && CacheReads(view, s)
    requires
      var t := Run(view, s, es);
      !t.stopped && RecoveryOk(t) && forall w | w in ws :: Drops(t, view(w))
    ensures Run(view, s, es + Arrivals(ws) + fs) == Run(view, s, es + fs)
  {
    var t := Run(view, s, es);
    DroppedChangeNothing(view, t, ws);
    RunConcat(view, s, es + Arrivals(ws), fs);
    RunConcat(view, s, es, Arrivals(ws));
    RunConcat(view, s, es, fs);
  }

  /** An offensive message in a run has a Logout said, whatever comes before and after it. */
  lemma OffenceShows(view: Wire -> View, s: State, es: seq<Event>, w: Wire, fs: seq<Event>)
    requires s.Ok() && CacheReads(view, s)
    requires !Run(view, s, es).stopped && Offensive(Run(view, s, es), view(w))
    ensures
      var r := Run(view, s, es + [Receive(w)] + fs);
      s.sent <= r.sent && SaysLogout(Said(s, r))
  {
    var t, u, r := Run(view, s, es), Process(view, Run(view, s, es), w), Run(view, s, es + [Receive(w)] + fs);
    RunConcat(view, s, es + [Receive(w)], fs);
    RunConcat(view, s, es, [Receive(w)]);
    assert [Receive(w)][1..] == [];
    assert Run(view, t, [Receive(w)]) == Run(view, u, []) == u;
    OffenceLogsOut(view, t, w);
    RunOnlyAdds(view, s, es);
    RunOnlyAdds(view, u, fs);
    assert r.sent[|t.sent|] == u.sent[|t.sent|];
    assert Said(s, r)[|t.sent| - |s.sent|] == r.sent[|t.sent|];
  }

  // ---- what is handled has come in ----

  /** One of the wires `ws` reads as `m`. */
  ghost predicate CameIn(view: Wire -> View, ws: set<Wire>, m: Msg) {
    exists w | w in ws :: view(w).Valid? && view(w).msg == m
  }

  /** What is cached is among `ws`, and what was handled since `s0` came in as one of them. */
  ghost predicate FromWires(view: Wire -> View, ws: set<Wire>, s0: State, s: State) {
    && s.Ok() && CacheReads(view, s) && s0.handled <= s.handled
    && (forall k | k in s.cache :: s.cache[k] in ws)
    && (forall i | |s0.handled| <= i < |s.handled| :: CameIn(view, ws, s.handled[i]))
  }

  lemma DispatchFrom(view: Wire -> View, ws: set<Wire>, s0: State, s: State, w: Wire)
    requires FromWires(view, ws, s0, s) && w in ws
    ensures FromWires(view, ws, s0, Dispatch(s, view(w), w))
  {
    var v, r := view(w), Dispatch(s, view(w), w);
    DispatchHandles(s, v, w);
    if Reaches(s, v) != [] {
      assert CameIn(view, ws, v.msg);
    }
    forall k | k in r.cache ensures r.cache[k] in ws && view(r.cache[k]).Valid? && view(r.cache[k]).msg.num == k {
      if k !in s.cache || r.cache[k] != s.cache[k] {
        assert r.cache[k] == w;
      }
    }
  }

  lemma {:induction false} DrainFrom(view: Wire -> View, ws: set<Wire>, s0: State, s: State)
    requires FromWires(view, ws, s0, s)
    ensures FromWires(view, ws, s0, DrainLoop(view, s))
    decreases |s.cache|
  {
    var e := s.nextIn;
    if e in s.cache {
      var s1 := Dispatch(s, view(s.cache[e]), s.cache[e]);
      DispatchFrom(view, ws, s0, s, s.cache[e]);
      DrainFrom(view, ws, s0, s1.(cache := s1.cache - {e}));
    }
  }

  lemma ApplyFrom(view: Wire -> View, ws: set<Wire>, s0: State, s: State, e: Event)
    requires FromWires(view, ws, s0, s) && (e.Receive? ==> e.wire in ws)
    ensures FromWires(view, ws, s0, Apply(view, s, e))
  {
    if e.Receive? {
      DispatchFrom(view, ws, s0, s, e.wire);
      DrainFrom(view, ws, s0, Received(view, s, e.wire));
    }
  }

  lemma {:induction false} RunFrom(view: Wire -> View, ws: set<Wire>, s0: State, s: State, es: seq<Event>)
    requires FromWires(view, ws, s0, s) && forall e | e in es && e.Receive? :: e.wire in ws
    ensures FromWires(view, ws, s0, Run(view, s, es))
    decreases |es|
  {
    if es != [] {
      assert es[0] in es;
      ApplyFrom(view, ws, s0, s, es[0]);
      RunFrom(view, ws, s0, Apply(view, s, es[0]), es[1..]);
    }
  }

  /** Over every run, each message that is handled, and so each that is delivered, is what a wire reads as that
      came in or was filed before: damaged and rejected wires are never handled. */
  lemma HandledHasComeIn(view: Wire -> View, ws: set<Wire>, s: State, es: seq<Event>) returns (h: seq<Msg>)
    requires s.Ok() && CacheReads(view, s) && forall k | k in s.cache :: s.cache[k] in ws
    requires forall e | e in es && e.Receive? :: e.wire in ws
    ensures Run(view, s, es).handled == s.handled + h && Run(view, s, es).delivered == s.delivered + Apps(h)
    ensures forall m | m in h :: CameIn(view, ws, m)
  {
    h := RunHandles(view, s, es);
    RunFrom(view, ws, s, s, es);
    forall m | m in h ensures CameIn(view, ws, m) {
      var i :| 0 <= i < |h| && h[i] == m;
      assert Run(view, s, es).handled[|s.handled| + i] == m;
    }
  }
}
