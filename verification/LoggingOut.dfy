/** After a session has asked for logout, or was stopped: what makes it handle messages again all the same. */
module LoggingOut {
  import opened Bytes
  import opened Protocol
  import opened SessionSpec
  import opened SessionRuns
  import opened Draining
  import opened RecoveryPhase

  // ---- out of AwaitingLogout ----

  /** An early admin message opens a gap, and an accepted Logon in its turn logs on. */
  predicate Revives(s: State, v: View) {
    && v.Valid?
    && ((v.msg.num > s.nextIn && Admin(v.msg.kind))
        || (v.msg.num == s.nextIn && v.msg.kind.Logon? && !Refused(TermsOf(s), v.msg)))
  }

  /** Exactly these messages take a session out of AwaitingLogout; nothing else does, on the same connection,
      but the end of the session. */
  lemma LeavesLogoutExactly(view: Wire -> View, s: State, e: Event)
    requires s.Ok() && CacheReads(view, s) && !s.stopped && s.phase == AwaitingLogout && !e.Reconnected?
    ensures
      var r := Apply(view, s, e);
      && (r.phase == RecoveringResend <==>
          e.Receive? && view(e.wire).Valid? && view(e.wire).msg.num > s.nextIn && Admin(view(e.wire).msg.kind))
      && (Listening(r.phase) <==> e.Receive? && Revives(s, view(e.wire)))
      && (!Listening(r.phase) ==> r.phase == AwaitingLogout || r.stopped)
  {
    if e.Receive? {
      var v, d := view(e.wire), Received(view, s, e.wire);
      if v.Valid? && v.msg.num == s.nextIn && Admin(v.msg.kind) {
        DispatchOutcome(s, v.msg, e.wire);
      }
      assert d.phase == RecoveringResend ==> v.Valid? && v.msg.num in d.cache && d.nextIn !in d.cache;
    }
  }

  // ---- over runs ----

  /** Since `s0` it was stopped or has asked for logout. */
  predicate Out(s0: State, s: State)
    requires s0.sent <= s.sent
  {
    s.stopped || SaysLogout(Said(s0, s))
  }

  /** It does not listen, and waits for the other end's Logout if it was not stopped. */
  predicate Resting(s: State) {
    !Listening(s.phase) && (!s.stopped ==> s.phase == AwaitingLogout)
  }

  /** The phase says so if the session is out. */
  predicate Faithful(s0: State, s: State) {
    s0.sent <= s.sent && (Out(s0, s) ==> Resting(s))
  }

  /** A drain with the outcome that `FalselyActiveExactly` describes. */
  ghost predicate DrainsFalsely(view: Wire -> View, s: State)
    requires CacheReads(view, s)
  {
    && s.phase == RecoveringResend && s.cache != map[]
    && var d := Drained(view, s);
       Offends(TermsOf(s), d.handled) && (d.left == map[] || BackByLogon(TermsOf(s), d.handled))
  }

  /** What makes a session listen that is out: a message that revives it, or what a drain comes upon. */
  ghost predicate Misleads(view: Wire -> View, s0: State, s: State, e: Event)
    requires s.Ok() && CacheReads(view, s) && s0.sent <= s.sent
  {
    e.Receive? && !s.stopped
    && ((Out(s0, s) && Revives(s, view(e.wire))) || DrainsFalsely(view, Received(view, s, e.wire)))
  }

  lemma {:induction false} SettledOffended(t: Terms, p: Phase, h: seq<Msg>)
    requires !HasLogout(h) && p in {RecoveringResend, AwaitingLogout, Active}
    ensures Settled(t, p, h) in {RecoveringResend, AwaitingLogout, Active}
    decreases |h|
  {
    if h != [] {
      assert h == [h[0]] + h[1..];
      OffendsCons(t, h[0], h[1..]);
      SettledOffended(t, PhaseAfter(t, p, h[0]), h[1..]);
    }
  }

  /** After a drain of a session that was not out: it rests if it is out now, but for the one case. */
  lemma DrainIsFaithful(view: Wire -> View, s: State)
    requires s.Ok() && CacheReads(view, s) && !s.stopped && s.phase == RecoveringResend && s.cache != map[]
    ensures s.sent <= DrainLoop(view, s).sent
    ensures Faithful(s, DrainLoop(view, s)) <==> !DrainsFalsely(view, s)
    ensures DrainLoop(view, s).phase != RecoveringResend || !Out(s, DrainLoop(view, s))
  {
    var t, r, d := TermsOf(s), DrainLoop(view, s), Drained(view, s);
    FalselyActiveExactly(view, s);
    DrainWalks(view, s);
    assert HasLogout(d.handled) ==> Offends(t, d.handled);
    if HasLogout(d.handled) {
      SettledElsewhere(t, s.phase, d.handled);
    } else {
      SettledOffended(t, s.phase, d.handled);
      SettledStays(t, d.handled);
      if Offends(t, d.handled) {
        var i :| 0 <= i < |d.handled| && EndsSession(t, d.handled[i]);
        assert Decides(t, d.handled[i]);
      }
    }
  }

  /** What one message says and leaves behind, before draining, in a session that was not out. */
  lemma ReceivedIsFaithful(view: Wire -> View, s: State, w: Wire)
    requires s.Ok() && CacheReads(view, s) && !s.stopped
    ensures
      var r := Received(view, s, w);
      && Faithful(s, r) && (r.phase == RecoveringResend ==> !Out(s, r))
  {
    var r, v := Received(view, s, w), view(w);
    DispatchOnlyAdds(s, v, w);
    if v.Valid? && Expected(s, v.msg) {
      DispatchOutcome(s, v.msg, w);
    } else if r.sent != s.sent {
      SaidOne(s, r, r.sent[|s.sent|]);
    }
  }

  lemma OutConcat(s0: State, s: State, r: State)
    requires s0.sent <= s.sent <= r.sent && (s.stopped ==> r.stopped)
    ensures s0.sent <= r.sent && (Out(s0, r) <==> Out(s0, s) || Out(s, r))
  {
    SaidConcat(s0, s, r);
    SaysConcat(Said(s0, s), Said(s, r));
  }

  lemma OutItself(s: State)
    ensures Out(s, s) <==> s.stopped
  {
    assert Said(s, s) == [];
  }

  /** The application does not send Logouts of its own, and the connection stays. */
  predicate Ordinary(e: Event) {
    !e.Reconnected? && (e.SendFromApp? ==> !e.kind.Logout?)
  }

  lemma StoppedStays(view: Wire -> View, s0: State, s: State, e: Event)
    requires s.Ok() && CacheReads(view, s) && s.stopped && Faithful(s0, s) && Ordinary(e)
    ensures Apply(view, s, e) == s
  {
  }

  lemma AskedStaysExactly(view: Wire -> View, s0: State, s: State, e: Event)
    requires s.Ok() && CacheReads(view, s) && !s.stopped && Faithful(s0, s) && Out(s0, s) && Ordinary(e)
    ensures Faithful(s0, Apply(view, s, e)) <==> !Misleads(view, s0, s, e)
  {
    var r := Apply(view, s, e);
    ApplyOnlyAdds(view, s, e);
    OutConcat(s0, s, r);
    LeavesLogoutExactly(view, s, e);
    if e.Receive? && DrainsFalsely(view, Received(view, s, e.wire)) {
      assert Revives(s, view(e.wire));
    }
  }

  lemma ReadStaysExactly(view: Wire -> View, s0: State, s: State, w: Wire)
    requires s.Ok() && CacheReads(view, s) && !s.stopped && Faithful(s0, s) && !Out(s0, s)
    ensures Faithful(s0, Process(view, s, w)) <==> !Misleads(view, s0, s, Receive(w))
  {
    var s1, r := Received(view, s, w), Process(view, s, w);
    ReceivedIsFaithful(view, s, w);
    OutConcat(s0, s, s1);
    if s1.phase == RecoveringResend && s1.cache != map[] {
      DrainIsFaithful(view, s1);
      OutConcat(s0, s1, r);
    }
  }

  lemma EventStays(view: Wire -> View, s0: State, s: State, e: Event)
    requires s.Ok() && CacheReads(view, s) && !s.stopped && Faithful(s0, s) && !Out(s0, s) && Ordinary(e) && !e.Receive?
    ensures Faithful(s0, Apply(view, s, e))
  {
    var r := Apply(view, s, e);
    ApplyOnlyAdds(view, s, e);
    OutConcat(s0, s, r);
    if r.sent != s.sent {
      SaidOne(s, r, r.sent[|s.sent|]);
    } else {
      assert Said(s, r) == [];
    }
  }

  /** Per event: the phase goes on to tell that a session is out exactly if the event does not mislead it. */
  lemma StaysFaithfulExactly(view: Wire -> View, s0: State, s: State, e: Event)
    requires s.Ok() && CacheReads(view, s) && Faithful(s0, s) && Ordinary(e)
    ensures Faithful(s0, Apply(view, s, e)) <==> !Misleads(view, s0, s, e)
  {
    if s.stopped {
      StoppedStays(view, s0, s, e);
    } else if Out(s0, s) {
      AskedStaysExactly(view, s0, s, e);
    } else if e.Receive? {
      ReadStaysExactly(view, s0, s, e.wire);
    } else {
      EventStays(view, s0, s, e);
    }
  }

  /** All along a run. */
  ghost predicate AlwaysFaithful(view: Wire -> View, s0: State, s: State, es: seq<Event>)
    requires s.Ok() && CacheReads(view, s)
    decreases |es|
  {
    Faithful(s0, s) && (es != [] ==> AlwaysFaithful(view, s0, Apply(view, s, es[0]), es[1..]))
  }

  ghost predicate NothingMisleads(view: Wire -> View, s0: State, s: State, es: seq<Event>)
    requires s.Ok() && CacheReads(view, s)
    decreases |es|
  {
    es != [] ==>
      && s0.sent <= s.sent && !Misleads(view, s0, s, es[0])
      && NothingMisleads(view, s0, Apply(view, s, es[0]), es[1..])
  }

  /** Over every run on one connection: once a session was stopped or has asked for logout it never listens
      again if and only if nothing misleads it, neither a message that revives it out of AwaitingLogout nor a
      drain that ends Active. */
  lemma {:induction false} FaithfulExactly(view: Wire -> View, s0: State, s: State, es: seq<Event>)
    requires s.Ok() && CacheReads(view, s) && Faithful(s0, s) && forall e | e in es :: Ordinary(e)
    ensures AlwaysFaithful(view, s0, s, es) <==> NothingMisleads(view, s0, s, es)
    decreases |es|
  {
    if es != [] {
      var t := Apply(view, s, es[0]);
      assert es[0] in es;
      StaysFaithfulExactly(view, s0, s, es[0]);
      if Faithful(s0, t) {
        FaithfulExactly(view, s0, t, es[1..]);
      }
    }
  }

  lemma RunOfThree(view: Wire -> View, s: State, e1: Event, e2: Event, e3: Event)
    requires s.Ok() && CacheReads(view, s)
    ensures Run(view, s, [e1, e2, e3]) == Apply(view, Apply(view, Apply(view, s, e1), e2), e3)
  {
    var s1, s2 := Apply(view, s, e1), Apply(view, Apply(view, s, e1), e2);
    assert [e1, e2, e3][1..] == [e2, e3] && [e2, e3][1..] == [e3] && [e3][1..] == [];
    assert Run(view, s2, [e3]) == Apply(view, s2, e3);
    assert Run(view, s1, [e2, e3]) == Run(view, s2, [e3]);
  }

  /** An early Heartbeat in AwaitingLogout. */
  lemma Reopened(view: Wire -> View, s: State, w6: Wire)
    requires s.Ok() && !s.stopped && s.phase == AwaitingLogout && s.nextIn == 5 && s.cache == map[]
    requires view(w6) == Valid(Msg(6, Heartbeat([]), false))
    ensures
      var r := Process(view, s, w6);
      && r.phase == RecoveringResend && !r.stopped && r.nextIn == 5 && r.cache == map[6 := w6] && s.sent <= r.sent
  {
  }

  /** The one that was missing lets it through, and the session is active. */
  lemma ActiveAgain(view: Wire -> View, s: State, w6: Wire, w5: Wire)
    requires s.Ok() && !s.stopped && s.phase == RecoveringResend && s.nextIn == 5 && s.cache == map[6 := w6]
    requires view(w6) == Valid(Msg(6, Heartbeat([]), false)) && view(w5) == Valid(Msg(5, Heartbeat([]), false))
    ensures
      var r := Process(view, s, w5);
      && r.phase == Active && !r.stopped && r.nextIn == 7 && r.sent == s.sent
  {
    var s1 := Dispatch(s, view(w5), w5);
    assert s1.nextIn == 6 && s1.cache == map[6 := w6] && s1.phase == RecoveringResend && s1.sent == s.sent;
    DrainLoopStep(view, s1);
    var s2 := DrainOne(view, s1);
    assert s2.nextIn == 7 && s2.cache == map[] && s2.sent == s.sent && !s2.stopped;
    assert DrainLoop(view, s2) == s2.(phase := Active);
  }

  /** Such a run: an active session expecting 5 is asked to log out, and gets the Heartbeats 6 and 5. It has
      asked for logout, and ends active. */
  lemma Revived(view: Wire -> View, s: State, w6: Wire, w5: Wire)
    requires s.Ok() && !s.stopped && s.phase == Active && s.nextIn == 5 && s.cache == map[]
    requires view(w6) == Valid(Msg(6, Heartbeat([]), false)) && view(w5) == Valid(Msg(5, Heartbeat([]), false))
    ensures
      var r := Run(view, s, [LogoutRequested, Receive(w6), Receive(w5)]);
      && r.phase == Active && !r.stopped && r.nextIn == 7
      && s.sent <= r.sent && SaysLogout(Said(s, r))
  {
    var s1 := StopWithLogout(s);
    Reopened(view, s1, w6);
    var s2 := Process(view, s1, w6);
    ActiveAgain(view, s2, w6, w5);
    var s3 := Process(view, s2, w5);
    RunOfThree(view, s, LogoutRequested, Receive(w6), Receive(w5));
    assert s1.sent == s.sent + [Msg(s.nextOut, Logout, false)] && s1.sent <= s3.sent;
    assert Said(s, s3)[0].kind.Logout?;
  }
}
