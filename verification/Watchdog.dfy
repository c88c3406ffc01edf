/** The test request that a silent connection gets, and what happens if it stays unanswered. */
module Watchdog {
  import opened Bytes
  import opened Protocol
  import opened SessionSpec
  import opened SessionRuns
  import opened Draining
  import opened RecoveryPhase
  import opened Arriving

  predicate HasHeartbeat(h: seq<Msg>) {
    exists i | 0 <= i < |h| :: h[i].kind.Heartbeat?
  }

  lemma HeartbeatConcat(a: seq<Msg>, b: seq<Msg>)
    ensures HasHeartbeat(a + b) <==> HasHeartbeat(a) || HasHeartbeat(b)
  {
    forall i | 0 <= i < |a| ensures (a + b)[i] == a[i] {
    }
    forall i | 0 <= i < |b| ensures (a + b)[|a| + i] == b[i] {
    }
  }

  /** From `s` to `r` the test request stays unanswered exactly if no Heartbeat is handled. */
  predicate Waits(s: State, r: State) {
    s.handled <= r.handled && (r.awaitingTestReply <==> s.awaitingTestReply && !HasHeartbeat(HandledSince(s, r)))
  }

  lemma WaitsTransitive(s: State, t: State, r: State)
    requires Waits(s, t) && Waits(t, r)
    ensures Waits(s, r)
  {
    HandledSinceSplit(s, t, r);
    HeartbeatConcat(HandledSince(s, t), HandledSince(t, r));
  }

  lemma DispatchAwaits(s: State, v: View, w: Wire)
    requires s.Ok()
    ensures Dispatch(s, v, w).awaitingTestReply <==>
            s.awaitingTestReply && !(Reaches(s, v) != [] && v.msg.kind.Heartbeat?)
  {
  }

  lemma DispatchWaits(s: State, v: View, w: Wire)
    requires s.Ok()
    ensures Waits(s, Dispatch(s, v, w))
  {
    DispatchAwaits(s, v, w);
    DispatchHandles(s, v, w);
    WaitsFor(s, Dispatch(s, v, w), Reaches(s, v));
  }

  lemma WaitsFor(s: State, r: State, h: seq<Msg>)
    requires r.handled == s.handled + h && |h| <= 1
    requires r.awaitingTestReply <==> s.awaitingTestReply && !(h != [] && h[0].kind.Heartbeat?)
    ensures Waits(s, r)
  {
    assert HandledSince(s, r) == h;
  }

  lemma {:induction false} DrainWaits(view: Wire -> View, s: State)
    requires s.Ok() && CacheReads(view, s)
    ensures Waits(s, DrainLoop(view, s))
    decreases |s.cache|
  {
    var e := s.nextIn;
    if e in s.cache {
      var s1 := Dispatch(s, view(s.cache[e]), s.cache[e]);
      DispatchWaits(s, view(s.cache[e]), s.cache[e]);
      var s2 := s1.(cache := s1.cache - {e});
      assert Waits(s, s2);
      DrainWaits(view, s2);
      WaitsTransitive(s, s2, DrainLoop(view, s2));
    }
  }

  lemma ProcessWaits(view: Wire -> View, s: State, w: Wire)
    requires s.Ok() && CacheReads(view, s)
    ensures Waits(s, Process(view, s, w))
  {
    var s1 := Received(view, s, w);
    DispatchWaits(s, view(w), w);
    DrainWaits(view, s1);
    WaitsTransitive(s, s1, DrainLoop(view, s1));
  }

  /** Whether a session waits for the answer to a test request, after each event: a silence makes it wait, a
      Heartbeat that is handled or a new connection ends it, and nothing else changes it. */
  lemma WaitsExactly(view: Wire -> View, s: State, e: Event)
    requires s.Ok() && CacheReads(view, s) && !s.stopped
    ensures
      var r := Apply(view, s, e);
      && s.handled <= r.handled
      && (r.awaitingTestReply <==>
          e.SilenceDue? || (s.awaitingTestReply && !e.Reconnected? && !HasHeartbeat(HandledSince(s, r))))
  {
    if e.Receive? {
      ProcessWaits(view, s, e.wire);
    } else {
      assert HandledSince(s, Apply(view, s, e)) == [];
    }
  }

  lemma {:induction false} StoppedThroughDrain(view: Wire -> View, s: State)
    requires s.Ok() && CacheReads(view, s) && s.stopped
    ensures DrainLoop(view, s).stopped
    decreases |s.cache|
  {
    var e := s.nextIn;
    if e in s.cache {
      var s1 := Dispatch(s, view(s.cache[e]), s.cache[e]);
      StoppedThroughDrain(view, s1.(cache := s1.cache - {e}));
    }
  }

  /** A stopped session stays stopped. */
  lemma {:induction false} StoppedForGood(view: Wire -> View, s: State, es: seq<Event>)
    requires s.Ok() && CacheReads(view, s) && s.stopped
    ensures Run(view, s, es).stopped
    decreases |es|
  {
    if es != [] {
      if es[0].Receive? {
        StoppedThroughDrain(view, s);
      }
      StoppedForGood(view, Apply(view, s, es[0]), es[1..]);
    }
  }

  predicate NoSilence(es: seq<Event>) {
    forall e | e in es :: !e.SilenceDue?
  }

  predicate SameConnection(es: seq<Event>) {
    forall e | e in es :: !e.Reconnected?
  }

  /** Without an answer a session goes on waiting, over every run on one connection. */
  lemma {:induction false} StillWaits(view: Wire -> View, s: State, es: seq<Event>)
    requires s.Ok() && CacheReads(view, s) && s.awaitingTestReply && SameConnection(es)
    requires !Run(view, s, es).stopped && s.handled <= Run(view, s, es).handled
    requires !HasHeartbeat(HandledSince(s, Run(view, s, es)))
    ensures Run(view, s, es).awaitingTestReply
    decreases |es|
  {
    if es != [] {
      var t, r := Apply(view, s, es[0]), Run(view, s, es);
      if s.stopped { StoppedForGood(view, s, es); }
      assert es[0] in es;
      WaitsExactly(view, s, es[0]);
      RunOnlyAdds(view, t, es[1..]);
      HandledSinceSplit(s, t, r);
      HeartbeatConcat(HandledSince(s, t), HandledSince(t, r));
      StillWaits(view, t, es[1..]);
    }
  }

  /** With an answer handled in it, or a new connection, a run without another silence ends the wait. */
  lemma {:induction false} WaitsNoMore(view: Wire -> View, s: State, es: seq<Event>)
    requires s.Ok() && CacheReads(view, s) && NoSilence(es)
    requires !Run(view, s, es).stopped && s.handled <= Run(view, s, es).handled
    requires !s.awaitingTestReply || HasHeartbeat(HandledSince(s, Run(view, s, es))) || !SameConnection(es)
    ensures !Run(view, s, es).awaitingTestReply
    decreases |es|
  {
    if es != [] {
      var t, r := Apply(view, s, es[0]), Run(view, s, es);
      if s.stopped { StoppedForGood(view, s, es); }
      assert es[0] in es;
      WaitsExactly(view, s, es[0]);
      RunOnlyAdds(view, t, es[1..]);
      HandledSinceSplit(s, t, r);
      HeartbeatConcat(HandledSince(s, t), HandledSince(t, r));
      WaitsNoMore(view, t, es[1..]);
    } else {
      assert HandledSince(s, s) == [];
    }
  }

  /** The first silence is answered by a test request. */
  predicate AskedForSign(s: State, r: State, id: Wire) {
    OnlySaid(s.(awaitingTestReply := true), r, TestRequest(id), s.phase)
  }

  /** Silence, and silence again without a Heartbeat handled in between: the session asks for logout, whatever
      else happens in between on the connection. */
  lemma SilentTwice(view: Wire -> View, s: State, id: Wire, es: seq<Event>, id': Wire)
    requires s.Ok() && CacheReads(view, s) && !s.stopped && SameConnection(es)
    requires
      var t, r := Apply(view, s, SilenceDue(id)), Run(view, Apply(view, s, SilenceDue(id)), es);
      !r.stopped && t.handled <= r.handled && !HasHeartbeat(HandledSince(t, r))
    ensures
      var r := Run(view, Apply(view, s, SilenceDue(id)), es);
      OnlySaid(r, Apply(view, r, SilenceDue(id')), Logout, AwaitingLogout)
  {
    var t := Apply(view, s, SilenceDue(id));
    WaitsExactly(view, s, SilenceDue(id));
    StillWaits(view, t, es);
  }

  /** Silence, and silence again after a Heartbeat was handled or the connection is a new one: the session asks
      for a sign again, and not for logout. */
  lemma SilentAnsweredSilent(view: Wire -> View, s: State, id: Wire, es: seq<Event>, id': Wire)
    requires s.Ok() && CacheReads(view, s) && !s.stopped && NoSilence(es)
    requires
      var t, r := Apply(view, s, SilenceDue(id)), Run(view, Apply(view, s, SilenceDue(id)), es);
      !r.stopped && t.handled <= r.handled && (HasHeartbeat(HandledSince(t, r)) || !SameConnection(es))
    ensures
      var r := Run(view, Apply(view, s, SilenceDue(id)), es);
      AskedForSign(r, Apply(view, r, SilenceDue(id')), id')
  {
    WaitsNoMore(view, Apply(view, s, SilenceDue(id)), es);
  }

  /** What a silence does: a session that does not wait asks for a sign, one that waits asks for logout. */
  lemma SilenceExactly(view: Wire -> View, s: State, id: Wire)
    requires s.Ok() && CacheReads(view, s) && !s.stopped
    ensures AskedForSign(s, Apply(view, s, SilenceDue(id)), id) <==> !s.awaitingTestReply
    ensures OnlySaid(s, Apply(view, s, SilenceDue(id)), Logout, AwaitingLogout) <==> s.awaitingTestReply
  {
    var r := Apply(view, s, SilenceDue(id));
    assert r.sent[|s.sent|].kind == if s.awaitingTestReply then Logout else TestRequest(id);
  }

  // ---- the interval ----

  /** The interval a session is on after a message: that of a Logon in its turn, if it is from 10 to 120 and, for an
      initiator, its own; also if the Logon is refused for its reset. */
  lemma IntervalExactly(s: State, v: View, w: Wire)
    requires s.Ok()
    ensures
      var taken := Reaches(s, v) != [] && v.msg.kind.Logon? && 10 <= v.msg.kind.heartBtInt <= 120;
      Dispatch(s, v, w).heartBeatInt ==
        if taken && s.cfg.role.Acceptor? then v.msg.kind.heartBtInt else s.heartBeatInt
  {
  }

  lemma {:induction false} DrainKeepsInterval(view: Wire -> View, s: State)
    requires s.Ok() && CacheReads(view, s) && s.cfg.role.Initiator?
    ensures DrainLoop(view, s).heartBeatInt == s.heartBeatInt
    decreases |s.cache|
  {
    var e := s.nextIn;
    if e in s.cache {
      var s1 := Dispatch(s, view(s.cache[e]), s.cache[e]);
      IntervalExactly(s, view(s.cache[e]), s.cache[e]);
      DispatchHandles(s, view(s.cache[e]), s.cache[e]);
      DrainKeepsInterval(view, s1.(cache := s1.cache - {e}));
    }
  }

  /** An initiator keeps its interval over every run. */
  lemma {:induction false} InitiatorKeepsInterval(view: Wire -> View, s: State, es: seq<Event>)
    requires s.Ok() && CacheReads(view, s) && s.cfg.role.Initiator?
    ensures Run(view, s, es).heartBeatInt == s.heartBeatInt
    decreases |es|
  {
    if es != [] {
      var t := Apply(view, s, es[0]);
      if es[0].Receive? {
        var s1 := Received(view, s, es[0].wire);
        IntervalExactly(s, view(es[0].wire), es[0].wire);
        DispatchHandles(s, view(es[0].wire), es[0].wire);
        DrainKeepsInterval(view, s1);
      }
      assert t.cfg == s.cfg by { var h := ApplyHandles(view, s, es[0]); }
      InitiatorKeepsInterval(view, t, es[1..]);
    }
  }
}
