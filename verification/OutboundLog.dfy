/** What a session keeps of what it sends: the log its resends are taken from. */
module OutboundLog {
  import opened Bytes
  import opened Protocol
  import opened SessionSpec
  import opened SessionRuns

  /** The messages of `sent` that are no resends. */
  function Originals(sent: seq<Msg>): seq<Msg> {
    if sent == [] then [] else (if sent[0].possDup then [] else [sent[0]]) + Originals(sent[1..])
  }

  lemma {:induction false} OriginalsConcat(a: seq<Msg>, b: seq<Msg>)
    ensures Originals(a + b) == Originals(a) + Originals(b)
  {
    if a == [] {
      assert a + b == b;
    } else {
      assert (a + b)[1..] == a[1..] + b;
      OriginalsConcat(a[1..], b);
    }
  }

  lemma {:induction false} ReplayHasNoOriginals(store: seq<Msg>, b: SeqNo, e: nat)
    requires e <= |store|
    ensures Originals(Replay(store, b, e)) == []
    decreases e + 1 - b
  {
    if b <= e {
      var r := if Admin(store[b - 1].kind) then RunEnd(store, b, e) else b;
      ReplayHasNoOriginals(store, r + 1, e);
      assert Replay(store, b, e)[1..] == Replay(store, r + 1, e);
    }
  }

  /** The log holds, in order, every message ever sent that is no resend. */
  predicate Complete(s: State) {
    Originals(s.sent) == s.store
  }

  /** Entry n - 1 of the log is message n, and the next number is the first one not in the log. */
  predicate Aligned(s: State) {
    Numbered(s.store) && (s.stopped || s.nextOut == |s.store| + 1)
  }

  lemma EmitKeepsLog(s: State, k: Kind)
    requires s.Ok()
    ensures Complete(s) ==> Complete(Emit(s, k))
    ensures Aligned(s) ==> Aligned(Emit(s, k))
  {
    OriginalsConcat(s.sent, [Msg(s.nextOut, k, false)]);
    assert [Msg(s.nextOut, k, false)][1..] == [];
  }

  /** Answering a resend request sends copies only: the log and the next number stay. */
  lemma ResendKeepsLog(s: State, b: SeqNo, e: nat)
    requires s.Ok() && !s.stopped
    ensures
      var r := HandleResendRequest(s, b, e);
      && r.store == s.store && r.nextOut == s.nextOut
      && (Complete(s) ==> Complete(r))
  {
    ReplayHasNoOriginals(s.store, b, ClampEnd(s, e));
    OriginalsConcat(s.sent, Replay(s.store, b, ClampEnd(s, e)));
  }

  /** `r` has a complete log, and an aligned one exactly under the condition `kept`. */
  predicate LogAfter(s: State, r: State, kept: bool) {
    Complete(r) && (Aligned(s) ==> (Aligned(r) <==> kept))
  }

  /** A logon that is refused, or resets nothing, adds at most one message to the log. */
  lemma PlainLogonKeepsLog(s: State, m: Inbound)
    requires s.Ok() && !s.stopped && Complete(s) && m.kind.Logon? && !ResettingLogon(s.cfg, m)
    ensures LogAfter(s, Handle(s, m), true)
  {
    EmitKeepsLog(s, Logout);
    EmitKeepsLog(s, Logon(m.kind.heartBtInt, m.kind.resetSeqNum));
  }

  /** A resetting logon is answered by message 1, whatever is stored already. */
  lemma ResettingLogonKeepsLog(s: State, m: Inbound)
    requires s.Ok() && !s.stopped && Complete(s) && ResettingLogon(s.cfg, m)
    ensures LogAfter(s, Handle(s, m), s.store == [])
  {
    var r := Handle(s, m);
    EmitKeepsLog(s.(nextOut := 1), Logon(m.kind.heartBtInt, true));
    assert r.store == s.store + [Msg(1, Logon(m.kind.heartBtInt, true), false)];
    if s.store != [] {
      assert r.store[|s.store|].num == 1;
    }
  }

  lemma OtherKeepsLog(s: State, m: Inbound)
    requires s.Ok() && !s.stopped && Complete(s) && !m.kind.Logon?
    ensures LogAfter(s, Handle(s, m), true)
  {
    match m.kind
    case Logout => EmitKeepsLog(s, Logout);
    case TestRequest(id) => EmitKeepsLog(s, Heartbeat(id));
    case ResendRequest(b, e) => ResendKeepsLog(s, b, e);
    case SequenceReset(_, _) => EmitKeepsLog(s, Logout);
    case Custom(_) => EmitKeepsLog(s, Custom(REPLY_HEAD + s.cfg.readableId));
    case _ =>
  }

  /** Every handler keeps the log complete. It keeps the log aligned with the numbers given out
      unless it honours a logon that resets them after something was stored: the reset leaves the
      store alone. */
  lemma HandleKeepsLog(s: State, m: Inbound)
    requires s.Ok() && !s.stopped && Complete(s)
    ensures LogAfter(s, Handle(s, m), !ResettingLogon(s.cfg, m) || s.store == [])
  {
    if ResettingLogon(s.cfg, m) {
      ResettingLogonKeepsLog(s, m);
    } else if m.kind.Logon? {
      PlainLogonKeepsLog(s, m);
    } else {
      OtherKeepsLog(s, m);
    }
  }

  /** None of the messages handled between `s` and `r` is a resetting logon. */
  predicate NoReset(s: State, r: State) {
    forall i | |s.handled| <= i < |r.handled| :: !ResettingLogon(s.cfg, r.handled[i])
  }

  /** `r` has a complete log if `s` has; and an aligned one if numbers were not reset in between. */
  predicate KeepsLog(s: State, r: State) {
    && r.cfg == s.cfg
    && s.handled <= r.handled
    && (Complete(s) ==> Complete(r))
    && (Complete(s) && Aligned(s) && NoReset(s, r) ==> Aligned(r))
  }

  lemma KeepsLogTransitive(s: State, t: State, r: State)
    requires KeepsLog(s, t) && KeepsLog(t, r)
    ensures KeepsLog(s, r)
  {
    if NoReset(s, r) {
      forall i | |s.handled| <= i < |t.handled| ensures !ResettingLogon(s.cfg, t.handled[i]) {
        assert t.handled[i] == r.handled[i];
      }
    }
  }

  lemma DispatchKeepsLog(s: State, v: View, w: Wire)
    requires s.Ok()
    ensures KeepsLog(s, Dispatch(s, v, w))
  {
    var r := Dispatch(s, v, w);
    DispatchHandles(s, v, w);
    if Reaches(s, v) != [] {
      var s1 := s.(nextIn := v.msg.num + 1, handled := s.handled + [v.msg]);
      assert r == Handle(s1, v.msg);
      if Complete(s) {
        HandleKeepsLog(s1, v.msg);
        assert r.handled[|s.handled|] == v.msg;
      }
    } else {
      EmitKeepsLog(s, Logout);
      match v
      case Invalid(ref) => EmitKeepsLog(s, Reject(ref));
      case Valid(m) => if m.num > s.nextIn { EmitKeepsLog(s, ResendRequest(s.nextIn, m.num - 1)); }
      case _ =>
    }
  }

  lemma {:induction false} DrainLoopKeepsLog(view: Wire -> View, s: State)
    requires s.Ok() && CacheReads(view, s)
    ensures KeepsLog(s, DrainLoop(view, s))
    decreases |s.cache|
  {
    if s.nextIn in s.cache {
      var e := s.nextIn;
      var s1 := Dispatch(s, view(s.cache[e]), s.cache[e]);
      DispatchKeepsLog(s, view(s.cache[e]), s.cache[e]);
      var s2 := s1.(cache := s1.cache - {e});
      assert KeepsLog(s, s2);
      DrainLoopKeepsLog(view, s2);
      KeepsLogTransitive(s, s2, DrainLoop(view, s2));
    }
  }

  lemma ProcessKeepsLog(view: Wire -> View, s: State, w: Wire)
    requires s.Ok() && CacheReads(view, s)
    ensures KeepsLog(s, Process(view, s, w))
  {
    var v := view(w);
    if v.ParseError? {
      var s1 := StopWithLogout(s);
      EmitKeepsLog(s, Logout);
      DrainLoopKeepsLog(view, s1);
      KeepsLogTransitive(s, s1, Drain(view, s1));
    } else {
      var s1 := Dispatch(s, v, w);
      DispatchKeepsLog(s, v, w);
      DrainLoopKeepsLog(view, s1);
      KeepsLogTransitive(s, s1, Drain(view, s1));
    }
  }

  lemma ApplyKeepsLog(view: Wire -> View, s: State, e: Event)
    requires s.Ok() && CacheReads(view, s)
    ensures KeepsLog(s, Apply(view, s, e))
  {
    match e
    case Receive(w) => ProcessKeepsLog(view, s, w);
    case SendFromApp(k) => EmitKeepsLog(s, k);
    case HeartbeatDue => EmitKeepsLog(s, Heartbeat([]));
    case SilenceDue(id) =>
      EmitKeepsLog(s, Logout);
      EmitKeepsLog(s, TestRequest(id));
    case LogoutRequested => EmitKeepsLog(s, Logout);
    case Reconnected => EmitKeepsLog(s, Logon(s.heartBeatInt, false));
    case _ =>
  }

  /** Over every run the log is exactly what was sent, without the resends, and stays aligned with
      the numbers given out as long as no resetting logon is handled. */
  lemma {:induction false} RunKeepsLog(view: Wire -> View, s: State, es: seq<Event>)
    requires s.Ok() && CacheReads(view, s)
    ensures KeepsLog(s, Run(view, s, es))
    decreases |es|
  {
    if es != [] {
      var s1 := Apply(view, s, es[0]);
      ApplyKeepsLog(view, s, es[0]);
      RunKeepsLog(view, s1, es[1..]);
      KeepsLogTransitive(s, s1, Run(view, s1, es[1..]));
    }
  }

  lemma StartIsAligned(cfg: Config, hb: nat)
    ensures Complete(Start(cfg, hb)) && Aligned(Start(cfg, hb))
  {
    var m := Msg(1, Logon(hb, cfg.initiatorResetOnLogon), false);
    assert [m][1..] == [];
    assert Originals([m]) == [m];
  }

  /** From the start of a session that never resets numbers on logon, the log is complete and aligned
      for good. */
  lemma StartedRunIsAligned(view: Wire -> View, cfg: Config, hb: nat, es: seq<Event>)
    requires cfg.role.Initiator? || !cfg.acceptorResetOnLogon
    ensures Complete(Run(view, Start(cfg, hb), es)) && Aligned(Run(view, Start(cfg, hb), es))
  {
    var s := Start(cfg, hb);
    StartIsAligned(cfg, hb);
    RunKeepsLog(view, s, es);
    assert NoReset(s, Run(view, s, es));
  }
}
