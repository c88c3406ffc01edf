/** What happens to a session by itself: timers, requests of its owner, a new connection; and that a stopped one stays
    as it is. */
module OwnEvents {
  import opened Bytes
  import opened Protocol
  import opened SessionSpec
  import opened SessionRuns
  import opened Draining
  import opened RecoveryPhase
  import opened Arriving

  /** Nothing happened but that the session stopped, without a word. */
  predicate OnlyStopped(s: State, r: State) {
    r == s.(phase := Disconnected, stopped := true)
  }

  /** What the session does by itself: it sends one message, stops without a word, or stays as it is. */
  lemma OwnEvent(view: Wire -> View, s: State, e: Event)
    requires s.Ok() && CacheReads(view, s) && !s.stopped && !e.Receive? && !e.Reconnected?
    ensures
      var r := Apply(view, s, e);
      match e
      case SendFromApp(k) => OnlySaid(s, r, k, s.phase)
      case HeartbeatDue => OnlySaid(s, r, Heartbeat([]), s.phase)
      case SilenceDue(id) =>
        if s.awaitingTestReply then OnlySaid(s, r, Logout, AwaitingLogout)
        else OnlySaid(s.(awaitingTestReply := true), r, TestRequest(id), s.phase)
      case LogonOverdue(expected) => if s.phase == expected then OnlyStopped(s, r) else r == s
      case LogoutRequested => OnlySaid(s, r, Logout, AwaitingLogout)
      case StopRequested => OnlyStopped(s, r)
      case _ => true
  {
  }

  /** On a new connection nothing that was handled, stored or counted is lost, nothing is cached and no sign of life
      is waited for; an initiator says its Logon, with its interval and without a reset, and an acceptor waits. */
  lemma NewConnection(view: Wire -> View, s: State)
    requires s.Ok() && CacheReads(view, s) && !s.stopped
    ensures
      var r, anew := Apply(view, s, Reconnected), s.(awaitingTestReply := false, base := 0, cache := map[]);
      if s.cfg.role.Initiator? then OnlySaid(anew, r, Logon(s.heartBeatInt, false), LogonSent)
      else r == anew.(phase := AwaitingLogon)
  {
  }

  /** A session starts with number 1 both ways and nothing sent, but for the Logon of an initiator. */
  lemma Started(cfg: Config, hb: nat)
    ensures
      var r := Start(cfg, hb);
      && r.cfg == cfg && r.heartBeatInt == hb && !r.stopped && r.nextIn == 1 && r.cache == map[]
      && r.handled == [] && r.delivered == [] && !r.awaitingTestReply && r.store == r.sent
      && r.phase == (if cfg.role.Initiator? then LogonSent else AwaitingLogon)
      && r.sent == (if cfg.role.Initiator? then [Msg(1, Logon(hb, cfg.initiatorResetOnLogon), false)] else [])
      && r.nextOut == |r.sent| + 1
  {
  }

  /** Over every run, whatever arrives: a session that was stopped outside of a recovery stays exactly as it is. */
  lemma {:induction false} StoppedIsFinal(view: Wire -> View, s: State, es: seq<Event>)
    requires s.Ok() && CacheReads(view, s) && s.stopped && s.phase != RecoveringResend
    ensures Run(view, s, es) == s
    decreases |es|
  {
    if es != [] {
      StoppedIsFinal(view, s, es[1..]);
    }
  }

  /** A session that is stopped, by whatever event, is not in a recovery. */
  lemma StopsOutside(view: Wire -> View, s: State, e: Event)
    requires s.Ok() && CacheReads(view, s) && !s.stopped && RecoveryOk(s) && Apply(view, s, e).stopped
    ensures Apply(view, s, e).phase != RecoveringResend
  {
    if e.Receive? {
      StopsWhileReading(view, s, e.wire);
    }
  }

  lemma StopsWhileReading(view: Wire -> View, s: State, w: Wire)
    requires s.Ok() && CacheReads(view, s) && !s.stopped && RecoveryOk(s) && Process(view, s, w).stopped
    ensures Process(view, s, w).phase != RecoveringResend
  {
    var s1, v := Received(view, s, w), view(w);
    if v.Valid? && Expected(s, v.msg) {
      DispatchOutcome(s, v.msg, w);
    }
    if s1.phase == RecoveringResend && s1.cache != map[] {
      DrainWalks(view, s1);
      var h := Drained(view, s1).handled;
      if HasLogout(h) { SettledElsewhere(TermsOf(s1), s1.phase, h); }
    }
  }

  /** So from the event that stops a session on, it stays exactly as it is, over every run. */
  lemma StoppedOnceStoppedForGood(view: Wire -> View, s: State, e: Event, es: seq<Event>)
    requires s.Ok() && CacheReads(view, s) && !s.stopped && RecoveryOk(s) && Apply(view, s, e).stopped
    ensures Run(view, Apply(view, s, e), es) == Apply(view, s, e)
  {
    StopsOutside(view, s, e);
    StoppedIsFinal(view, Apply(view, s, e), es);
  }
}
