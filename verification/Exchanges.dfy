/** What two sessions that have missed nothing say to each other: logging on, signs of life, requests, and logging
    out. */
module Exchanges {
  import opened Bytes
  import opened Protocol
  import opened SessionSpec
  import opened TwoEnds

  lemma RunOne(view: Wire -> View, printed: Msg -> Wire, l: Link, m: Move, ms: seq<Move>)
    requires OkLink(view, l)
    ensures RunLink(view, printed, l, [m] + ms) == RunLink(view, printed, Moved(view, printed, l, m), ms)
    ensures RunLink(view, printed, l, [m]) == Moved(view, printed, l, m)
  {
    assert ([m] + ms)[1..] == ms && [m][1..] == [];
  }

  lemma RunThree(view: Wire -> View, printed: Msg -> Wire, l: Link, m1: Move, m2: Move, m3: Move)
    returns (l1: Link, l2: Link, l3: Link)
    requires OkLink(view, l)
    ensures l1 == Moved(view, printed, l, m1) && OkLink(view, l1)
    ensures l2 == Moved(view, printed, l1, m2) && OkLink(view, l2)
    ensures l3 == Moved(view, printed, l2, m3) == RunLink(view, printed, l, [m1, m2, m3])
  {
    l1 := Moved(view, printed, l, m1);
    l2 := Moved(view, printed, l1, m2);
    l3 := Moved(view, printed, l2, m3);
    assert [m1, m2, m3] == [m1] + [m2, m3] && [m2, m3] == [m2] + [m3];
    RunOne(view, printed, l, m1, [m2, m3]);
    RunOne(view, printed, l1, m2, [m3]);
    RunOne(view, printed, l2, m3, []);
  }

  lemma ReadByB(view: Wire -> View, printed: Msg -> Wire, l: Link, b: State, said: seq<Msg>)
    requires OkLink(view, l) && l.ab != [] && b == Process(view, l.b, printed(l.ab[0])) && b.sent == l.b.sent + said
    ensures Moved(view, printed, l, ReadB) == Link(l.a, b, l.ab[1..], l.ba + said)
  {
  }

  lemma ReadByA(view: Wire -> View, printed: Msg -> Wire, l: Link, a: State, said: seq<Msg>)
    requires OkLink(view, l) && l.ba != [] && a == Process(view, l.a, printed(l.ba[0])) && a.sent == l.a.sent + said
    ensures Moved(view, printed, l, ReadA) == Link(a, l.b, l.ab + said, l.ba[1..])
  {
  }

  lemma SentByA(view: Wire -> View, printed: Msg -> Wire, l: Link, e: Event, a: State, said: seq<Msg>)
    requires OkLink(view, l) && a == Apply(view, l.a, e) && a.sent == l.a.sent + said
    ensures Moved(view, printed, l, SendA(e)) == Link(a, l.b, l.ab + said, l.ba)
  {
  }

  // ---- logging on ----

  /** An initiator and an acceptor that were just started, with the Logon of the one on its way. */
  function Met(ci: Config, hb: nat, ca: Config, other: nat): Link {
    Link(Start(ci, hb), Start(ca, other), Start(ci, hb).sent, Start(ca, other).sent)
  }

  /** Both are active on the initiator's interval, each has used one number and expects the second, and nothing is
      on its way. */
  predicate LoggedOn(l: Link, hb: nat) {
    && l.a.phase == Active && l.b.phase == Active && !l.a.stopped && !l.b.stopped
    && l.a.heartBeatInt == hb && l.b.heartBeatInt == hb
    && l.a.nextIn == 2 && l.b.nextIn == 2 && l.a.nextOut == 2 && l.b.nextOut == 2
    && l.ab == [] && l.ba == []
  }

  predicate GivenUp(l: Link) {
    && l.a.stopped && l.b.stopped && l.a.phase == Disconnected && l.b.phase == Disconnected
    && l.ab == [] && l.ba == [] && l.a.delivered == [] && l.b.delivered == []
  }

  lemma AcceptorReads(view: Wire -> View, ca: Config, other: nat, hb: nat, reset: bool, w: Wire) returns (r: State)
    requires ca.role.Acceptor? && view(w) == Valid(Msg(1, Logon(hb, reset), false))
    ensures r == Process(view, Start(ca, other), w)
    ensures
      var good := 10 <= hb <= 120 && (reset ==> ca.acceptorResetOnLogon);
      && r.sent == [Msg(1, if good then Logon(hb, reset) else Logout, false)] && r.store == r.sent && r.nextOut == 2
      && r.phase == (if good then Active else AwaitingLogout) && !r.stopped && r.nextIn == 2
      && (good ==> r.heartBeatInt == hb) && r.delivered == [] && r.cfg == ca
  {
    r := Process(view, Start(ca, other), w);
  }

  lemma InitiatorReads(view: Wire -> View, ci: Config, hb: nat, good: bool, w: Wire) returns (r: State)
    requires ci.role.Initiator? && (good ==> 10 <= hb <= 120)
    requires view(w) == Valid(Msg(1, if good then Logon(hb, ci.initiatorResetOnLogon) else Logout, false))
    ensures
      var a := Start(ci, hb);
      && r == Process(view, a, w)
      && (good ==> r.phase == Active && !r.stopped && r.nextIn == 2 && r.nextOut == 2 && r.heartBeatInt == hb
                   && r.sent == a.sent)
      && (!good ==> r.stopped && r.phase == Disconnected && r.sent == a.sent + [Msg(2, Logout, false)])
      && r.delivered == []
  {
    r := Process(view, Start(ci, hb), w);
  }

  lemma AcceptorLeaves(view: Wire -> View, b: State, w: Wire) returns (r: State)
    requires b.Ok() && CacheReads(view, b) && b.phase == AwaitingLogout && !b.stopped && b.nextIn == 2
    requires view(w) == Valid(Msg(2, Logout, false))
    ensures r == Process(view, b, w) && r.stopped && r.phase == Disconnected && r.sent == b.sent
    ensures r.delivered == b.delivered
  {
    r := Process(view, b, w);
  }

  /** Logging on succeeds exactly if the interval is from 10 to 120 and a reset that the initiator asks for is
      allowed by the acceptor; otherwise both give up, and nothing was delivered. */
  lemma LogonExactly(view: Wire -> View, printed: Msg -> Wire, ci: Config, hb: nat, ca: Config, other: nat)
    requires Prints(view, printed) && ci.role.Initiator? && ca.role.Acceptor?
    ensures
      var r := RunLink(view, printed, Met(ci, hb, ca, other), [ReadB, ReadA, ReadB]);
      if 10 <= hb <= 120 && (ci.initiatorResetOnLogon ==> ca.acceptorResetOnLogon) then LoggedOn(r, hb)
      else GivenUp(r)
  {
    var good := 10 <= hb <= 120 && (ci.initiatorResetOnLogon ==> ca.acceptorResetOnLogon);
    var asked := Msg(1, Logon(hb, ci.initiatorResetOnLogon), false);
    var answer := Msg(1, if good then Logon(hb, ci.initiatorResetOnLogon) else Logout, false);
    var l := Met(ci, hb, ca, other);
    var l1, l2, l3 := RunThree(view, printed, l, ReadB, ReadA, ReadB);
    assert l == Link(Start(ci, hb), Start(ca, other), [asked], []) && l.b.sent == [];
    var b := AcceptorReads(view, ca, other, hb, ci.initiatorResetOnLogon, printed(asked));
    ReadByB(view, printed, l, b, [answer]);
    assert l1 == Link(l.a, b, [], [answer]);
    var a := InitiatorReads(view, ci, hb, good, printed(answer));
    if good {
      ReadByA(view, printed, l1, a, []);
    } else {
      FollowedOut(view, printed, l1, a, Msg(2, Logout, false));
    }
  }

  /** The refused initiator's Logout lets the acceptor go. */
  lemma FollowedOut(view: Wire -> View, printed: Msg -> Wire, l1: Link, a: State, m: Msg)
    requires OkLink(view, l1) && Prints(view, printed) && m == Msg(2, Logout, false)
    requires l1.ab == [] && |l1.ba| == 1 && a == Process(view, l1.a, printed(l1.ba[0])) && a.sent == l1.a.sent + [m]
    requires l1.b.phase == AwaitingLogout && !l1.b.stopped && l1.b.nextIn == 2 && l1.b.delivered == []
    requires a.stopped && a.phase == Disconnected && a.delivered == []
    ensures
      var l2 := Moved(view, printed, l1, ReadA);
      OkLink(view, l2) && GivenUp(Moved(view, printed, l2, ReadB))
  {
    ReadByA(view, printed, l1, a, [m]);
    var l2 := Moved(view, printed, l1, ReadA);
    assert l2 == Link(a, l1.b, [m], []);
    var b := AcceptorLeaves(view, l1.b, printed(m));
    ReadByB(view, printed, l2, b, []);
  }

  // ---- when both are level ----

  /** Both active, each expecting what the other sends next, and nothing on its way. */
  predicate Level(l: Link) {
    && l.a.phase == Active && l.b.phase == Active && !l.a.stopped && !l.b.stopped
    && l.a.nextIn == l.b.nextOut && l.b.nextIn == l.a.nextOut
    && l.ab == [] && l.ba == []
  }

  /** Between `l` and `r` the first end has sent one message, of kind `ka`, and the second one of kind `kb`. */
  predicate Exchanged(l: Link, r: Link, ka: Kind, kb: Kind) {
    && r.a.sent == l.a.sent + [Msg(l.a.nextOut, ka, false)]
    && r.b.sent == l.b.sent + [Msg(l.b.nextOut, kb, false)]
  }

  /** An active session that gets the message it expects, of a kind that is answered with `k`. */
  lemma Answers(view: Wire -> View, s: State, m: Inbound, w: Wire, k: Kind) returns (r: State)
    requires s.Ok() && CacheReads(view, s) && s.phase == Active && !s.stopped && m.num == s.nextIn
    requires view(w) == Valid(m)
    requires
      || (m.kind.TestRequest? && k == Heartbeat(m.kind.id))
      || (m.kind.Custom? && !IsReply(m.kind.payload) && k == Custom(REPLY_HEAD + s.cfg.readableId))
    ensures r == Process(view, s, w) && r.sent == s.sent + [Msg(s.nextOut, k, false)] && r.nextOut == s.nextOut + 1
    ensures r.phase == Active && !r.stopped && r.nextIn == s.nextIn + 1 && r.delivered == s.delivered
  {
    r := Process(view, s, w);
  }

  /** Or of a kind that is not answered. */
  lemma TakesNote(view: Wire -> View, s: State, m: Inbound, w: Wire) returns (r: State)
    requires s.Ok() && CacheReads(view, s) && s.phase == Active && !s.stopped && m.num == s.nextIn
    requires view(w) == Valid(m)
    requires m.kind.Heartbeat? || m.kind.App? || m.kind.Reject? || (m.kind.Custom? && IsReply(m.kind.payload))
    ensures r == Process(view, s, w) && r.sent == s.sent && r.nextOut == s.nextOut
    ensures r.phase == Active && !r.stopped && r.nextIn == s.nextIn + 1
    ensures r.delivered == s.delivered + if m.kind.App? then [m] else []
    ensures r.awaitingTestReply <==> s.awaitingTestReply && !m.kind.Heartbeat?
  {
    r := Process(view, s, w);
  }

  /** A question of the first end, the second end's answer, and the first end taking note of it. */
  lemma AskedAndAnswered(view: Wire -> View, printed: Msg -> Wire, l: Link, e: Event, a: State, ka: Kind, kb: Kind)
    returns (r: Link)
    requires OkLink(view, l) && Prints(view, printed) && Level(l) && a == Apply(view, l.a, e)
    requires a.sent == l.a.sent + [Msg(l.a.nextOut, ka, false)] && a.nextOut == l.a.nextOut + 1
    requires a.phase == Active && !a.stopped && a.nextIn == l.a.nextIn && a.delivered == l.a.delivered
    requires
      || (ka.TestRequest? && kb == Heartbeat(ka.id))
      || (ka.Custom? && !IsReply(ka.payload) && kb == Custom(REPLY_HEAD + l.b.cfg.readableId) && IsReply(kb.payload))
    ensures r == RunLink(view, printed, l, [SendA(e), ReadB, ReadA])
    ensures Level(r) && Exchanged(l, r, ka, kb)
    ensures r.a.delivered == l.a.delivered && r.b.delivered == l.b.delivered
    ensures r.a.awaitingTestReply <==> a.awaitingTestReply && !kb.Heartbeat?
  {
    var ma, mb := Msg(l.a.nextOut, ka, false), Msg(l.b.nextOut, kb, false);
    var l1, l2, l3 := RunThree(view, printed, l, SendA(e), ReadB, ReadA);
    SentByA(view, printed, l, e, a, [ma]);
    assert l1 == Link(a, l.b, [ma], []);
    var b := Answers(view, l.b, ma, printed(ma), kb);
    ReadByB(view, printed, l1, b, [mb]);
    assert l2 == Link(a, b, [], [mb]);
    var a' := TakesNote(view, a, mb, printed(mb));
    ReadByA(view, printed, l2, a', []);
    r := l3;
  }

  /** A silent end asks for a sign of life, gets it with the same text, and waits no more. */
  lemma SignOfLife(view: Wire -> View, printed: Msg -> Wire, l: Link, id: Wire)
    requires OkLink(view, l) && Prints(view, printed) && Level(l) && !l.a.awaitingTestReply
    ensures
      var r := RunLink(view, printed, l, [SendA(SilenceDue(id)), ReadB, ReadA]);
      Level(r) && Exchanged(l, r, TestRequest(id), Heartbeat(id)) && !r.a.awaitingTestReply
      && r.a.delivered == l.a.delivered && r.b.delivered == l.b.delivered
  {
    var a := Apply(view, l.a, SilenceDue(id));
    var r := AskedAndAnswered(view, printed, l, SilenceDue(id), a, TestRequest(id), Heartbeat(id));
  }

  lemma RepliesAreReplies(id: Wire)
    ensures IsReply(REPLY_HEAD + id)
  {
    var w := REPLY_HEAD + id;
    assert w[0..0 + |REPLY_MARK|] == REPLY_MARK;
    assert OccursAt(w, REPLY_MARK, 0);
  }

  /** A custom request is answered once: the reply, which names the second end, is not answered again. */
  lemma NoEcho(view: Wire -> View, printed: Msg -> Wire, l: Link, payload: Wire)
    requires OkLink(view, l) && Prints(view, printed) && Level(l) && !IsReply(payload)
    ensures
      var r := RunLink(view, printed, l, [SendA(SendFromApp(Custom(payload))), ReadB, ReadA]);
      Level(r) && Exchanged(l, r, Custom(payload), Custom(REPLY_HEAD + l.b.cfg.readableId))
  {
    RepliesAreReplies(l.b.cfg.readableId);
    var a := Apply(view, l.a, SendFromApp(Custom(payload)));
    var r := AskedAndAnswered(view, printed, l, SendFromApp(Custom(payload)), a, Custom(payload),
                              Custom(REPLY_HEAD + l.b.cfg.readableId));
  }

  // ---- logging out ----

  /** Both have stopped, nothing is on its way, and each has said Logout once since `l`. */
  predicate Parted(l: Link, r: Link) {
    && r.a.stopped && r.b.stopped && r.ab == [] && r.ba == []
    && r.a.sent == l.a.sent + [Msg(l.a.nextOut, Logout, false)]
    && r.b.sent == l.b.sent + [Msg(l.b.nextOut, Logout, false)]
    && r.a.delivered == l.a.delivered && r.b.delivered == l.b.delivered
  }

  /** A Logout in its turn stops a session; one that has not asked for it replies first. */
  lemma LogoutStops(view: Wire -> View, s: State, m: Inbound, w: Wire) returns (r: State)
    requires s.Ok() && CacheReads(view, s) && (s.phase == Active || s.phase == AwaitingLogout) && !s.stopped
    requires m.num == s.nextIn && m.kind == Logout && view(w) == Valid(m)
    ensures r == Process(view, s, w) && r.stopped && r.delivered == s.delivered
    ensures r.sent == s.sent + if s.phase == Active then [Msg(s.nextOut, Logout, false)] else []
  {
    r := Process(view, s, w);
  }

  /** When one end is asked to log out, both part with one Logout each. */
  lemma LogoutParts(view: Wire -> View, printed: Msg -> Wire, l: Link)
    requires OkLink(view, l) && Prints(view, printed) && Level(l)
    ensures Parted(l, RunLink(view, printed, l, [SendA(LogoutRequested), ReadB, ReadA]))
  {
    var a, ma, mb := StopWithLogout(l.a), Msg(l.a.nextOut, Logout, false), Msg(l.b.nextOut, Logout, false);
    var l1, l2, l3 := RunThree(view, printed, l, SendA(LogoutRequested), ReadB, ReadA);
    SentByA(view, printed, l, LogoutRequested, a, [ma]);
    var b := LogoutStops(view, l.b, ma, printed(ma));
    ReadByB(view, printed, l1, b, [mb]);
    assert l2 == Link(a, b, [], [mb]);
    var a' := LogoutStops(view, a, mb, printed(mb));
    ReadByA(view, printed, l2, a', []);
  }
}
