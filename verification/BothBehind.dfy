/** A connection on which both ends have missed messages. Each asks, and files the request of the other
    behind its own gap: neither is ever answered. */
module BothBehind {
  import opened Bytes
  import opened Protocol
  import opened SessionSpec
  import opened SessionRuns
  import opened Draining
  import opened Answering
  import opened TwoEnds

  /** `y` still expects what it expected as `y0`, and all that is cached or comes in is above that, inside
      the window. As long as it is not recovering, `x` has not said anything but admin messages first. */
  ghost predicate Shut(view: Wire -> View, x: State, y: State, xy: seq<Msg>, y0: State) {
    && OkEnd(view, y) && !y.stopped && NotYet(y.phase) && 1 <= y.nextIn == y0.nextIn
    && y.handled == y0.handled && y.delivered == y0.delivered
    && (forall i | 0 <= i < |xy| :: y.nextIn < xy[i].num <= |x.store| && IsInbound(xy[i]))
    && (x.phase == AwaitingLogon ==> x.cfg.role.Acceptor?)
    && (if y.phase == RecoveringResend then
          y.base == y.nextIn && y.cache != map[] && forall k | k in y.cache :: y.nextIn < k
        else if xy == [] then x.phase == AwaitingLogon
        else Admin(xy[0].kind))
  }

  /** Since `s0`, everything that was sent was stored too: it was no answer to a request. */
  predicate OnlyOriginals(s0: State, s: State) {
    s0.sent <= s.sent && s0.store <= s.store && s.sent[|s0.sent|..] == s.store[|s0.store|..]
  }

  lemma OriginalsMore(s0: State, s: State, r: State, ks: seq<Kind>)
    requires OnlyOriginals(s0, s) && Replied(s, r, ks)
    ensures OnlyOriginals(s0, r)
  {
    var news := Stamped(s.nextOut, ks);
    assert r.sent[|s0.sent|..] == s.sent[|s0.sent|..] + news;
    assert r.store[|s0.store|..] == s.store[|s0.store|..] + news;
  }

  /** Both ends are shut, both go on being behind, and neither answers. */
  ghost predicate ShutBoth(view: Wire -> View, l: Link, a0: State, b0: State) {
    && OnlyOriginals(a0, l.a) && OnlyOriginals(b0, l.b)
    && Shut(view, l.b, l.a, l.ba, a0) && Shut(view, l.a, l.b, l.ab, b0)
    && Logged(l.a) && Logged(l.b) && l.b.nextIn < l.a.nextOut && l.a.nextIn < l.b.nextOut
  }

  /** An initiator and an acceptor that are both shut. */
  ghost predicate Blocked(view: Wire -> View, l: Link, a0: State, b0: State) {
    ShutBoth(view, l, a0, b0) && l.a.phase != AwaitingLogon && l.b.phase != LogonSent
  }

  lemma ShutAfterRead(view: Wire -> View, x: State, y: State, r: State, xy: seq<Msg>, y0: State)
    requires Shut(view, x, y, xy, y0) && xy != [] && OkEnd(view, r)
    requires r.phase == RecoveringResend && !r.stopped && r.nextIn == y.nextIn == r.base
    requires r.handled == y.handled && r.delivered == y.delivered
    requires r.cache != map[] && forall k | k in r.cache :: r.nextIn < k
    ensures Shut(view, x, r, xy[1..], y0)
  {
    forall i | 0 <= i < |xy[1..]| ensures xy[1..][i] == xy[i + 1] {
    }
  }

  /** What an end says more, on its way to a shut one. */
  lemma ShutAfterSaying(view: Wire -> View, x: State, r: State, y: State, xy: seq<Msg>, y0: State, ks: seq<Kind>)
    requires Shut(view, x, y, xy, y0) && Logged(x) && Replied(x, r, ks) && y.nextIn < x.nextOut
    requires r.cfg == x.cfg && (r.phase == AwaitingLogon ==> x.phase == AwaitingLogon)
    requires forall k | k in ks :: !k.ResendRequest? || k.beginSeqNo >= 1
    requires if ks == [] then r.phase == AwaitingLogon <==> x.phase == AwaitingLogon
             else x.phase == AwaitingLogon ==> Admin(ks[0])
    ensures Shut(view, r, y, xy + Stamped(x.nextOut, ks), y0)
  {
    var news := Stamped(x.nextOut, ks);
    forall i | 0 <= i < |news| ensures IsInbound(news[i]) {
      assert ks[i] in ks;
    }
  }

  lemma ReadStaysShut(view: Wire -> View, printed: Msg -> Wire, l: Link, a0: State, b0: State)
    requires ShutBoth(view, l, a0, b0) && Prints(view, printed) && Roomy(l.a, l.b)
    ensures ShutBoth(view, Reading(view, printed, l), a0, b0)
    ensures l.b.phase == RecoveringResend ==> Reading(view, printed, l).b.phase == RecoveringResend
    ensures l.ab != [] ==> Reading(view, printed, l).b.phase == RecoveringResend
  {
    if l.ab != [] {
      var m, r := l.ab[0], Reading(view, printed, l);
      var b, ks := EarlyRead(view, l.b, m, printed(m));
      ReadingSays(view, printed, l, ks);
      ShutAfterRead(view, l.a, l.b, b, l.ab, b0);
      ShutAfterSaying(view, l.b, b, l.a, l.ba, a0, ks);
      LoggedMore(l.b, b, ks);
      OriginalsMore(b0, l.b, b, ks);
    }
  }

  lemma SendStaysShut(view: Wire -> View, l: Link, e: Event, a0: State, b0: State)
    requires ShutBoth(view, l, a0, b0) && MaySpeak(l.a, e, false)
    ensures ShutBoth(view, Sending(view, l, e), a0, b0)
    ensures Sending(view, l, e).a.phase == l.a.phase
  {
    var r, k := Sending(view, l, e), SentKind(e);
    SendIsEmit(view, l, e);
    LoggedMore(l.a, r.a, [k]);
    OriginalsMore(a0, l.a, r.a, [k]);
    ShutAfterSaying(view, l.a, r.a, l.b, l.ab, b0, [k]);
  }

  lemma FlipShut(view: Wire -> View, l: Link, a0: State, b0: State)
    requires ShutBoth(view, l, a0, b0)
    ensures ShutBoth(view, Flip(l), b0, a0)
  {
  }

  /** No allowed move inside the windows unblocks the connection, and an end in recovery stays there. */
  lemma MoveStaysBlocked(view: Wire -> View, printed: Msg -> Wire, l: Link, m: Move, a0: State, b0: State)
    requires Blocked(view, l, a0, b0) && Prints(view, printed)
    requires Roomy(l.a, l.b) && Roomy(l.b, l.a) && Allowed(l, m, false)
    ensures
      var r := Moved(view, printed, l, m);
      && Blocked(view, r, a0, b0)
      && (l.a.phase == RecoveringResend ==> r.a.phase == RecoveringResend)
      && (l.b.phase == RecoveringResend ==> r.b.phase == RecoveringResend)
  {
    FlipShut(view, l, a0, b0);
    match m
    case ReadB =>
      ReadStaysShut(view, printed, l, a0, b0);
    case ReadA =>
      ReadStaysShut(view, printed, Flip(l), b0, a0);
      FlipShut(view, Reading(view, printed, Flip(l)), b0, a0);
    case SendA(e) =>
      SendStaysShut(view, l, e, a0, b0);
    case SendB(e) =>
      SendStaysShut(view, Flip(l), e, b0, a0);
      FlipShut(view, Sending(view, Flip(l), e), b0, a0);
  }

  lemma {:induction false} RunStaysBlocked(view: Wire -> View, printed: Msg -> Wire, l: Link, ms: seq<Move>,
                                           a0: State, b0: State)
    requires OkLink(view, l) && Blocked(view, l, a0, b0) && Prints(view, printed)
    requires RunAllowed(view, printed, l, ms, false)
    ensures
      var r := RunLink(view, printed, l, ms);
      && Blocked(view, r, a0, b0)
      && (l.a.phase == RecoveringResend ==> r.a.phase == RecoveringResend)
      && (l.b.phase == RecoveringResend ==> r.b.phase == RecoveringResend)
    decreases |ms|
  {
    if ms != [] {
      MoveStaysBlocked(view, printed, l, ms[0], a0, b0);
      RunStaysBlocked(view, printed, Moved(view, printed, l, ms[0]), ms[1..], a0, b0);
    }
  }

  /** Both ends have missed something when they reconnect. */
  predicate BehindEachOther(a: State, b: State) {
    1 <= a.nextIn < b.nextOut && 1 <= b.nextIn < a.nextOut
  }

  lemma ConnectedIsBlocked(view: Wire -> View, a: State, b: State)
    requires OkEnd(view, a) && OkEnd(view, b) && Peers(a, b) && BehindEachOther(a, b)
    ensures OkLink(view, Connected(a, b)) && Blocked(view, Connected(a, b), a, b)
  {
    var l, k := Connected(a, b), Logon(a.heartBeatInt, false);
    assert Replied(a, l.a, [k]);
    LoggedMore(a, l.a, [k]);
    OriginalsMore(a, a, l.a, [k]);
    assert l.ab == [Msg(a.nextOut, k, false)] && l.ba == [];
  }

  /** If both ends have missed something, then over every run of reads and sends inside the windows neither
      handles or delivers anything, neither answers a request, and neither becomes active. Once everything sent
      has been read, both are recovering. */
  lemma NeitherRecovers(view: Wire -> View, printed: Msg -> Wire, a: State, b: State, ms: seq<Move>)
    requires OkEnd(view, a) && OkEnd(view, b) && Peers(a, b) && BehindEachOther(a, b) && Prints(view, printed)
    requires RunAllowed(view, printed, Connected(a, b), ms, false)
    ensures
      var r := RunLink(view, printed, Connected(a, b), ms);
      && r.a.handled == a.handled && r.b.handled == b.handled
      && r.a.delivered == a.delivered && r.b.delivered == b.delivered
      && r.a.nextIn == a.nextIn && r.b.nextIn == b.nextIn
      && OnlyOriginals(a, r.a) && OnlyOriginals(b, r.b)
      && r.a.phase != Active && r.b.phase != Active && !r.a.stopped && !r.b.stopped
      && (r.ab == [] && r.ba == [] ==> r.a.phase == RecoveringResend && r.b.phase == RecoveringResend)
  {
    ConnectedIsBlocked(view, a, b);
    RunStaysBlocked(view, printed, Connected(a, b), ms, a, b);
  }

  /** The request of an end that sees message `m` early. */
  function Asked(s: State, m: Msg): Msg
    requires s.nextIn < m.num
  {
    Msg(s.nextOut, ResendRequest(s.nextIn, m.num - 1), false)
  }

  /** A first early message is filed and asked about. */
  lemma OpeningRead(view: Wire -> View, printed: Msg -> Wire, l: Link, m: Inbound) returns (r: Link, req: Msg)
    requires OkLink(view, l) && Prints(view, printed) && l.ab == [m] && l.ba == []
    requires !l.b.stopped && (l.b.phase == AwaitingLogon || l.b.phase == LogonSent) && Admin(m.kind)
    requires l.b.nextIn < m.num < l.b.nextIn + WINDOW
    ensures r == Reading(view, printed, l) && OkLink(view, r)
    ensures req == Asked(l.b, m) && r == Link(l.a, r.b, [], [req])
    ensures Filing(r.b) && r.b.nextIn == l.b.nextIn && r.b.handled == l.b.handled && r.b.sent == l.b.sent + [req]
  {
    r, req := Reading(view, printed, l), Asked(l.b, m);
    var b, ks := EarlyRead(view, l.b, m, printed(m));
    ReadingSays(view, printed, l, ks);
    assert Stamped(l.b.nextOut, ks) == [req];
  }

  /** An end that only files what comes in. */
  predicate Filing(s: State) {
    && s.phase == RecoveringResend && !s.stopped && s.base == s.nextIn
    && s.cache != map[] && forall k | k in s.cache :: s.nextIn < k
  }

  /** The next one is only filed. */
  lemma FilingRead(view: Wire -> View, printed: Msg -> Wire, l: Link, m: Inbound) returns (r: Link)
    requires OkLink(view, l) && Prints(view, printed) && l.ab == [m] && l.ba == []
    requires Filing(l.b) && l.b.nextIn < m.num < l.b.nextIn + WINDOW
    ensures r == Reading(view, printed, l) && r == Link(l.a, r.b, [], [])
    ensures Filing(r.b) && r.b.handled == l.b.handled && r.b.sent == l.b.sent
  {
    r := Reading(view, printed, l);
    var b, ks := EarlyRead(view, l.b, m, printed(m));
    ReadingSays(view, printed, l, ks);
  }

  /** Three moves: the initiator's Logon, the acceptor's request, and the initiator's request, which is filed. */
  function AfterThree(view: Wire -> View, printed: Msg -> Wire, l: Link): Link
    requires OkLink(view, l)
  {
    var l1 := Reading(view, printed, l);
    var l2 := Flip(Reading(view, printed, Flip(l1)));
    Reading(view, printed, l2)
  }

  lemma RunThree(view: Wire -> View, printed: Msg -> Wire, l: Link)
    requires OkLink(view, l)
    ensures RunLink(view, printed, l, [ReadB, ReadA, ReadB]) == AfterThree(view, printed, l)
  {
    var l1, l2 := Moved(view, printed, l, ReadB), Moved(view, printed, Moved(view, printed, l, ReadB), ReadA);
    assert [ReadB, ReadA, ReadB][1..] == [ReadA, ReadB] && [ReadA, ReadB][1..] == [ReadB] && [ReadB][1..] == [];
    assert RunLink(view, printed, l2, [ReadB]) == Moved(view, printed, l2, ReadB);
    assert RunLink(view, printed, l1, [ReadA, ReadB]) == RunLink(view, printed, l2, [ReadB]);
  }

  lemma ConnectedSays(view: Wire -> View, a: State, b: State) returns (l: Link, logon: Msg)
    requires OkEnd(view, a) && OkEnd(view, b) && Peers(a, b)
    ensures l == Connected(a, b) && OkLink(view, l) && logon == Msg(a.nextOut, Logon(a.heartBeatInt, false), false)
    ensures l.ab == [logon] && l.ba == [] && l.a.sent == a.sent + [logon] && l.b.sent == b.sent
    ensures l.a.phase == LogonSent && l.b.phase == AwaitingLogon && !l.a.stopped && !l.b.stopped
    ensures l.a.nextIn == a.nextIn && l.b.nextIn == b.nextIn
    ensures l.a.nextOut == a.nextOut + 1 && l.b.nextOut == b.nextOut
    ensures l.a.handled == a.handled && l.b.handled == b.handled
  {
    l, logon := Connected(a, b), Msg(a.nextOut, Logon(a.heartBeatInt, false), false);
  }

  /** Such a run. Everything sent is read, both ends recover, and neither has anything more to say. */
  lemma BothAskInVain(view: Wire -> View, printed: Msg -> Wire, a: State, b: State)
    returns (r: Link, logon: Msg, req: Msg, req': Msg)
    requires OkEnd(view, a) && OkEnd(view, b) && Peers(a, b) && BehindEachOther(a, b) && Prints(view, printed)
    requires a.nextOut + 1 < b.nextIn + WINDOW && b.nextOut < a.nextIn + WINDOW
    ensures logon.num == a.nextOut && logon.kind.Logon?
    ensures req == Asked(b, logon) && req' == Asked(a, req).(num := a.nextOut + 1)
    ensures r == RunLink(view, printed, Connected(a, b), [ReadB, ReadA, ReadB])
    ensures r.ab == [] && r.ba == [] && r.a.phase == RecoveringResend && r.b.phase == RecoveringResend
    ensures r.a.handled == a.handled && r.b.handled == b.handled
    ensures r.a.sent == (a.sent + [logon]) + [req'] && r.b.sent == b.sent + [req]
  {
    var l, hello := ConnectedSays(view, a, b);
    logon := hello;
    var l1, ask := OpeningRead(view, printed, l, logon);
    req := ask;
    var l2, ask' := OpeningRead(view, printed, Flip(l1), req);
    req' := ask';
    r := FilingRead(view, printed, Flip(l2), req');
    RunThree(view, printed, l);
  }
}
