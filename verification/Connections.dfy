/** Whole runs of a connection: when it brings both ends up to date. */
module Connections {
  import opened Bytes
  import opened Protocol
  import opened SessionSpec
  import opened SessionRuns
  import opened Draining
  import opened Answering
  import opened TwoEnds
  import opened Directions
  import opened CatchingUp
  import opened OneBehind
  import opened BothBehind

  // ---- the other way round ----

  function FlipMove(m: Move): Move {
    match m
    case ReadA => ReadB
    case ReadB => ReadA
    case SendA(e) => SendB(e)
    case SendB(e) => SendA(e)
  }

  function FlipMoves(ms: seq<Move>): (r: seq<Move>)
    ensures |r| == |ms|
  {
    if ms == [] then [] else [FlipMove(ms[0])] + FlipMoves(ms[1..])
  }

  lemma {:induction false} RunFlipped(view: Wire -> View, printed: Msg -> Wire, l: Link, ms: seq<Move>)
    requires OkLink(view, l)
    ensures RunLink(view, printed, Flip(l), FlipMoves(ms)) == Flip(RunLink(view, printed, l, ms))
    ensures RunAllowed(view, printed, l, ms, true) ==> RunAllowed(view, printed, Flip(l), FlipMoves(ms), true)
    decreases |ms|
  {
    if ms != [] {
      assert FlipMoves(ms)[0] == FlipMove(ms[0]) && FlipMoves(ms)[1..] == FlipMoves(ms[1..]);
      assert Moved(view, printed, Flip(l), FlipMove(ms[0])) == Flip(Moved(view, printed, l, ms[0]));
      RunFlipped(view, printed, Moved(view, printed, l, ms[0]), ms[1..]);
    }
  }

  // ---- one move ----

  lemma BReads(view: Wire -> View, printed: Msg -> Wire, hb: nat, l: Link, st: Stage, x0: State, y0: State)
    returns (st': Stage)
    requires Healing(view, hb, l, st, x0, y0) && Prints(view, printed) && Roomy(l.a, l.b)
    ensures Rank(st') <= Rank(st) && (st.Missing? && l.ab != [] ==> st'.Asked?)
    ensures HealsOrDooms(view, hb, Reading(view, printed, l), st', x0, y0)
  {
    st' := st;
    if l.ab != [] {
      match st
      case Missing(_) => st' := BReadsFirst(view, printed, hb, l, st, x0, y0);
      case Asked(_, _, _) => st' := BReadsAsking(view, printed, hb, l, st, x0, y0);
      case Answered(_, _, _) => st' := BReadsAnswer(view, printed, hb, l, st, x0, y0);
      case Level => BReadsInOrder(view, printed, hb, l, st, x0, y0);
    }
  }

  lemma AReads(view: Wire -> View, printed: Msg -> Wire, hb: nat, l: Link, st: Stage, x0: State, y0: State)
    returns (st': Stage)
    requires Healing(view, hb, l, st, x0, y0) && Prints(view, printed)
    ensures Rank(st') <= Rank(st)
    ensures l.ba != [] && st.Asked? && l.a.nextIn == st.r ==> st'.Answered?
    ensures l.ba == [] || !st.Asked? || l.a.nextIn != st.r ==> st' == st
    ensures Healing(view, hb, Flip(Reading(view, printed, Flip(l))), st', x0, y0)
  {
    st' := st;
    if l.ba != [] {
      if st.Asked? && l.a.nextIn == st.r {
        st' := AReadsRequest(view, printed, hb, l, st, x0, y0);
      } else {
        AReadsPlain(view, printed, hb, l, st, x0, y0);
      }
    }
  }

  lemma MoveHeals(view: Wire -> View, printed: Msg -> Wire, hb: nat, l: Link, st: Stage, x0: State, y0: State, m: Move)
    returns (st': Stage)
    requires Healing(view, hb, l, st, x0, y0) && Prints(view, printed) && Roomy(l.a, l.b) && Allowed(l, m, true)
    ensures HealsOrDooms(view, hb, Moved(view, printed, l, m), st', x0, y0)
  {
    st' := st;
    match m
    case ReadB => st' := BReads(view, printed, hb, l, st, x0, y0);
    case ReadA => st' := AReads(view, printed, hb, l, st, x0, y0);
    case SendA(e) => ASends(view, hb, l, st, x0, y0, e);
    case SendB(e) => BSends(view, hb, l, st, x0, y0, e);
  }

  // ---- an initiator that gets a reply too early ----

  /** It will have to ask for logout, or has done so since `x0`. */
  ghost predicate Lost(view: Wire -> View, x0: State, l: Link) {
    x0.sent <= l.a.sent && (Doomed(view, l.a, l.ba) || SaysLogout(l.a.sent[|x0.sent|..]))
  }

  lemma DoomedMore(view: Wire -> View, x: State, r: State, yx: seq<Msg>, more: seq<Msg>)
    requires Doomed(view, x, yx) && OkEnd(view, r)
    requires r.phase == x.phase && r.stopped == x.stopped && r.nextIn == x.nextIn
    ensures Doomed(view, r, yx + more)
  {
    var d :| DoomedAt(x, yx, d);
    assert forall i | 0 <= i <= d :: (yx + more)[i] == yx[i];
    assert DoomedAt(r, yx + more, d);
  }

  lemma LostMore(x0: State, x: State, r: State)
    requires x0.sent <= x.sent <= r.sent && SaysLogout(x.sent[|x0.sent|..])
    ensures SaysLogout(r.sent[|x0.sent|..])
  {
    var i :| 0 <= i < |x.sent[|x0.sent|..]| && x.sent[|x0.sent|..][i].kind.Logout?;
    assert r.sent[|x0.sent|..][i] == x.sent[|x0.sent|..][i];
  }

  /** The next message is one it waits through. */
  lemma DoomedWaits(view: Wire -> View, x: State, yx: seq<Msg>, w: Wire, d: nat)
    requires Doomed(view, x, yx) && DoomedAt(x, yx, d) && d > 0 && view(w) == Valid(yx[0])
    ensures Doomed(view, Process(view, x, w), yx[1..])
  {
    var r := Process(view, x, w);
    DispatchOutcome(x, yx[0], w);
    assert forall i | 0 <= i <= d - 1 :: yx[1..][i] == yx[i + 1];
    assert DoomedAt(r, yx[1..], d - 1);
  }

  /** An application message before the Logon: it asks for logout. */
  lemma DoomedEnds(view: Wire -> View, x: State, m: Inbound, w: Wire)
    requires OkEnd(view, x) && !x.stopped && x.phase == LogonSent && !Admin(m.kind) && view(w) == Valid(m)
    ensures Process(view, x, w).sent == x.sent + [Msg(x.nextOut, Logout, false)]
  {
  }

  lemma LostReads(view: Wire -> View, printed: Msg -> Wire, x0: State, l: Link)
    requires OkLink(view, l) && Lost(view, x0, l) && Prints(view, printed)
    ensures Lost(view, x0, Flip(Reading(view, printed, Flip(l))))
  {
    if l.ba != [] {
      var w := printed(l.ba[0]);
      var r := Process(view, l.a, w);
      ProcessOnlyAdds(view, l.a, w);
      if SaysLogout(l.a.sent[|x0.sent|..]) {
        LostMore(x0, l.a, r);
      } else {
        var d :| DoomedAt(l.a, l.ba, d);
        if d > 0 {
          DoomedWaits(view, l.a, l.ba, w, d);
        } else {
          DoomedEnds(view, l.a, l.ba[0], w);
          var more := r.sent[|x0.sent|..];
          assert more[|more| - 1].kind.Logout?;
        }
      }
    }
  }

  /** No move helps. */
  lemma MoveStaysLost(view: Wire -> View, printed: Msg -> Wire, x0: State, l: Link, m: Move)
    requires OkLink(view, l) && Lost(view, x0, l) && Prints(view, printed) && Allowed(l, m, true)
    ensures Lost(view, x0, Moved(view, printed, l, m))
  {
    match m
    case ReadA => LostReads(view, printed, x0, l);
    case ReadB =>
      var r := Reading(view, printed, l);
      if Doomed(view, l.a, l.ba) && l.ab != [] { DoomedMore(view, l.a, l.a, l.ba, News(l.b, r.b)); }
    case SendA(e) =>
      var r := Sending(view, l, e).a;
      ApplyOnlyAdds(view, l.a, e);
      if SaysLogout(l.a.sent[|x0.sent|..]) {
        LostMore(x0, l.a, r);
      } else {
        SendIsEmit(view, l, e);
        DoomedMore(view, l.a, r, l.ba, []);
        assert l.ba + [] == l.ba;
      }
    case SendB(e) =>
      if Doomed(view, l.a, l.ba) { DoomedMore(view, l.a, l.a, l.ba, News(l.b, Apply(view, l.b, e))); }
  }

  // ---- runs ----

  /** The link goes on from what `x0` and `y0` were. */
  predicate GoesOn(x0: State, y0: State, l: Link) {
    && l.a.cfg == x0.cfg && l.b.cfg == y0.cfg
    && x0.store <= l.a.store && y0.store <= l.b.store && x0.sent <= l.a.sent && y0.sent <= l.b.sent
  }

  lemma EventGoesOn(view: Wire -> View, s: State, e: Event)
    requires OkEnd(view, s)
    ensures Apply(view, s, e).cfg == s.cfg && OnlyAdds(s, Apply(view, s, e))
  {
    var h := ApplyHandles(view, s, e);
    ApplyOnlyAdds(view, s, e);
  }

  lemma MoveGoesOn(view: Wire -> View, printed: Msg -> Wire, x0: State, y0: State, l: Link, m: Move)
    requires OkLink(view, l) && GoesOn(x0, y0, l)
    ensures GoesOn(x0, y0, Moved(view, printed, l, m))
  {
    match m
    case ReadA => if l.ba != [] { EventGoesOn(view, l.a, Receive(printed(l.ba[0]))); }
    case ReadB => if l.ab != [] { EventGoesOn(view, l.b, Receive(printed(l.ab[0]))); }
    case SendA(e) => EventGoesOn(view, l.a, e);
    case SendB(e) => EventGoesOn(view, l.b, e);
  }

  /** Among what `y0` has missed is an application message that asks an acceptor for a reply. */
  predicate MissesRequest(x0: State, y0: State) {
    x0.cfg.role.Initiator? && !Mute(y0.cfg, x0.store, y0.nextIn, |x0.store| + 1)
  }

  lemma MutePrefix(cfg: Config, log: seq<Msg>, longer: seq<Msg>, a: nat)
    requires log <= longer && !Mute(cfg, longer, a, |log| + 1)
    ensures !Mute(cfg, log, a, |log| + 1)
  {
  }

  /** Over every run the connection goes on healing; or the other end has missed a request, and the
      initiator is lost. */
  lemma {:induction false} RunHeals(view: Wire -> View, printed: Msg -> Wire, hb: nat, l: Link, st: Stage,
                                    x0: State, y0: State, ms: seq<Move>)
    returns (lost: bool, st': Stage)
    requires OkLink(view, l) && Healing(view, hb, l, st, x0, y0) && GoesOn(x0, y0, l)
    requires Prints(view, printed) && RunAllowed(view, printed, l, ms, true)
    ensures !lost ==> Healing(view, hb, RunLink(view, printed, l, ms), st', x0, y0)
    ensures lost ==> Lost(view, x0, RunLink(view, printed, l, ms)) && MissesRequest(x0, y0)
    decreases |ms|
  {
    lost, st' := false, st;
    if ms != [] {
      var r := Moved(view, printed, l, ms[0]);
      var s := MoveHeals(view, printed, hb, l, st, x0, y0, ms[0]);
      MoveGoesOn(view, printed, x0, y0, l, ms[0]);
      if Healing(view, hb, r, s, x0, y0) {
        lost, st' := RunHeals(view, printed, hb, r, s, x0, y0, ms[1..]);
      } else {
        lost := true;
        MutePrefix(l.b.cfg, x0.store, r.a.store, y0.nextIn);
        RunStaysLost(view, printed, x0, r, ms[1..]);
      }
    }
  }

  lemma {:induction false} RunStaysLost(view: Wire -> View, printed: Msg -> Wire, x0: State, l: Link, ms: seq<Move>)
    requires OkLink(view, l) && Lost(view, x0, l) && Prints(view, printed) && RunAllowed(view, printed, l, ms, true)
    ensures Lost(view, x0, RunLink(view, printed, l, ms))
    decreases |ms|
  {
    if ms != [] {
      MoveStaysLost(view, printed, x0, l, ms[0]);
      RunStaysLost(view, printed, x0, Moved(view, printed, l, ms[0]), ms[1..]);
    }
  }

  // ---- when everything is read ----

  /** `s` has nothing left to recover, and since `s0` it has handled what the other end has stored. */
  ghost predicate Current(s0: State, s: State, other: State) {
    && s.phase == Active && !s.stopped && s.cache == map[] && s.nextIn == other.nextOut
    && 1 <= s0.nextIn <= |other.store| + 1 && s0.handled <= s.handled
    && AppContent(s.handled[|s0.handled|..]) == AppContent(other.store[s0.nextIn - 1..])
    && Mannered(s0, s)
  }

  /** Both ends are active and up to date with each other, and neither has asked for logout. */
  ghost predicate UpToDate(a0: State, b0: State, l: Link) {
    Current(a0, l.a, l.b) && Current(b0, l.b, l.a)
  }

  lemma SinceIsCurrent(s0: State, s: State, other: State)
    requires Since(s0, s, other.store) && Logged(other) && s.nextIn == |other.store| + 1 && Mannered(s0, s)
    requires s.phase == Active && !s.stopped && s.cache == map[]
    ensures Current(s0, s, other)
  {
    assert other.store[s0.nextIn - 1..s.nextIn - 1] == other.store[s0.nextIn - 1..];
  }

  lemma OpenedByNothing(p: Phase)
    ensures Opened(p, []) <==> Listening(p)
  {
  }

  /** A healing connection on which everything was read is up to date. */
  lemma HealedIsUpToDate(view: Wire -> View, hb: nat, l: Link, st: Stage, x0: State, y0: State)
    requires Healing(view, hb, l, st, x0, y0) && l.ab == [] && l.ba == []
    ensures st.Level? && UpToDate(x0, y0, l)
  {
    OpenedByNothing(l.a.phase);
    OpenedByNothing(l.b.phase);
    assert l.a.nextIn == |l.b.store| + 1;
    match st
    case Missing(e) => assert false;
    case Asked(e, j, r) => assert false;
    case Answered(e, j, p) => assert false;
    case Level =>
      SinceIsCurrent(x0, l.a, l.b);
      SinceIsCurrent(y0, l.b, l.a);
  }

  /** Having caught up, it has not missed a request: it would have replied too early. */
  lemma HealedMissedNoRequest(view: Wire -> View, hb: nat, l: Link, st: Stage, x0: State, y0: State)
    requires Healing(view, hb, l, st, x0, y0) && st.Level? && GoesOn(x0, y0, l)
    ensures !MissesRequest(x0, y0)
  {
    if x0.cfg.role.Initiator? {
      assert Mute(l.b.cfg, l.a.store, y0.nextIn, |x0.store| + 1);
      forall i | 0 <= i < |x0.store| && y0.nextIn <= i + 1 && !Admin(x0.store[i].kind)
        ensures Reply(y0.cfg, x0.store[i].kind) == []
      {
        assert l.a.store[i] == x0.store[i];
      }
    }
  }

  // ---- from the reconnect on ----

  /** An initiator and an acceptor with their logs, neither of which expects what was never sent. */
  ghost predicate Meet(view: Wire -> View, a: State, b: State) {
    && OkEnd(view, a) && OkEnd(view, b) && Peers(a, b) && AllInbound(a.store) && AllInbound(b.store)
    && 1 <= a.nextIn <= b.nextOut && 1 <= b.nextIn <= a.nextOut
  }

  /** A new connection: the initiator has sent its Logon. */
  lemma Greeted(view: Wire -> View, a: State, b: State) returns (l: Link, logon: Msg)
    requires Meet(view, a, b)
    ensures l == Connected(a, b) && OkLink(view, l)
    ensures logon == Msg(a.nextOut, Logon(a.heartBeatInt, false), false) && l.ab == [logon] && l.ba == []
    ensures l.a == a.(phase := LogonSent, awaitingTestReply := false, base := 0, cache := map[],
                      nextOut := a.nextOut + 1, sent := a.sent + [logon], store := a.store + [logon])
    ensures l.b == b.(phase := AwaitingLogon, awaitingTestReply := false, base := 0, cache := map[])
    ensures Logged(l.a) && AllInbound(l.a.store) && Mannered(a, l.a) && Mannered(b, l.b)
    ensures forall p :: Opened(p, [logon]) && Admits(p, [logon])
  {
    l, logon := Connected(a, b), Msg(a.nextOut, Logon(a.heartBeatInt, false), false);
    assert Replied(a, l.a, [logon.kind]);
    LoggedMore(a, l.a, [logon.kind]);
    ManneredMore(a, a, l.a, [logon]);
    assert [logon][0].kind.Logon?;
  }

  lemma NothingSince(s: State, r: State, log: seq<Msg>)
    requires 1 <= s.nextIn == r.nextIn <= |log| + 1 && r.handled == s.handled
    ensures Since(s, r, log)
  {
    assert r.handled[|s.handled|..] == [] && log[s.nextIn - 1..r.nextIn - 1] == [];
  }

  /** The acceptor may have missed something, the initiator has not. */
  lemma ConnectedHeals(view: Wire -> View, a: State, b: State) returns (l: Link, st: Stage)
    requires Meet(view, a, b) && a.nextIn == b.nextOut
    ensures l == Connected(a, b) && OkLink(view, l)
    ensures Healing(view, a.heartBeatInt, l, st, a, b) && GoesOn(a, b, l)
  {
    var g, logon := Greeted(view, a, b);
    l, st := g, if b.nextIn < a.nextOut then Missing(|a.store|) else Level;
    assert l.a.store[|a.store|..] == [logon];
    NothingSince(a, l.a, l.b.store);
    NothingSince(b, l.b, l.a.store);
    assert l.b.store[l.a.nextIn - 1..] == [];
    AdminsAreAdmitted(LogonSent, []);
  }

  /** The initiator has missed something, the acceptor has not. */
  lemma ConnectedHealsFlipped(view: Wire -> View, a: State, b: State) returns (l: Link, st: Stage)
    requires Meet(view, a, b) && a.nextIn < b.nextOut && b.nextIn == a.nextOut
    ensures l == Connected(a, b) && OkLink(view, Flip(l))
    ensures Healing(view, a.heartBeatInt, Flip(l), st, b, a) && GoesOn(b, a, Flip(l))
  {
    var g, logon := Greeted(view, a, b);
    l, st := g, Missing(|b.store|);
    assert l.a.store[l.b.nextIn - 1..] == [logon];
    assert l.b.store[|b.store|..] == [];
    NothingSince(a, l.a, l.b.store);
    NothingSince(b, l.b, l.a.store);
  }

  /** Neither end waits for an answer that is never given, and the acceptor owes no reply to an application
      message that it can only send before its Logon. */
  ghost predicate CanHeal(a: State, b: State) {
    !BehindEachOther(a, b) && !MissesRequest(a, b)
  }

  lemma LostIsNotUpToDate(view: Wire -> View, a0: State, b0: State, l: Link)
    requires Lost(view, a0, l)
    ensures !UpToDate(a0, b0, l)
  {
  }

  /** A connection that cannot heal is up to date at no point of any run. */
  lemma NeverHeals(view: Wire -> View, printed: Msg -> Wire, a: State, b: State, ms: seq<Move>)
    requires Meet(view, a, b) && Prints(view, printed) && !CanHeal(a, b)
    requires RunAllowed(view, printed, Connected(a, b), ms, true)
    ensures !UpToDate(a, b, RunLink(view, printed, Connected(a, b), ms))
  {
    if BehindEachOther(a, b) {
      StrictlyAllowed(view, printed, Connected(a, b), ms);
      NeitherRecovers(view, printed, a, b, ms);
    } else if a.nextIn == b.nextOut {
      var l, st := ConnectedHeals(view, a, b);
      var r := RunLink(view, printed, l, ms);
      var lost, st' := RunHeals(view, printed, a.heartBeatInt, l, st, a, b, ms);
      if lost {
        LostIsNotUpToDate(view, a, b, r);
      } else {
        RunGoesOn(view, printed, a, b, l, ms);
        if st'.Level? {
          HealedMissedNoRequest(view, a.heartBeatInt, r, st', a, b);
        } else {
          UnheardWaits(view, a.heartBeatInt, r, st', a, b);
        }
      }
    } else {
      NothingMissedOfEquals(a, b);
    }
  }

  lemma NothingMissedOfEquals(a: State, b: State)
    requires Logged(a) && b.nextIn == a.nextOut
    ensures !MissesRequest(a, b)
  {
  }

  /** Exactly when a connection heals. Over every run of reads and sends inside the windows after which
      everything sent has been read, both ends are active and up to date and neither has asked for logout if
      and only if, when they reconnected, not both had missed something, and no application message that the
      acceptor had missed asks for a reply. */
  lemma HealsExactly(view: Wire -> View, printed: Msg -> Wire, a: State, b: State, ms: seq<Move>)
    requires Meet(view, a, b) && Prints(view, printed)
    requires RunAllowed(view, printed, Connected(a, b), ms, true)
    requires
      var r := RunLink(view, printed, Connected(a, b), ms);
      r.ab == [] && r.ba == []
    ensures UpToDate(a, b, RunLink(view, printed, Connected(a, b), ms)) <==> CanHeal(a, b)
  {
    if !CanHeal(a, b) {
      NeverHeals(view, printed, a, b, ms);
    } else if a.nextIn == b.nextOut {
      var l, st := ConnectedHeals(view, a, b);
      var lost, st' := RunHeals(view, printed, a.heartBeatInt, l, st, a, b, ms);
      HealedIsUpToDate(view, a.heartBeatInt, RunLink(view, printed, l, ms), st', a, b);
    } else {
      HealsIfInitiatorBehind(view, printed, a, b, ms);
    }
  }

  lemma {:induction false} RunGoesOn(view: Wire -> View, printed: Msg -> Wire, x0: State, y0: State, l: Link,
                                     ms: seq<Move>)
    requires OkLink(view, l) && GoesOn(x0, y0, l)
    ensures GoesOn(x0, y0, RunLink(view, printed, l, ms))
    decreases |ms|
  {
    if ms != [] {
      MoveGoesOn(view, printed, x0, y0, l, ms[0]);
      RunGoesOn(view, printed, x0, y0, Moved(view, printed, l, ms[0]), ms[1..]);
    }
  }

  /** The other way round there is nothing to ask for a reply: an acceptor is active before it answers. */
  lemma HealsIfInitiatorBehind(view: Wire -> View, printed: Msg -> Wire, a: State, b: State, ms: seq<Move>)
    requires Meet(view, a, b) && Prints(view, printed) && a.nextIn < b.nextOut && b.nextIn == a.nextOut
    requires RunAllowed(view, printed, Connected(a, b), ms, true)
    requires
      var r := RunLink(view, printed, Connected(a, b), ms);
      r.ab == [] && r.ba == []
    ensures UpToDate(a, b, RunLink(view, printed, Connected(a, b), ms))
  {
    var l, st := ConnectedHealsFlipped(view, a, b);
    RunFlipped(view, printed, l, ms);
    var lost, st' := RunHeals(view, printed, a.heartBeatInt, Flip(l), st, b, a, FlipMoves(ms));
    var r := RunLink(view, printed, Flip(l), FlipMoves(ms));
    HealedIsUpToDate(view, a.heartBeatInt, r, st', b, a);
  }
}
