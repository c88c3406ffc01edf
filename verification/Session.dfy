/** The session in place: its methods change the fields of the object the way SessionSpec changes the
    value, over a recovery cache that really holds bytes. */
module Sessions {
  import opened Bytes
  import opened Protocol
  import opened SessionSpec
  import opened Draining
  import opened RecoveryPhase
  import opened RecoveryCaches

  datatype ResendAction = ResendAction(beginSeqNo: nat, endSeqNo: nat, gapFill: bool)

  /** A cursor over a range of the outbound log. */
  class ResendStream {
    const index: seq<Msg>
    const endSeqNo: nat
    var current: SeqNo

    constructor (index: seq<Msg>, beginSeqNo: SeqNo, endSeqNo: nat)
      requires endSeqNo <= |index|
      ensures this.index == index && this.endSeqNo == endSeqNo && current == beginSeqNo
    {
      this.index, this.endSeqNo, this.current := index, endSeqNo, beginSeqNo;
    }

    predicate HasNext()
      reads this
    {
      current <= endSeqNo
    }

    /** The message an action stands for. */
    static function Action(index: seq<Msg>, a: ResendAction): Msg
      requires 1 <= a.beginSeqNo <= |index|
    {
      if a.gapFill then GapFill(a.beginSeqNo, a.endSeqNo) else index[a.beginSeqNo - 1].(possDup := true)
    }

    /** One action at a time, `Next` walks through the replay of the range. */
    method Next() returns (a: ResendAction)
      requires HasNext() && endSeqNo <= |index|
      modifies this
      ensures a.beginSeqNo == old(current) && a.beginSeqNo <= a.endSeqNo < current <= endSeqNo + 1
      ensures Replay(index, old(current), endSeqNo)
              == [Action(index, a)] + Replay(index, current, endSeqNo)
    {
      var start := current;
      var gapFill := false;
      while current <= endSeqNo && Admin(index[current - 1].kind)
        invariant start <= current <= endSeqNo + 1
        invariant gapFill <==> start < current
        invariant gapFill ==> Admin(index[start - 1].kind)
        invariant gapFill && current <= endSeqNo && Admin(index[current - 1].kind) ==>
          RunEnd(index, start, endSeqNo) == RunEnd(index, current, endSeqNo)
        invariant gapFill && (current > endSeqNo || !Admin(index[current - 1].kind)) ==>
          RunEnd(index, start, endSeqNo) == current - 1
      {
        current := current + 1;
        gapFill := true;
      }
      var end := if gapFill then current - 1 else current;
      if !gapFill {
        current := current + 1;
      }
      a := ResendAction(start, end, gapFill);
    }
  }

  lemma NumberedKeepsReads(view: Wire -> View, s: State, m: Inbound, w: Wire)
    requires s.Ok() && !s.stopped && CacheReads(view, s) && view(w) == Valid(m)
    ensures CacheReads(view, DispatchNumbered(s, m, w))
    ensures m.num == s.nextIn ==> DispatchNumbered(s, m, w).cache == s.cache
  {
  }

  lemma RemovalShrinks(c: map<nat, Wire>, k: nat)
    requires k in c
    ensures |c - {k}| < |c|
  {
    assert c == (c - {k})[k := c[k]];
  }

  lemma DispatchKeepsReads(view: Wire -> View, s: State, w: Wire)
    requires s.Ok() && CacheReads(view, s)
    ensures CacheReads(view, Dispatch(s, view(w), w))
    ensures view(w).Valid? && view(w).msg.num == s.nextIn ==> Dispatch(s, view(w), w).cache == s.cache
  {
  }

  /** The state after a drain loop: Active, if nothing is left. */
  function Rested(s: State): State {
    if s.cache == map[] then s.(phase := Active) else s
  }

  lemma DrainLoopRests(view: Wire -> View, s: State)
    requires s.Ok() && CacheReads(view, s) && s.nextIn !in s.cache
    ensures DrainLoop(view, s) == Rested(s)
  {
  }

  class Session {
    const cfg: Config
    /** Parsing and validating, which do not depend on the state of the session. */
    const view: Wire -> View
    const cache: RecoveryCache
    var heartBeatInt: nat
    var phase: Phase
    var stopped: bool
    var nextIn: nat
    var nextOut: SeqNo
    var awaitingTestReply: bool
    var store: seq<Msg>
    /** Everything handed to the transport, and to the application. */
    var sent: seq<Msg>
    var delivered: seq<Msg>
    ghost var handled: seq<Msg>

    ghost function Abs(): State
      reads this, cache
    {
      State(cfg, heartBeatInt, phase, stopped, nextIn, nextOut, cache.base, cache.contents,
            store, sent, awaitingTestReply, handled, delivered)
    }

    ghost predicate Valid()
      reads this, cache, cache.slots, cache.data
    {
      cache.Valid() && Abs().Ok() && CacheReads(view, Abs()) && view([]) == ParseError
    }

    constructor (cfg: Config, heartBeatInt: nat, view: Wire -> View)
      requires view([]) == ParseError
      ensures Valid() && Abs() == Start(cfg, heartBeatInt)
      ensures this.view == view && fresh(cache) && fresh(cache.slots) && fresh(cache.data)
    {
      this.cfg, this.view, this.heartBeatInt := cfg, view, heartBeatInt;
      phase, stopped, nextIn, nextOut, awaitingTestReply := Disconnected, false, 1, 1, false;
      store, sent, delivered, handled := [], [], [], [];
      cache := new RecoveryCache();
      new;
      if cfg.role.Initiator? {
        Send(Logon(heartBeatInt, cfg.initiatorResetOnLogon));
        phase := LogonSent;
      } else {
        phase := AwaitingLogon;
      }
    }

    // ---- sending ----

    method SendMessage(m: Msg, isResend: bool)
      modifies this`sent, this`store
      ensures sent == if stopped then old(sent) else old(sent) + [m]
      ensures store == if stopped || isResend then old(store) else old(store) + [m]
    {
      if stopped { return; }
      sent := sent + [m];
      if !isResend {
        store := store + [m];
      }
    }

    /** Stamps the next number on a message and sends it. */
    method Send(k: Kind)
      requires Abs().Ok()
      modifies this`sent, this`store, this`nextOut
      ensures Abs() == Emit(old(Abs()), k)
    {
      var m := Msg(nextOut, k, false);
      nextOut := nextOut + 1;
      SendMessage(m, false);
    }

    method StopNow()
      modifies this`phase, this`stopped
      ensures Abs() == Stop(old(Abs()))
    {
      if stopped { return; }
      phase := Disconnected;
      stopped := true;
    }

    method LogOut()
      requires Abs().Ok()
      modifies this`sent, this`store, this`nextOut, this`phase
      ensures Abs() == StopWithLogout(old(Abs()))
    {
      if stopped { return; }
      Send(Logout);
      phase := AwaitingLogout;
    }

    // ---- handlers ----

    method OnLogon(hbi: nat, reset: bool)
      requires Abs().Ok()
      modifies this
      ensures Abs() == HandleLogon(old(Abs()), hbi, reset)
    {
      if (cfg.role.Initiator? && hbi != heartBeatInt) || hbi < 10 || hbi > 120 {
        LogOut();
        return;
      }
      heartBeatInt := hbi;
      if cfg.role.Acceptor? {
        phase := LogonReceived;
        if reset {
          if cfg.acceptorResetOnLogon {
            nextIn, nextOut := 2, 1;
          } else {
            LogOut();
            return;
          }
        }
        Send(Logon(heartBeatInt, reset));
      } else {
        if reset && !cfg.initiatorResetOnLogon {
          LogOut();
          return;
        }
      }
      phase := Active;
    }

    method OnLogout()
      requires Abs().Ok()
      modifies this
      ensures Abs() == HandleLogout(old(Abs()))
    {
      if phase == AwaitingLogout {
        StopNow();
      } else {
        Send(Logout);
        StopNow();
      }
    }

    /** One action of a resend: a gap fill, or a stored message again. */
    method SendAction(action: ResendAction)
      requires 1 <= action.beginSeqNo <= |store| && !stopped
      modifies this`sent, this`store
      ensures store == old(store) && sent == old(sent) + [ResendStream.Action(store, action)]
    {
      if action.gapFill {
        SendMessage(GapFill(action.beginSeqNo, action.endSeqNo), true);
      } else {
        SendMessage(store[action.beginSeqNo - 1].(possDup := true), true);
      }
    }

    /** Sends the replay of [b, endSeqNo], action by action. */
    method Resend(b: SeqNo, endSeqNo: nat)
      requires endSeqNo <= |store| && !stopped
      modifies this`sent, this`store
      ensures store == old(store) && sent == old(sent) + Replay(store, b, endSeqNo)
    {
      var stream := new ResendStream(store, b, endSeqNo);
      while stream.HasNext()
        invariant fresh(stream) && stream.index == store == old(store) && stream.endSeqNo == endSeqNo
        invariant sent + Replay(store, stream.current, endSeqNo) == old(sent) + Replay(store, b, endSeqNo)
        decreases endSeqNo + 1 - stream.current
      {
        ghost var before := sent;
        var action := stream.Next();
        SendAction(action);
        assert before + ([ResendStream.Action(store, action)] + Replay(store, stream.current, endSeqNo))
            == sent + Replay(store, stream.current, endSeqNo);
      }
    }

    method OnResendRequest(b: SeqNo, e: nat)
      requires Abs().Ok() && !stopped
      modifies this
      ensures Abs() == HandleResendRequest(old(Abs()), b, e)
    {
      var endSeqNo := e;
      if endSeqNo == 0 || endSeqNo >= nextOut {
        endSeqNo := nextOut - 1;
      }
      Resend(b, endSeqNo);
    }

    method OnSequenceReset(newSeqNo: nat, gapFill: bool)
      requires Abs().Ok()
      modifies this
      ensures Abs() == HandleSequenceReset(old(Abs()), newSeqNo, gapFill)
    {
      if newSeqNo < nextIn && !gapFill {
        LogOut();
        return;
      }
      nextIn := newSeqNo;
    }

    method OnCustom(payload: Wire)
      requires Abs().Ok()
      modifies this
      ensures Abs() == HandleCustom(old(Abs()), payload)
    {
      if IsReply(payload) { return; }
      Send(Custom(REPLY_HEAD + cfg.readableId));
    }

    method HandleMessage(m: Inbound)
      requires Abs().Ok() && !stopped
      modifies this
      ensures Abs() == Handle(old(Abs()), m)
    {
      match m.kind
      case Logon(hbi, reset) => OnLogon(hbi, reset);
      case Logout => OnLogout();
      case Heartbeat(_) => awaitingTestReply := false;
      case TestRequest(id) => Send(Heartbeat(id));
      case ResendRequest(b, e) => OnResendRequest(b, e);
      case Reject(_) =>
      case SequenceReset(n, gapFill) => OnSequenceReset(n, gapFill);
      case Custom(payload) => OnCustom(payload);
      case App(_) => delivered := delivered + [m];
    }

    // ---- receiving ----

    /** A message ahead of the expected one while recovering. */
    method CacheEarly(m: Inbound, w: Wire)
      requires Valid() && !stopped && view(w) == View.Valid(m)
      requires m.num > nextIn && phase == RecoveringResend
      modifies this, cache, cache.slots, cache.data
      ensures Valid() && Abs() == DispatchNumbered(old(Abs()), m, w)
      ensures cache.data == old(cache.data) || fresh(cache.data)
    {
      NumberedKeepsReads(view, Abs(), m, w);
      if !InWindow(cache.base, m.num) {
        LogOut();
        return;
      }
      if !cache.Contains(m.num) {
        cache.Insert(m.num, w);
      }
    }

    /** A message ahead of the expected one otherwise: the gap in front of it is asked for. */
    method OpenGap(m: Inbound, w: Wire)
      requires Valid() && !stopped && view(w) == View.Valid(m)
      requires m.num > nextIn && phase != RecoveringResend && InWindow(nextIn, m.num)
      modifies this, cache, cache.slots, cache.data
      ensures Valid() && Abs() == DispatchNumbered(old(Abs()), m, w)
      ensures cache.data == old(cache.data) || fresh(cache.data)
    {
      NumberedKeepsReads(view, Abs(), m, w);
      var expected := nextIn;
      Send(ResendRequest(expected, m.num - 1));
      ghost var asked := Abs();
      phase := RecoveringResend;
      StartCache(expected, m.num, w);
      assert Abs() == asked.(phase := RecoveringResend, base := expected, cache := map[m.num := w]);
    }

    method StartCache(expected: nat, num: nat, w: Wire)
      requires cache.Valid() && InWindow(expected, num) && w != []
      modifies cache, cache.slots, cache.data
      ensures cache.Valid() && cache.base == expected && cache.contents == map[num := w]
      ensures cache.data == old(cache.data) || fresh(cache.data)
    {
      cache.Start(expected);
      if !cache.Contains(num) {
        cache.Insert(num, w);
      }
    }

    method DispatchView(v: View, w: Wire)
      requires Valid() && v == view(w) && GapFits(Abs(), v)
      modifies this, cache, cache.slots, cache.data
      ensures Valid() && Abs() == Dispatch(old(Abs()), v, w)
      ensures cache.data == old(cache.data) || fresh(cache.data)
    {
      if stopped { return; }
      match v
      case ParseError =>
      case Fatal => LogOut();
      case Invalid(ref) => Send(Reject(ref));
      case Unnumbered =>
      case Valid(m) =>
        if !Listening(phase) && !Admin(m.kind) {
          LogOut();
          return;
        }
        if m.num == nextIn {
          nextIn := m.num + 1;
          handled := handled + [m];
        } else if m.num > nextIn && phase == RecoveringResend {
          CacheEarly(m, w);
          return;
        } else if m.num > nextIn {
          OpenGap(m, w);
          return;
        } else if m.possDup {
          return;
        } else {
          LogOut();
          return;
        }
        HandleMessage(m);
    }

    /** One turn of the drain loop. A cached wire was parsed before it was cached, so parsing it again
        cannot fail: the branch for that is dead. */
    method DrainTurn(expected: nat)
      requires Valid() && expected == nextIn && expected in cache.contents
      modifies this, cache, cache.slots, cache.data
      ensures Valid() && Abs() == DrainOne(view, old(Abs()))
      ensures |cache.contents| < |old(cache.contents)|
      ensures cache.data == old(cache.data) || fresh(cache.data)
    {
      var w := cache.Get(expected);
      var v := view(w);
      if v.ParseError? {
        assert false;
      }
      DispatchKeepsReads(view, Abs(), w);
      DispatchView(v, w);
      ghost var turned := Abs();
      assert cache.contents == old(cache.contents);
      cache.Consume(expected);
      assert Abs() == turned.(cache := turned.cache - {expected});
      RemovalShrinks(old(cache.contents), expected);
    }

    /** Handles cached messages while the expected one is cached. */
    method DrainCached()
      requires Valid()
      modifies this, cache, cache.slots, cache.data
      ensures Valid() && Rested(Abs()) == DrainLoop(view, old(Abs()))
      ensures cache.data == old(cache.data) || fresh(cache.data)
    {
      var expected := nextIn;
      while cache.Contains(expected)
        invariant Valid() && expected == nextIn
        invariant DrainLoop(view, Abs()) == DrainLoop(view, old(Abs()))
        invariant cache.data == old(cache.data) || fresh(cache.data)
        decreases |cache.contents|
      {
        DrainLoopStep(view, Abs());
        DrainTurn(expected);
        expected := nextIn;
      }
      DrainLoopRests(view, Abs());
    }

    /** The end of a drain. */
    method Rest()
      requires Valid()
      modifies this`phase
      ensures Valid() && Abs() == Rested(old(Abs()))
    {
      if cache.Empty() {
        phase := Active;
      }
    }

    method DrainRecoveryCache()
      requires Valid()
      modifies this, cache, cache.slots, cache.data
      ensures Valid() && Abs() == Drain(view, old(Abs()))
      ensures cache.data == old(cache.data) || fresh(cache.data)
    {
      ghost var s := Abs();
      if cache.Empty() || phase != RecoveringResend {
        assert Drain(view, s) == s;
        return;
      }
      assert Drain(view, s) == DrainLoop(view, s);
      DrainCached();
      Rest();
    }

    /** One framed message. The first gap has to fit the cache. */
    method ProcessWireMessage(w: Wire)
      requires Valid() && GapFits(Abs(), view(w))
      modifies this, cache, cache.slots, cache.data
      ensures Valid() && Abs() == Process(view, old(Abs()), w)
      ensures cache.data == old(cache.data) || fresh(cache.data)
    {
      var v := view(w);
      if !v.ParseError? {
        DispatchView(v, w);
      } else {
        LogOut();
      }
      DrainRecoveryCache();
    }

    // ---- the other events ----

    method SendFromApplication(k: Kind)
      requires Valid()
      modifies this
      ensures Valid() && Abs() == Apply(view, old(Abs()), SendFromApp(k))
    {
      if stopped { return; }
      Send(k);
    }

    method OnInboundTimeout(testReqId: Wire)
      requires Valid()
      modifies this
      ensures Valid() && Abs() == Apply(view, old(Abs()), SilenceDue(testReqId))
    {
      if stopped { return; }
      if !awaitingTestReply {
        awaitingTestReply := true;
        Send(TestRequest(testReqId));
      } else {
        LogOut();
      }
    }

    method StartAfterReconnect()
      requires Valid()
      modifies this, cache, cache.slots
      ensures Valid() && Abs() == Reconnect(old(Abs()))
    {
      if stopped { return; }
      phase := Disconnected;
      awaitingTestReply := false;
      cache.Reset();
      if cfg.role.Initiator? {
        Send(Logon(heartBeatInt, false));
        phase := LogonSent;
      } else {
        phase := AwaitingLogon;
      }
    }
  }
}
