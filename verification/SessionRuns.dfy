/** What holds over every run of a session: which numbers reach the handlers, in what order, and that
    nothing is handled twice. */
module SessionRuns {
  import opened Bytes
  import opened Protocol
  import opened SessionSpec

  // ---- the numbers that reach the handlers ----

  /** A Logon that sets both sequence numbers back. */
  predicate ResettingLogon(cfg: Config, m: Msg) {
    && m.kind.Logon? && m.kind.resetSeqNum && 10 <= m.kind.heartBtInt <= 120
    && cfg.role.Acceptor? && cfg.acceptorResetOnLogon
  }

  /** The number expected once `m` is handled. */
  function NextExpected(cfg: Config, m: Msg): nat {
    if m.kind.SequenceReset? && (m.kind.gapFill || m.kind.newSeqNo > m.num) then m.kind.newSeqNo
    else if ResettingLogon(cfg, m) then 2
    else m.num + 1
  }

  /** Handling `h` one after the other takes the expected number from `n` to `n'`, each message being
      the one expected at its turn. */
  predicate Follows(cfg: Config, h: seq<Msg>, n: nat, n': nat) {
    if h == [] then n == n'
    else h[0].num == n && Follows(cfg, h[1..], NextExpected(cfg, h[0]), n')
  }

  /** The application messages among `h`. */
  function Apps(h: seq<Msg>): seq<Msg> {
    if h == [] then [] else (if h[0].kind.App? then [h[0]] else []) + Apps(h[1..])
  }

  /** From `s` to `r` exactly `h` was handled, in turn, and the application got its share. */
  predicate Handled(s: State, r: State, h: seq<Msg>) {
    && r.cfg == s.cfg
    && r.handled == s.handled + h
    && r.delivered == s.delivered + Apps(h)
    && Follows(s.cfg, h, s.nextIn, r.nextIn)
  }

  lemma {:induction false} FollowsConcat(cfg: Config, h1: seq<Msg>, h2: seq<Msg>, a: nat, b: nat, c: nat)
    requires Follows(cfg, h1, a, b) && Follows(cfg, h2, b, c)
    ensures Follows(cfg, h1 + h2, a, c)
  {
    if h1 == [] {
      assert h1 + h2 == h2;
    } else {
      assert (h1 + h2)[1..] == h1[1..] + h2;
      FollowsConcat(cfg, h1[1..], h2, NextExpected(cfg, h1[0]), b, c);
    }
  }

  lemma {:induction false} AppsConcat(h1: seq<Msg>, h2: seq<Msg>)
    ensures Apps(h1 + h2) == Apps(h1) + Apps(h2)
  {
    if h1 == [] {
      assert h1 + h2 == h2;
    } else {
      var first := if h1[0].kind.App? then [h1[0]] else [];
      AppsConcat(h1[1..], h2);
      assert Apps(h1 + h2) == first + Apps(h1[1..] + h2) by {
        assert (h1 + h2)[1..] == h1[1..] + h2;
      }
      assert first + (Apps(h1[1..]) + Apps(h2)) == (first + Apps(h1[1..])) + Apps(h2);
    }
  }

  lemma HandledConcat(s: State, m: State, r: State, h1: seq<Msg>, h2: seq<Msg>)
    requires Handled(s, m, h1) && Handled(m, r, h2)
    ensures Handled(s, r, h1 + h2)
  {
    FollowsConcat(s.cfg, h1, h2, s.nextIn, m.nextIn, r.nextIn);
    AppsConcat(h1, h2);
  }

  lemma NothingHandled(s: State, r: State)
    requires r.cfg == s.cfg && r.handled == s.handled && r.delivered == s.delivered && r.nextIn == s.nextIn
    ensures Handled(s, r, [])
  {
  }

  /** What a dispatch hands to the handlers: the message, exactly when it is the expected one. */
  function Reaches(s: State, v: View): seq<Msg> {
    if !s.stopped && v.Valid? && (Listening(s.phase) || Admin(v.msg.kind)) && v.msg.num == s.nextIn
    then [v.msg] else []
  }

  lemma HandleMoves(s: State, m: Inbound)
    requires s.Ok() && !s.stopped && s.nextIn == m.num + 1
    ensures Handle(s, m).nextIn == NextExpected(s.cfg, m) && Handle(s, m).cfg == s.cfg
    ensures Handle(s, m).delivered == s.delivered + if m.kind.App? then [m] else []
  {
  }

  lemma DispatchHandles(s: State, v: View, w: Wire)
    requires s.Ok()
    ensures Handled(s, Dispatch(s, v, w), Reaches(s, v))
  {
    var r := Dispatch(s, v, w);
    if Reaches(s, v) == [] {
      NothingHandled(s, r);
    } else {
      var m := v.msg;
      HandleMoves(s.(nextIn := m.num + 1, handled := s.handled + [m]), m);
      assert Follows(s.cfg, [m], s.nextIn, r.nextIn) by { assert [m][1..] == []; }
      assert Apps([m]) == if m.kind.App? then [m] else [];
    }
  }

  lemma {:induction false} DrainLoopHandles(view: Wire -> View, s: State) returns (h: seq<Msg>)
    requires s.Ok() && CacheReads(view, s)
    ensures Handled(s, DrainLoop(view, s), h)
    decreases |s.cache|
  {
    if s.nextIn !in s.cache {
      h := [];
      NothingHandled(s, DrainLoop(view, s));
    } else {
      var e := s.nextIn;
      var v := view(s.cache[e]);
      var s1 := Dispatch(s, v, s.cache[e]);
      DispatchHandles(s, v, s.cache[e]);
      var s2 := s1.(cache := s1.cache - {e});
      var h2 := DrainLoopHandles(view, s2);
      h := Reaches(s, v) + h2;
      HandledConcat(s, s2, DrainLoop(view, s2), Reaches(s, v), h2);
    }
  }

  lemma ApplyHandles(view: Wire -> View, s: State, e: Event) returns (h: seq<Msg>)
    requires s.Ok() && CacheReads(view, s)
    ensures Handled(s, Apply(view, s, e), h)
  {
    var r := Apply(view, s, e);
    if e.Receive? {
      var v := view(e.wire);
      if v.ParseError? {
        var s1 := StopWithLogout(s);
        NothingHandled(s, s1);
        h := DrainHandles(view, s1);
        HandledConcat(s, s1, r, [], h);
        assert [] + h == h;
      } else {
        var s1 := Dispatch(s, v, e.wire);
        DispatchHandles(s, v, e.wire);
        var h2 := DrainHandles(view, s1);
        h := Reaches(s, v) + h2;
        HandledConcat(s, s1, r, Reaches(s, v), h2);
      }
    } else {
      h := [];
      NothingHandled(s, r);
    }
  }

  lemma DrainHandles(view: Wire -> View, s: State) returns (h: seq<Msg>)
    requires s.Ok() && CacheReads(view, s)
    ensures Handled(s, Drain(view, s), h)
  {
    if s.cache == map[] || s.phase != RecoveringResend {
      h := [];
      NothingHandled(s, s);
    } else {
      h := DrainLoopHandles(view, s);
    }
  }

  /** Over every run the messages that reach the handlers follow one another, whatever mix of
      expected, duplicate, early, cached and malformed arrivals, sends, timers and reconnects. */
  lemma {:induction false} RunHandles(view: Wire -> View, s: State, es: seq<Event>) returns (h: seq<Msg>)
    requires s.Ok() && CacheReads(view, s)
    ensures Handled(s, Run(view, s, es), h)
    decreases |es|
  {
    if es == [] {
      h := [];
      NothingHandled(s, s);
    } else {
      var s1 := Apply(view, s, es[0]);
      var h1 := ApplyHandles(view, s, es[0]);
      var h2 := RunHandles(view, s1, es[1..]);
      h := h1 + h2;
      HandledConcat(s, s1, Run(view, s1, es[1..]), h1, h2);
    }
  }

  predicate Resets(cfg: Config, m: Msg) {
    m.kind.SequenceReset? || ResettingLogon(cfg, m)
  }

  lemma {:induction false} FollowsWithoutResets(cfg: Config, h: seq<Msg>, n: nat, n': nat)
    requires Follows(cfg, h, n, n') && forall m | m in h :: !Resets(cfg, m)
    ensures n' == n + |h| && forall i | 0 <= i < |h| :: h[i].num == n + i
  {
    if h != [] {
      assert h[0] in h && !Resets(cfg, h[0]);
      FollowsWithoutResets(cfg, h[1..], n + 1, n');
      forall i | 0 <= i < |h| ensures h[i].num == n + i {
        if i > 0 { assert h[i] == h[1..][i - 1]; }
      }
    }
  }

  lemma {:induction false} FollowsForward(cfg: Config, h: seq<Msg>, n: nat, n': nat)
    requires Follows(cfg, h, n, n') && forall m | m in h :: NextExpected(cfg, m) > m.num
    ensures n <= n' && forall i | 0 <= i < |h| :: n <= h[i].num < n'
    ensures forall i, j | 0 <= i < j < |h| :: h[i].num < h[j].num
  {
    if h != [] {
      var n1 := NextExpected(cfg, h[0]);
      FollowsForward(cfg, h[1..], n1, n');
      forall i | 0 <= i < |h| ensures n <= h[i].num < n' {
        if i > 0 { assert h[i] == h[1..][i - 1]; }
      }
      forall i, j | 0 <= i < j < |h| ensures h[i].num < h[j].num {
        assert h[j] == h[1..][j - 1];
        if i > 0 { assert h[i] == h[1..][i - 1]; }
      }
    }
  }

  /** In order and exactly once: if no reset is among the messages `h` handled by a run, their
      numbers are n, n + 1, n + 2, ... and the application got exactly its messages among them. */
  lemma RunHandlesConsecutively(view: Wire -> View, s: State, es: seq<Event>, h: seq<Msg>)
    requires s.Ok() && CacheReads(view, s)
    requires |s.handled| <= |Run(view, s, es).handled| && h == Run(view, s, es).handled[|s.handled|..]
    requires forall m | m in h :: !Resets(s.cfg, m)
    ensures Run(view, s, es).handled == s.handled + h
    ensures Run(view, s, es).delivered == s.delivered + Apps(h)
    ensures forall i | 0 <= i < |h| :: h[i].num == s.nextIn + i
    ensures Run(view, s, es).nextIn == s.nextIn + |h|
  {
    var h' := RunHandles(view, s, es);
    assert h == h';
    FollowsWithoutResets(s.cfg, h, s.nextIn, Run(view, s, es).nextIn);
  }

  /** With resets that only move forward the handled numbers still strictly increase, so nothing is
      handled twice. */
  lemma RunHandlesForward(view: Wire -> View, s: State, es: seq<Event>, h: seq<Msg>)
    requires s.Ok() && CacheReads(view, s)
    requires |s.handled| <= |Run(view, s, es).handled| && h == Run(view, s, es).handled[|s.handled|..]
    requires forall m | m in h :: NextExpected(s.cfg, m) > m.num
    ensures forall i, j | 0 <= i < j < |h| :: h[i].num < h[j].num
    ensures forall i | 0 <= i < |h| :: s.nextIn <= h[i].num < Run(view, s, es).nextIn
  {
    var h' := RunHandles(view, s, es);
    assert h == h';
    FollowsForward(s.cfg, h, s.nextIn, Run(view, s, es).nextIn);
  }

  /** Nothing that was handled, delivered, sent or stored is taken back. */
  predicate OnlyAdds(s: State, r: State) {
    s.handled <= r.handled && s.delivered <= r.delivered && s.sent <= r.sent && s.store <= r.store
  }

  lemma OnlyAddsTransitive(s: State, t: State, r: State)
    requires OnlyAdds(s, t) && OnlyAdds(t, r)
    ensures OnlyAdds(s, r)
  {
  }

  lemma HandleOnlyAdds(s: State, m: Inbound)
    requires s.Ok() && !s.stopped
    ensures OnlyAdds(s, Handle(s, m))
  {
  }

  lemma DispatchOnlyAdds(s: State, v: View, w: Wire)
    requires s.Ok()
    ensures OnlyAdds(s, Dispatch(s, v, w))
  {
    if Reaches(s, v) != [] {
      HandleOnlyAdds(s.(nextIn := v.msg.num + 1, handled := s.handled + [v.msg]), v.msg);
    }
  }

  lemma {:induction false} DrainLoopOnlyAdds(view: Wire -> View, s: State)
    requires s.Ok() && CacheReads(view, s)
    ensures OnlyAdds(s, DrainLoop(view, s))
    decreases |s.cache|
  {
    if s.nextIn in s.cache {
      var e := s.nextIn;
      var s1 := Dispatch(s, view(s.cache[e]), s.cache[e]);
      DispatchOnlyAdds(s, view(s.cache[e]), s.cache[e]);
      var s2 := s1.(cache := s1.cache - {e});
      DrainLoopOnlyAdds(view, s2);
      OnlyAddsTransitive(s, s2, DrainLoop(view, s2));
    }
  }

  lemma ProcessOnlyAdds(view: Wire -> View, s: State, w: Wire)
    requires s.Ok() && CacheReads(view, s)
    ensures OnlyAdds(s, Process(view, s, w))
  {
    var v := view(w);
    var s1 := if v.ParseError? then StopWithLogout(s) else Dispatch(s, v, w);
    DispatchOnlyAdds(s, v, w);
    DrainLoopOnlyAdds(view, s1);
    OnlyAddsTransitive(s, s1, DrainLoop(view, s1));
  }

  lemma ApplyOnlyAdds(view: Wire -> View, s: State, e: Event)
    requires s.Ok() && CacheReads(view, s)
    ensures OnlyAdds(s, Apply(view, s, e))
  {
    if e.Receive? {
      ProcessOnlyAdds(view, s, e.wire);
    }
  }

  /** Over every run what was handled, delivered, sent and stored is only added to. */
  lemma {:induction false} RunOnlyAdds(view: Wire -> View, s: State, es: seq<Event>)
    requires s.Ok() && CacheReads(view, s)
    ensures OnlyAdds(s, Run(view, s, es))
    decreases |es|
  {
    if es != [] {
      ApplyOnlyAdds(view, s, es[0]);
      RunOnlyAdds(view, Apply(view, s, es[0]), es[1..]);
      OnlyAddsTransitive(s, Apply(view, s, es[0]), Run(view, s, es));
    }
  }

  /** No handled number is still expected. */
  predicate Ahead(s: State) {
    forall m | m in s.handled :: m.num < s.nextIn
  }

  /** The expected number stays above everything handled exactly when the handled message moves it
      forward: a gap fill with a NewSeqNo not above its own number, or a resetting logon, does not. */
  lemma AheadExactlyWhenForward(s: State, v: View, w: Wire)
    requires s.Ok() && Ahead(s) && Reaches(s, v) != []
    ensures Ahead(Dispatch(s, v, w)) <==> NextExpected(s.cfg, v.msg) > v.msg.num
    ensures NextExpected(s.cfg, v.msg) > v.msg.num <==>
            !(v.msg.kind.SequenceReset? && v.msg.kind.gapFill && v.msg.kind.newSeqNo <= v.msg.num)
            && !(ResettingLogon(s.cfg, v.msg) && v.msg.num >= 2)
  {
    DispatchHandles(s, v, w);
    assert v.msg in Dispatch(s, v, w).handled;
  }

  /** Such a gap fill lets one number through twice: 5, then a gap fill 6 back to 5, then 5 again. */
  lemma BackwardGapFillRepeats(view: Wire -> View, s: State, w5: Wire, w6: Wire, body: Wire)
    requires s.Ok() && !s.stopped && s.phase == Active && s.nextIn == 5 && s.cache == map[]
    requires view(w5) == Valid(Msg(5, App(body), false))
    requires view(w6) == Valid(Msg(6, SequenceReset(5, true), false))
    ensures Run(view, s, [Receive(w5), Receive(w6), Receive(w5)]).delivered
            == s.delivered + [Msg(5, App(body), false), Msg(5, App(body), false)]
  {
    var s1 := Apply(view, s, Receive(w5));
    assert s1.nextIn == 6 && s1.phase == Active && s1.cache == map[];
    var s2 := Apply(view, s1, Receive(w6));
    assert s2.nextIn == 5 && s2.phase == Active && s2.cache == map[];
    var s3 := Apply(view, s2, Receive(w5));
    var es := [Receive(w5), Receive(w6), Receive(w5)];
    assert es[1..] == [Receive(w6), Receive(w5)] && es[1..][1..] == [Receive(w5)];
    assert Run(view, s2, [Receive(w5)]) == s3 by { assert [Receive(w5)][1..] == []; }
    assert Run(view, s1, es[1..]) == s3;
  }
}
