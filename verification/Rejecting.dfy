/** A message that is rejected whenever it comes: the expected number stays there. */
module Rejecting {
  import opened Bytes
  import opened Protocol
  import opened SessionSpec
  import opened SessionRuns

  /** A message that is not number `n`, and does not jump over it. */
  predicate Spares(cfg: Config, n: nat, m: Msg) {
    m.num != n && (m.num < n ==> NextExpected(cfg, m) <= n)
  }

  /** Nothing from number `n` on was handled since `s0` or is expected, and what is cached spares it. */
  ghost predicate HeldAt(view: Wire -> View, s0: State, s: State, n: nat) {
    && s.Ok() && CacheReads(view, s) && s.cfg == s0.cfg && s.nextIn <= n && s0.handled <= s.handled
    && (forall k | k in s.cache :: Spares(s.cfg, n, view(s.cache[k]).msg))
    && (forall i | |s0.handled| <= i < |s.handled| :: s.handled[i].num < n)
  }

  lemma DispatchHeld(view: Wire -> View, s0: State, s: State, n: nat, w: Wire)
    requires HeldAt(view, s0, s, n) && (view(w).Valid? ==> Spares(s.cfg, n, view(w).msg))
    ensures HeldAt(view, s0, Dispatch(s, view(w), w), n)
  {
    var v, r := view(w), Dispatch(s, view(w), w);
    DispatchHandles(s, v, w);
    if Reaches(s, v) != [] {
      HandleMoves(s.(nextIn := v.msg.num + 1, handled := s.handled + [v.msg]), v.msg);
    }
    forall k | k in r.cache ensures view(r.cache[k]).Valid? && view(r.cache[k]).msg.num == k
      && Spares(s.cfg, n, view(r.cache[k]).msg)
    {
      if k !in s.cache || r.cache[k] != s.cache[k] {
        assert r.cache[k] == w;
      }
    }
  }

  lemma {:induction false} DrainHeld(view: Wire -> View, s0: State, s: State, n: nat)
    requires HeldAt(view, s0, s, n)
    ensures HeldAt(view, s0, DrainLoop(view, s), n)
    decreases |s.cache|
  {
    var e := s.nextIn;
    if e in s.cache {
      var s1 := Dispatch(s, view(s.cache[e]), s.cache[e]);
      DispatchHeld(view, s0, s, n, s.cache[e]);
      DrainHeld(view, s0, s1.(cache := s1.cache - {e}), n);
    }
  }

  /** What an event brings in spares number `n`. */
  predicate Brings(view: Wire -> View, cfg: Config, n: nat, e: Event) {
    e.Receive? && view(e.wire).Valid? ==> Spares(cfg, n, view(e.wire).msg)
  }

  lemma ApplyHeld(view: Wire -> View, s0: State, s: State, n: nat, e: Event)
    requires HeldAt(view, s0, s, n) && Brings(view, s.cfg, n, e)
    ensures HeldAt(view, s0, Apply(view, s, e), n)
  {
    if e.Receive? {
      var v, w := view(e.wire), e.wire;
      DispatchHeld(view, s0, s, n, w);
      DrainHeld(view, s0, if v.ParseError? then StopWithLogout(s) else Dispatch(s, v, w), n);
    }
  }

  lemma {:induction false} RunHeld(view: Wire -> View, s0: State, s: State, n: nat, es: seq<Event>)
    requires HeldAt(view, s0, s, n) && forall e | e in es :: Brings(view, s.cfg, n, e)
    ensures HeldAt(view, s0, Run(view, s, es), n)
    decreases |es|
  {
    if es != [] {
      assert es[0] in es;
      ApplyHeld(view, s0, s, n, es[0]);
      RunHeld(view, s0, Apply(view, s, es[0]), n, es[1..]);
    }
  }

  /** If message n does not pass the validator whenever it comes, as an original or as a possible duplicate,
      then over every run, also over reconnects, nothing from n on is ever handled, unless the peer jumps over
      it with a gap fill or a reset. */
  lemma RejectedHoldsUp(view: Wire -> View, s: State, n: nat, es: seq<Event>)
    requires s.Ok() && CacheReads(view, s) && s.nextIn <= n
    requires forall k | k in s.cache :: Spares(s.cfg, n, view(s.cache[k]).msg)
    requires forall e | e in es :: Brings(view, s.cfg, n, e)
    ensures
      var r := Run(view, s, es);
      && r.nextIn <= n && n !in r.cache && s.handled <= r.handled
      && forall i | |s.handled| <= i < |r.handled| :: r.handled[i].num < n
  {
    RunHeld(view, s, s, n, es);
  }
}
