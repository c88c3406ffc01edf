/** The recovery phase over whole runs: what the cache holds between events, when the phase ends, and when
    it cannot end any more. */
module RecoveryPhase {
  import opened Bytes
  import opened Protocol
  import opened SessionSpec
  import opened SessionRuns
  import opened Draining

  /** In recovery the session is not stopped, something is cached, and every cached number is above the
      expected one and inside the window. */
  predicate RecoveryOk(s: State) {
    s.phase == RecoveringResend ==>
      !s.stopped && s.cache != map[] && forall k | k in s.cache :: s.nextIn < k && InWindow(s.base, k)
  }

  /** The same before draining, when the expected number may be cached. */
  predicate ReadyToDrain(s: State) {
    !s.stopped && s.cache != map[] && forall k | k in s.cache :: s.nextIn <= k && InWindow(s.base, k)
  }

  /** What `s` is once the wire itself was dispatched, before draining. */
  function Received(view: Wire -> View, s: State, w: Wire): (r: State)
    requires s.Ok() && CacheReads(view, s)
    ensures r.Ok() && CacheReads(view, r)
  {
    var v := view(w);
    if v.ParseError? then StopWithLogout(s) else Dispatch(s, v, w)
  }

  // ---- what may arrive ----

  /** The gap a first early message opens fits the recovery cache. */
  predicate GapFits(s: State, v: View) {
    v.Valid? && !s.stopped && s.phase != RecoveringResend && v.msg.num > s.nextIn
    ==> InWindow(s.nextIn, v.msg.num)
  }

  /** Handling `m` jumps over a cached number. */
  ghost predicate PassesOver(cfg: Config, m: Msg, cache: map<nat, Wire>) {
    exists k | k in cache :: m.num < k < NextExpected(cfg, m)
  }

  /** No message that the walk through the cache reaches jumps over a cached number. */
  ghost predicate Orderly(view: Wire -> View, t: Terms, cache: map<nat, Wire>, n: nat, p: Phase)
    requires AllRead(view, cache)
    decreases |cache|
  {
    n in cache ==>
      var m, rest := view(cache[n]).msg, cache - {n};
      (Listening(p) || Admin(m.kind)) && !m.kind.Logout? ==>
        !PassesOver(t.cfg, m, rest) && Orderly(view, t, rest, NextExpected(t.cfg, m), PhaseAfter(t, p, m))
  }

  ghost predicate OrderlyFrom(view: Wire -> View, s: State)
    requires CacheReads(view, s)
  {
    Orderly(view, TermsOf(s), s.cache, s.nextIn, s.phase)
  }

  /** Neither the message that arrives nor one out of the cache jumps over a cached number. */
  ghost predicate NothingPassed(view: Wire -> View, s: State, w: Wire)
    requires s.Ok() && CacheReads(view, s)
  {
    s.phase == RecoveringResend ==>
      && (view(w).Valid? && view(w).msg.num == s.nextIn ==> !PassesOver(s.cfg, view(w).msg, s.cache))
      && (Received(view, s, w).phase == RecoveringResend ==> OrderlyFrom(view, Received(view, s, w)))
  }

  // ---- the invariant ----

  lemma GapIsOpened(view: Wire -> View, s: State, w: Wire)
    requires s.Ok() && CacheReads(view, s) && s.phase != RecoveringResend && GapFits(s, view(w))
    requires Received(view, s, w).phase == RecoveringResend
    ensures ReadyToDrain(Received(view, s, w))
  {
    var r, m := Received(view, s, w), view(w).msg;
    assert m.num in r.cache;
  }

  lemma EarlyIsCached(view: Wire -> View, s: State, w: Wire)
    requires s.Ok() && CacheReads(view, s) && s.phase == RecoveringResend && RecoveryOk(s)
    requires !(view(w).Valid? && view(w).msg.num == s.nextIn)
    requires Received(view, s, w).phase == RecoveringResend
    ensures ReadyToDrain(Received(view, s, w))
  {
    var r := Received(view, s, w);
    if r.cache != s.cache {
      assert view(w).msg.num in r.cache;
    }
  }

  lemma ExpectedIsHandled(view: Wire -> View, s: State, w: Wire)
    requires s.Ok() && CacheReads(view, s) && s.phase == RecoveringResend && RecoveryOk(s)
    requires view(w).Valid? && view(w).msg.num == s.nextIn && !PassesOver(s.cfg, view(w).msg, s.cache)
    requires Received(view, s, w).phase == RecoveringResend
    ensures ReadyToDrain(Received(view, s, w))
  {
    var r, m := Received(view, s, w), view(w).msg;
    DispatchOutcome(s, m, w);
    forall k | k in r.cache ensures r.nextIn <= k {
      assert s.nextIn < k;
    }
  }

  lemma ReceivedIsReady(view: Wire -> View, s: State, w: Wire)
    requires s.Ok() && CacheReads(view, s) && RecoveryOk(s) && GapFits(s, view(w)) && NothingPassed(view, s, w)
    requires Received(view, s, w).phase == RecoveringResend
    ensures ReadyToDrain(Received(view, s, w))
  {
    if s.phase != RecoveringResend {
      GapIsOpened(view, s, w);
    } else if view(w).Valid? && view(w).msg.num == s.nextIn {
      ExpectedIsHandled(view, s, w);
    } else {
      EarlyIsCached(view, s, w);
    }
  }

  predicate Above(cache: map<nat, Wire>, n: nat) {
    forall k | k in cache :: n <= k
  }

  /** An orderly walk leaves only numbers above the one it stops at. */
  lemma {:induction false} OrderlyWalk(view: Wire -> View, t: Terms, cache: map<nat, Wire>, n: nat, p: Phase)
    requires AllRead(view, cache) && Orderly(view, t, cache, n, p) && Above(cache, n)
    ensures Above(Walk(view, t, cache, n, p).left, Walk(view, t, cache, n, p).next)
    decreases |cache|
  {
    if n in cache {
      var m, rest := view(cache[n]).msg, cache - {n};
      if !Listening(p) && !Admin(m.kind) {
        assert Walk(view, t, cache, n, p) == Drainage([], rest, n);
      } else if m.kind.Logout? {
        assert Walk(view, t, cache, n, p) == Drainage([m], rest - {n + 1}, n + 1);
      } else {
        assert Above(rest, NextExpected(t.cfg, m)) by {
          forall k | k in rest ensures NextExpected(t.cfg, m) <= k {
            assert !(m.num < k < NextExpected(t.cfg, m));
          }
        }
        OrderlyWalk(view, t, rest, NextExpected(t.cfg, m), PhaseAfter(t, p, m));
      }
    }
  }

  /** Once the phase is decided it is not the recovery phase again. */
  lemma {:induction false} SettledElsewhere(t: Terms, p: Phase, h: seq<Msg>)
    requires p != RecoveringResend || HasLogout(h)
    ensures Settled(t, p, h) != RecoveringResend
    decreases |h|
  {
    if h != [] {
      assert h == [h[0]] + h[1..];
      OffendsCons(t, h[0], h[1..]);
      SettledElsewhere(t, PhaseAfter(t, p, h[0]), h[1..]);
    }
  }

  lemma DrainKeepsRecoveryOk(view: Wire -> View, s: State)
    requires s.Ok() && CacheReads(view, s) && s.phase == RecoveringResend && ReadyToDrain(s)
    requires OrderlyFrom(view, s)
    ensures RecoveryOk(DrainLoop(view, s))
  {
    var r, d, t := DrainLoop(view, s), Drained(view, s), TermsOf(s);
    assert Leads(s, d, r) by { DrainWalks(view, s); }
    assert Above(d.left, d.next) by { OrderlyWalk(view, t, s.cache, s.nextIn, s.phase); }
    assert HasLogout(d.handled) ==> Settled(t, s.phase, d.handled) != RecoveringResend by {
      if HasLogout(d.handled) { SettledElsewhere(t, s.phase, d.handled); }
    }
    forall k | k in d.left ensures d.next < k && InWindow(s.base, k) {
      assert k in s.cache;
    }
  }

  lemma OpenedIsOrderly(view: Wire -> View, s: State, w: Wire)
    requires s.Ok() && CacheReads(view, s) && s.phase != RecoveringResend
    requires Received(view, s, w).phase == RecoveringResend
    ensures OrderlyFrom(view, Received(view, s, w))
  {
    var r := Received(view, s, w);
    assert r.nextIn !in r.cache;
  }

  lemma ProcessKeepsRecoveryOk(view: Wire -> View, s: State, w: Wire)
    requires s.Ok() && CacheReads(view, s) && RecoveryOk(s) && GapFits(s, view(w)) && NothingPassed(view, s, w)
    ensures RecoveryOk(Process(view, s, w))
  {
    var s1 := Received(view, s, w);
    if s1.phase == RecoveringResend {
      ReceivedIsReady(view, s, w);
      if s.phase != RecoveringResend { OpenedIsOrderly(view, s, w); }
      DrainKeepsRecoveryOk(view, s1);
    }
  }

  /** A first gap fits the window, and nothing that is handled jumps over a cached number. */
  ghost predicate Fits(view: Wire -> View, s: State, e: Event)
    requires s.Ok() && CacheReads(view, s)
  {
    e.Receive? ==> GapFits(s, view(e.wire)) && NothingPassed(view, s, e.wire)
  }

  ghost predicate RunFits(view: Wire -> View, s: State, es: seq<Event>)
    requires s.Ok() && CacheReads(view, s)
    decreases |es|
  {
    es != [] ==> Fits(view, s, es[0]) && RunFits(view, Apply(view, s, es[0]), es[1..])
  }

  lemma ApplyKeepsRecoveryOk(view: Wire -> View, s: State, e: Event)
    requires s.Ok() && CacheReads(view, s) && RecoveryOk(s) && Fits(view, s, e)
    ensures RecoveryOk(Apply(view, s, e))
  {
    if e.Receive? {
      ProcessKeepsRecoveryOk(view, s, e.wire);
    }
  }

  /** The invariant of the recovery phase, over every run of events of any kind, with messages of any kind
      in the cache: it holds as long as first gaps fit the window and no handled message jumps over a cached
      number. */
  lemma {:induction false} RunKeepsRecoveryOk(view: Wire -> View, s: State, es: seq<Event>)
    requires s.Ok() && CacheReads(view, s) && RecoveryOk(s) && RunFits(view, s, es)
    ensures RecoveryOk(Run(view, s, es))
    decreases |es|
  {
    if es != [] {
      ApplyKeepsRecoveryOk(view, s, es[0]);
      RunKeepsRecoveryOk(view, Apply(view, s, es[0]), es[1..]);
    }
  }

  /** From the start of a session on. */
  lemma StartedRunIsRecoveryOk(view: Wire -> View, cfg: Config, hb: nat, es: seq<Event>)
    requires RunFits(view, Start(cfg, hb), es)
    ensures RecoveryOk(Run(view, Start(cfg, hb), es))
  {
    RunKeepsRecoveryOk(view, Start(cfg, hb), es);
  }

  // ---- when the phase ends ----

  /** Messages that decide about the phase. */
  predicate Decides(t: Terms, m: Msg) {
    m.kind.Logon? || EndsSession(t, m)
  }

  lemma {:induction false} SettledStays(t: Terms, h: seq<Msg>)
    ensures Settled(t, RecoveringResend, h) == RecoveringResend <==> forall i | 0 <= i < |h| :: !Decides(t, h[i])
    decreases |h|
  {
    if h != [] {
      assert Decides(t, h[0]) || !Decides(t, h[0]);
      if Decides(t, h[0]) {
        SettledElsewhere(t, PhaseAfter(t, RecoveringResend, h[0]), h[1..]);
      } else {
        SettledStays(t, h[1..]);
        forall i | 1 <= i < |h| ensures h[i] == h[1..][i - 1] {
        }
      }
    }
  }

  /** Draining ends the recovery phase exactly if it empties the cache or reaches a message that decides
      about the phase. It handles the walk through the cache and stops at a missing number. */
  lemma DrainEndsRecoveryExactly(view: Wire -> View, s: State)
    requires s.Ok() && CacheReads(view, s) && !s.stopped && s.phase == RecoveringResend
    ensures
      var r, d := DrainLoop(view, s), Drained(view, s);
      && r.cache == d.left && r.nextIn == d.next && r.nextIn !in r.cache
      && r.handled == s.handled + d.handled
      && (r.phase == RecoveringResend <==>
          d.left != map[] && forall i | 0 <= i < |d.handled| :: !Decides(TermsOf(s), d.handled[i]))
  {
    DrainWalks(view, s);
    SettledStays(TermsOf(s), Drained(view, s).handled);
  }

  // ---- when it cannot end any more ----

  /** Messages that leave the phase alone and move the expected number forward. */
  predicate Steady(m: Msg) {
    !m.kind.Logon? && !m.kind.Logout? && (m.kind.SequenceReset? ==> m.kind.newSeqNo > m.num)
  }

  lemma SteadyMeans(t: Terms, m: Msg)
    requires Steady(m)
    ensures !Decides(t, m) && NextExpected(t.cfg, m) > m.num
    ensures forall p :: PhaseAfter(t, p, m) == p
  {
  }

  /** A cached number has been passed over. */
  predicate Stuck(s: State, k: nat) {
    s.phase == RecoveringResend && !s.stopped && k in s.cache && k < s.nextIn
  }

  predicate AllSteady(h: seq<Msg>) {
    forall i | 0 <= i < |h| :: Steady(h[i])
  }

  /** A walk of steady messages does not come back for a number below its start. */
  lemma {:induction false} SteadyWalk(view: Wire -> View, t: Terms, cache: map<nat, Wire>, n: nat, k: nat)
    requires AllRead(view, cache) && k in cache && k < n
    requires AllSteady(Walk(view, t, cache, n, RecoveringResend).handled)
    ensures
      var d := Walk(view, t, cache, n, RecoveringResend);
      k in d.left && n <= d.next && !HasLogout(d.handled)
    decreases |cache|
  {
    if n in cache {
      var m, rest := view(cache[n]).msg, cache - {n};
      var h := Walk(view, t, cache, n, RecoveringResend).handled;
      assert h != [] && h[0] == m;
      SteadyMeans(t, m);
      var d := Walk(view, t, rest, NextExpected(t.cfg, m), RecoveringResend);
      assert h == [m] + d.handled;
      forall i | 0 <= i < |d.handled| ensures Steady(d.handled[i]) {
        assert h[i + 1] == d.handled[i];
      }
      SteadyWalk(view, t, rest, NextExpected(t.cfg, m), k);
      OffendsCons(t, m, d.handled);
    }
  }

  lemma SteadySettles(t: Terms, h: seq<Msg>)
    requires AllSteady(h)
    ensures Settled(t, RecoveringResend, h) == RecoveringResend
  {
    SettledStays(t, h);
    forall i | 0 <= i < |h| ensures !Decides(t, h[i]) {
      SteadyMeans(t, h[i]);
    }
  }

  lemma StuckThroughDrain(view: Wire -> View, s: State, k: nat)
    requires s.Ok() && CacheReads(view, s) && Stuck(s, k)
    requires AllSteady(Drained(view, s).handled)
    ensures Stuck(DrainLoop(view, s), k)
  {
    DrainWalks(view, s);
    SteadyWalk(view, TermsOf(s), s.cache, s.nextIn, k);
    SteadySettles(TermsOf(s), Drained(view, s).handled);
  }

  // ---- over runs ----

  /** Neither a new connection nor an end of the session from outside. */
  predicate Undisturbed(e: Event) {
    !e.Reconnected? && !e.StopRequested? && (e.LogonOverdue? ==> e.expected != RecoveringResend)
  }

  /** What was handled between `s` and `r`. */
  function HandledSince(s: State, r: State): seq<Msg>
    requires |s.handled| <= |r.handled|
  {
    r.handled[|s.handled|..]
  }

  ghost predicate StuckOrOut(s: State, r: State, k: nat) {
    s.sent <= r.sent && (Stuck(r, k) || SaysLogout(Said(s, r)))
  }

  lemma LogoutSaid(s: State, t: State)
    requires s.sent < t.sent && t.sent[|t.sent| - 1].kind.Logout?
    ensures SaysLogout(Said(s, t))
  {
    var ms := Said(s, t);
    assert ms[|ms| - 1] == t.sent[|t.sent| - 1];
  }

  lemma StuckReceived(view: Wire -> View, s: State, w: Wire, k: nat)
    requires s.Ok() && CacheReads(view, s) && Stuck(s, k)
    requires s.handled <= Received(view, s, w).handled && AllSteady(HandledSince(s, Received(view, s, w)))
    ensures StuckOrOut(s, Received(view, s, w), k)
  {
    var r, v := Received(view, s, w), view(w);
    if v.Valid? && v.msg.num == s.nextIn {
      DispatchOutcome(s, v.msg, w);
      assert HandledSince(s, r) == [v.msg] && HandledSince(s, r)[0] == v.msg;
      SteadyMeans(TermsOf(s), v.msg);
    } else if r.phase != RecoveringResend {
      LogoutSaid(s, r);
    }
  }

  lemma HandledSinceSplit(s: State, t: State, r: State)
    requires s.handled <= t.handled <= r.handled
    ensures HandledSince(s, r) == HandledSince(s, t) + HandledSince(t, r)
  {
  }

  lemma AllSteadySplit(a: seq<Msg>, b: seq<Msg>)
    requires AllSteady(a + b)
    ensures AllSteady(a) && AllSteady(b)
  {
    forall i | 0 <= i < |a| ensures Steady(a[i]) {
      assert (a + b)[i] == a[i];
    }
    forall i | 0 <= i < |b| ensures Steady(b[i]) {
      assert (a + b)[|a| + i] == b[i];
    }
  }

  /** Two steps, one after the other. */
  lemma StuckOrOutTransitive(s: State, t: State, r: State, k: nat)
    requires OnlyAdds(s, t) && OnlyAdds(t, r) && StuckOrOut(s, t, k)
    requires Stuck(t, k) ==> StuckOrOut(t, r, k)
    ensures StuckOrOut(s, r, k)
  {
    SaidConcat(s, t, r);
    SaysConcat(Said(s, t), Said(t, r));
  }

  lemma StuckDrain(view: Wire -> View, s: State, k: nat)
    requires s.Ok() && CacheReads(view, s) && Stuck(s, k)
    requires s.handled <= DrainLoop(view, s).handled && AllSteady(HandledSince(s, DrainLoop(view, s)))
    ensures StuckOrOut(s, DrainLoop(view, s), k)
  {
    DrainWalks(view, s);
    assert HandledSince(s, DrainLoop(view, s)) == Drained(view, s).handled;
    StuckThroughDrain(view, s, k);
  }

  lemma StuckProcess(view: Wire -> View, s: State, w: Wire, k: nat)
    requires s.Ok() && CacheReads(view, s) && Stuck(s, k)
    requires s.handled <= Process(view, s, w).handled && AllSteady(HandledSince(s, Process(view, s, w)))
    ensures StuckOrOut(s, Process(view, s, w), k)
  {
    var s1, r := Received(view, s, w), Process(view, s, w);
    DispatchOnlyAdds(s, view(w), w);
    DrainLoopOnlyAdds(view, s1);
    HandledSinceSplit(s, s1, r);
    AllSteadySplit(HandledSince(s, s1), HandledSince(s1, r));
    StuckReceived(view, s, w, k);
    if Stuck(s1, k) {
      StuckDrain(view, s1, k);
    }
    StuckOrOutTransitive(s, s1, r, k);
  }

  lemma StuckApply(view: Wire -> View, s: State, e: Event, k: nat)
    requires s.Ok() && CacheReads(view, s) && Stuck(s, k) && Undisturbed(e)
    requires s.handled <= Apply(view, s, e).handled && AllSteady(HandledSince(s, Apply(view, s, e)))
    ensures StuckOrOut(s, Apply(view, s, e), k)
  {
    if e.Receive? {
      StuckProcess(view, s, e.wire, k);
    } else if Apply(view, s, e).phase != RecoveringResend {
      LogoutSaid(s, Apply(view, s, e));
    }
  }

  /** A cached number that was passed over keeps the session in recovery: over every run on the same
      connection in which the handled messages move forward and leave the phase alone, the phase does not
      end and the number stays cached, unless the session asks for logout. */
  lemma {:induction false} StuckForGood(view: Wire -> View, s: State, es: seq<Event>, k: nat)
    requires s.Ok() && CacheReads(view, s) && Stuck(s, k)
    requires forall e | e in es :: Undisturbed(e)
    requires s.handled <= Run(view, s, es).handled && AllSteady(HandledSince(s, Run(view, s, es)))
    ensures StuckOrOut(s, Run(view, s, es), k)
    decreases |es|
  {
    if es != [] {
      var t, r := Apply(view, s, es[0]), Run(view, s, es);
      assert es[0] in es && Undisturbed(es[0]);
      ApplyOnlyAdds(view, s, es[0]);
      RunOnlyAdds(view, t, es[1..]);
      HandledSinceSplit(s, t, r);
      AllSteadySplit(HandledSince(s, t), HandledSince(t, r));
      StuckApply(view, s, es[0], k);
      if Stuck(t, k) {
        StuckForGood(view, t, es[1..], k);
      }
      StuckOrOutTransitive(s, t, r, k);
    }
  }

  // ---- exactly when the invariant is kept ----

  /** A walk of steady messages that is not orderly leaves a number behind. */
  lemma {:induction false} PassedOverIsLeft(view: Wire -> View, t: Terms, cache: map<nat, Wire>, n: nat)
    returns (k: nat)
    requires AllRead(view, cache) && forall i | i in cache :: Steady(view(cache[i]).msg)
    requires !Orderly(view, t, cache, n, RecoveringResend)
    ensures
      var d := Walk(view, t, cache, n, RecoveringResend);
      k in d.left && k < d.next
    decreases |cache|
  {
    var m, rest := view(cache[n]).msg, cache - {n};
    var next := NextExpected(t.cfg, m);
    SteadyMeans(t, m);
    if PassesOver(t.cfg, m, rest) {
      k :| k in rest && m.num < k < next;
      SteadyHandled(view, t, rest, next);
      SteadyWalk(view, t, rest, next, k);
    } else {
      k := PassedOverIsLeft(view, t, rest, next);
    }
  }

  lemma {:induction false} SteadyHandled(view: Wire -> View, t: Terms, cache: map<nat, Wire>, n: nat)
    requires AllRead(view, cache) && forall i | i in cache :: Steady(view(cache[i]).msg)
    ensures AllSteady(Walk(view, t, cache, n, RecoveringResend).handled)
    decreases |cache|
  {
    if n in cache {
      var m, rest := view(cache[n]).msg, cache - {n};
      SteadyMeans(t, m);
      SteadyHandled(view, t, rest, NextExpected(t.cfg, m));
    }
  }

  lemma LeftBelow(view: Wire -> View, s: State, k: nat)
    requires s.Ok() && CacheReads(view, s) && !s.stopped && s.phase == RecoveringResend
    requires forall i | i in s.cache :: Steady(view(s.cache[i]).msg)
    requires k in Drained(view, s).left && k < Drained(view, s).next
    ensures Stuck(DrainLoop(view, s), k)
  {
    var h := Drained(view, s).handled;
    DrainWalks(view, s);
    SteadyHandled(view, TermsOf(s), s.cache, s.nextIn);
    SteadySettles(TermsOf(s), h);
    if HasLogout(h) { SettledElsewhere(TermsOf(s), s.phase, h); }
  }

  /** Where the message that arrives and the cached ones are steady, the invariant is kept if and only if
      none of those handled jumps over a cached number; otherwise that number is passed over. */
  lemma RecoveryOkExactly(view: Wire -> View, s: State, w: Wire)
    requires s.Ok() && CacheReads(view, s) && RecoveryOk(s) && s.phase == RecoveringResend
    requires forall i | i in s.cache :: Steady(view(s.cache[i]).msg)
    requires view(w).Valid? && view(w).msg.num == s.nextIn && Steady(view(w).msg)
    ensures RecoveryOk(Process(view, s, w)) <==> NothingPassed(view, s, w)
    ensures !NothingPassed(view, s, w) ==> exists k: nat :: Stuck(Process(view, s, w), k)
  {
    var m, s1, t := view(w).msg, Received(view, s, w), TermsOf(s);
    DispatchOutcome(s, m, w);
    SteadyMeans(t, m);
    if NothingPassed(view, s, w) {
      ProcessKeepsRecoveryOk(view, s, w);
    } else {
      var k: nat;
      if PassesOver(s.cfg, m, s.cache) {
        k :| k in s.cache && m.num < k < NextExpected(s.cfg, m);
        SteadyHandled(view, t, s1.cache, s1.nextIn);
        SteadyWalk(view, t, s1.cache, s1.nextIn, k);
      } else {
        k := PassedOverIsLeft(view, t, s1.cache, s1.nextIn);
      }
      LeftBelow(view, s1, k);
      assert Stuck(Process(view, s, w), k);
    }
  }

  /** Such a gap fill: expecting 5, with 7 in the cache, a gap fill from 5 to 10 leaves 7 behind. */
  lemma JumpLeavesStuck(view: Wire -> View, s: State, w5: Wire, w7: Wire, body: Wire)
    requires s.Ok() && !s.stopped && s.phase == RecoveringResend && s.nextIn == 5 && InWindow(s.base, 7)
    requires s.cache == map[7 := w7] && view(w7) == Valid(Msg(7, App(body), false))
    requires view(w5) == Valid(GapFill(5, 9))
    ensures
      var r := Process(view, s, w5);
      RecoveryOk(s) && r.nextIn == 10 && r.cache == map[7 := w7] && Stuck(r, 7) && !RecoveryOk(r)
  {
    var r := Received(view, s, w5);
    assert r == s.(nextIn := 10, handled := s.handled + [GapFill(5, 9)]);
    assert 7 in r.cache && r.nextIn !in r.cache;
  }
}
