/** One direction of a connection: what the end `x` has said and the end `y` has not read, while `y` may be
    behind, and how far its recovery has got. */
module Directions {
  import opened Bytes
  import opened Protocol
  import opened SessionSpec
  import opened SessionRuns
  import opened Draining
  import opened GapRecovery
  import opened Answering
  import opened TwoEnds

  // ---- what may come before a Logon ----

  /** Application messages come only once the reader listens: behind a Logon, if it does not yet. */
  predicate Admits(p: Phase, u: seq<Msg>) {
    forall i | 0 <= i < |u| && !Admin(u[i].kind) :: Listening(p) || exists j | 0 <= j < i :: u[j].kind.Logon?
  }

  /** The reader listens once it has read `u`. */
  predicate Opened(p: Phase, u: seq<Msg>) {
    Listening(p) || exists j | 0 <= j < |u| :: u[j].kind.Logon?
  }

  lemma AdmitsMore(p: Phase, u: seq<Msg>, more: seq<Msg>)
    requires Admits(p, u) && (Opened(p, u) || Admits(p, more))
    ensures Admits(p, u + more)
  {
    forall i | 0 <= i < |u + more| && !Admin((u + more)[i].kind)
      ensures Listening(p) || exists j | 0 <= j < i :: (u + more)[j].kind.Logon?
    {
      if !Listening(p) {
        if i < |u| {
          var j :| 0 <= j < i && u[j].kind.Logon?;
          assert (u + more)[j] == u[j];
        } else if Opened(p, u) {
          var j :| 0 <= j < |u| && u[j].kind.Logon?;
          assert (u + more)[j] == u[j];
        } else {
          assert (u + more)[i] == more[i - |u|];
          var j :| 0 <= j < i - |u| && more[j].kind.Logon?;
          assert (u + more)[|u| + j] == more[j];
        }
      }
    }
  }

  lemma OpenedMore(p: Phase, u: seq<Msg>, more: seq<Msg>)
    ensures Opened(p, u + more) <==> Opened(p, u) || Opened(p, more)
  {
    forall j | 0 <= j < |u| ensures (u + more)[j] == u[j] {
    }
    forall j | 0 <= j < |more| ensures (u + more)[|u| + j] == more[j] {
    }
  }

  /** The first message is read. `q` is the phase it leaves behind. */
  lemma AdmitsRest(p: Phase, u: seq<Msg>, q: Phase)
    requires u != [] && Admits(p, u) && (Listening(p) || u[0].kind.Logon? ==> Listening(q))
    ensures Admits(q, u[1..]) && (Listening(p) || Admin(u[0].kind))
    ensures Opened(p, u) ==> Opened(q, u[1..])
  {
    if !Listening(q) {
      forall i | 0 <= i < |u[1..]| && !Admin(u[1..][i].kind) ensures exists j | 0 <= j < i :: u[1..][j].kind.Logon? {
        var j :| 0 <= j < i + 1 && u[j].kind.Logon?;
        assert u[1..][j - 1] == u[j];
      }
      if Opened(p, u) {
        var j :| 0 <= j < |u| && u[j].kind.Logon?;
        assert u[1..][j - 1] == u[j];
      }
    }
  }

  lemma OpenedRest(p: Phase, u: seq<Msg>)
    requires u != [] && Opened(p, u[1..])
    ensures Opened(p, u)
  {
    if !Listening(p) {
      var j :| 0 <= j < |u[1..]| && u[1..][j].kind.Logon?;
      assert u[j + 1] == u[1..][j];
    }
  }

  lemma AdminsAreAdmitted(p: Phase, u: seq<Msg>)
    requires forall i | 0 <= i < |u| :: Admin(u[i].kind)
    ensures Admits(p, u)
  {
  }

  // ---- interleavings that grow ----

  lemma {:induction false} InterleavesMore(zs: seq<Msg>, xs: seq<Msg>, ys: seq<Msg>, more: seq<Msg>)
    requires Interleaves(zs, xs, ys)
    ensures Interleaves(zs + more, xs, ys + more)
    decreases |zs|
  {
    if zs == [] {
      assert zs + more == more && ys + more == more;
      InterleavesOnly(more);
    } else {
      assert (zs + more)[1..] == zs[1..] + more;
      if xs != [] && zs[0] == xs[0] && Interleaves(zs[1..], xs[1..], ys) {
        InterleavesMore(zs[1..], xs[1..], ys, more);
      } else {
        InterleavesMore(zs[1..], xs, ys[1..], more);
        assert (ys + more)[1..] == ys[1..] + more;
      }
    }
  }

  lemma {:induction false} InterleavesOnly(ys: seq<Msg>)
    ensures Interleaves(ys, [], ys)
    decreases |ys|
  {
    if ys != [] {
      InterleavesOnly(ys[1..]);
    }
  }

  /** First all of one, then all of the other. */
  lemma {:induction false} InterleavesBehind(xs: seq<Msg>, ys: seq<Msg>)
    ensures Interleaves(ys + xs, xs, ys)
    decreases |ys|, |xs|
  {
    if ys == [] {
      assert ys + xs == xs;
      if xs != [] {
        assert [] + xs[1..] == xs[1..];
        InterleavesBehind(xs[1..], []);
      }
    } else {
      assert (ys + xs)[1..] == ys[1..] + xs;
      InterleavesBehind(xs, ys[1..]);
    }
  }

  // ---- how far the recovery of `y` has got ----

  /** `y` misses everything up to number e and knows nothing of it; it has asked for it, in its message r,
      and has what comes from e + 1 to j in its cache; the answer is on its way, and has brought it up to p;
      or it misses nothing. */
  datatype Stage = Missing(e: nat) | Asked(e: nat, j: nat, r: nat) | Answered(e: nat, j: nat, p: nat) | Level

  /** What is left of the recovery. */
  function Rank(st: Stage): nat {
    match st
    case Missing(_) => 3
    case Asked(_, _, _) => 2
    case Answered(_, _, _) => 1
    case Level => 0
  }

  ghost predicate AllInbound(ms: seq<Msg>) {
    forall i | 0 <= i < |ms| :: IsInbound(ms[i])
  }

  /** What is on its way from the end that keeps `log` to `y`, and how `y` stands. */
  ghost predicate Incoming(view: Wire -> View, log: seq<Inbound>, y: State, xy: seq<Msg>, st: Stage) {
    && OkEnd(view, y) && !y.stopped && 1 <= y.nextIn <= |log| + 1
    && match st
       case Missing(e) =>
         && (y.phase == AwaitingLogon || y.phase == LogonSent) && y.nextIn <= e <= |log|
         && xy == log[e..] && (e < |log| ==> Admin(log[e].kind))
       case Asked(e, j, _) =>
         && Mid(view, y, TermsOf(y), log, y.base, e + 1, j + 1, y.nextIn) && y.nextIn == y.base
         && xy == log[j..]
       case Answered(e, j, p) =>
         && Mid(view, y, TermsOf(y), log, y.base, e + 1, j + 1, p)
         && Interleaves(xy, Replay(log, p, e), log[j..])
       case Level =>
         && (y.phase == AwaitingLogon || y.phase == LogonSent || y.phase == Active) && y.cache == map[]
         && xy == log[y.nextIn - 1..] && Admits(y.phase, xy)
  }

  /** The number from which on the messages to `y` are ordinary ones, sent on this connection. */
  function FreshFrom(y: State, st: Stage): nat {
    match st
    case Missing(e) => e + 1
    case Asked(e, _, _) => e + 1
    case Answered(e, _, _) => e + 1
    case Level => y.nextIn
  }

  predicate PlainFrom(hb: nat, log: seq<Msg>, n: nat) {
    forall i | 0 <= i < |log| && n <= i + 1 :: Plain(hb, log[i].kind)
  }

  lemma MidMore(view: Wire -> View, y: State, t: Terms, log: seq<Inbound>, more: seq<Inbound>,
                b: nat, k: nat, j: nat, p: nat)
    requires Mid(view, y, t, log, b, k, j, p)
    ensures Mid(view, y, t, log + more, b, k, j, p)
  {
    forall i | i in y.cache ensures view(y.cache[i]) == Valid((log + more)[i - 1]) {
      assert (log + more)[i - 1] == log[i - 1];
    }
  }

  lemma AnsweredMore(log: seq<Inbound>, more: seq<Inbound>, xy: seq<Msg>, e: nat, j: nat, p: nat)
    requires 1 <= p <= e <= j <= |log| && Interleaves(xy, Replay(log, p, e), log[j..])
    ensures Interleaves(xy + more, Replay(log + more, p, e), (log + more)[j..])
  {
    var all := log + more;
    assert all[..|log|] == log && all[j..] == log[j..] + more;
    ReplayOfPrefix(all, |log|, p, e);
    InterleavesMore(xy, Replay(log, p, e), log[j..], more);
  }

  lemma TailMore(log: seq<Inbound>, more: seq<Inbound>, n: nat)
    requires n <= |log|
    ensures (log + more)[n..] == log[n..] + more
  {
  }

  /** The other end says more of its own. */
  lemma IncomingMore(view: Wire -> View, log: seq<Inbound>, more: seq<Inbound>, y: State, xy: seq<Msg>, st: Stage)
    requires Incoming(view, log, y, xy, st)
    requires st.Missing? && st.e == |log| && more != [] ==> Admin(more[0].kind)
    requires st.Level? ==> Admits(y.phase, xy + more)
    ensures Incoming(view, log + more, y, xy + more, st)
  {
    match st
    case Missing(e) => TailMore(log, more, e);
    case Asked(e, j, _) =>
      MidMore(view, y, TermsOf(y), log, more, y.base, e + 1, j + 1, y.nextIn);
      TailMore(log, more, j);
    case Answered(e, j, p) =>
      MidMore(view, y, TermsOf(y), log, more, y.base, e + 1, j + 1, p);
      AnsweredMore(log, more, xy, e, j, p);
    case Level => TailMore(log, more, y.nextIn - 1);
  }
}
