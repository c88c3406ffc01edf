/** The session-level vocabulary: what a wire means to a session, and what a session sends. */
module Protocol {
  import opened Bytes

  /** Sequence numbers start at 1. */
  type SeqNo = n: nat | 1 <= n witness 1

  datatype Kind =
    | Logon(heartBtInt: nat, resetSeqNum: bool)
    | Logout
    | Heartbeat(testReqId: Wire)
    | TestRequest(id: Wire)
    | ResendRequest(beginSeqNo: nat, endSeqNo: nat)
    | Reject(refSeqNum: nat)
    | SequenceReset(newSeqNo: nat, gapFill: bool)
    | Custom(payload: Wire)
    | App(body: Wire)

  datatype Msg = Msg(num: nat, kind: Kind, possDup: bool)

  /** A session may only be asked to resend from number 1 on. */
  predicate IsInbound(m: Msg) {
    m.kind.ResendRequest? ==> m.kind.beginSeqNo >= 1
  }

  type Inbound = m: Msg | IsInbound(m) witness Msg(1, Logout, false)

  /** The outcome of parsing and validating a wire, all that a session looks at. `Unnumbered` is a
      wire the validator passes although its MsgSeqNum does not read as an unsigned number ("+5"). */
  datatype View =
    | ParseError
    | Fatal
    | Invalid(refSeqNum: nat)
    | Unnumbered
    | Valid(msg: Inbound)

  /** The message types a resend replaces by gap fills. Their complement is what a session refuses
      before logon (`is_app_message_type_`). */
  predicate Admin(k: Kind) {
    !k.Custom? && !k.App?
  }

  /** The entries of `store` in [lo, hi) are all admin messages. */
  predicate AllAdmin(store: seq<Msg>, lo: nat, hi: nat)
    requires hi <= |store|
  {
    forall i | lo <= i < hi :: Admin(store[i].kind)
  }

  /** End of the run of admin messages that starts at `b`, cut at `e`. */
  function RunEnd(store: seq<Msg>, b: SeqNo, e: nat): (r: nat)
    requires b <= e <= |store| && Admin(store[b - 1].kind)
    ensures b <= r <= e
    ensures AllAdmin(store, b - 1, r)
    ensures r < e ==> !Admin(store[r].kind)
    decreases e - b
  {
    if b < e && Admin(store[b].kind) then RunEnd(store, b + 1, e) else b
  }

  function GapFill(b: nat, e: nat): Msg {
    Msg(b, SequenceReset(e + 1, true), true)
  }

  /** What answers ResendRequest(b, e) out of a store whose entry i - 1 is message i: application
      messages again, flagged as possible duplicates, and one gap fill for each run of admin ones. */
  function Replay(store: seq<Msg>, b: SeqNo, e: nat): seq<Msg>
    requires e <= |store|
    decreases e + 1 - b
  {
    if b > e then []
    else if Admin(store[b - 1].kind) then
      var r := RunEnd(store, b, e);
      [GapFill(b, r)] + Replay(store, r + 1, e)
    else
      [store[b - 1].(possDup := true)] + Replay(store, b + 1, e)
  }

  /** The application content of a list of messages: number and kind, without the duplicate flag. */
  function AppContent(ms: seq<Msg>): seq<(nat, Kind)> {
    if ms == [] then []
    else if Admin(ms[0].kind) then AppContent(ms[1..])
    else [(ms[0].num, ms[0].kind)] + AppContent(ms[1..])
  }

  lemma {:induction false} AppContentConcat(xs: seq<Msg>, ys: seq<Msg>)
    ensures AppContent(xs + ys) == AppContent(xs) + AppContent(ys)
  {
    if xs == [] {
      assert xs + ys == ys;
    } else {
      assert (xs + ys)[1..] == xs[1..] + ys;
      AppContentConcat(xs[1..], ys);
    }
  }

  lemma {:induction false} AppContentCons(m: Msg, ms: seq<Msg>)
    ensures AppContent([m] + ms) == (if Admin(m.kind) then [] else [(m.num, m.kind)]) + AppContent(ms)
  {
    assert ([m] + ms)[1..] == ms;
  }

  lemma {:induction false} AppContentSkipsAdmins(store: seq<Msg>, lo: nat, mid: nat, hi: nat)
    requires lo <= mid <= hi <= |store| && AllAdmin(store, lo, mid)
    ensures AppContent(store[lo..hi]) == AppContent(store[mid..hi])
    decreases mid - lo
  {
    if lo < mid {
      assert store[lo..hi][1..] == store[lo + 1..hi];
      AppContentSkipsAdmins(store, lo + 1, mid, hi);
    }
  }

  /** A replay carries exactly the application messages of the requested range, in order. */
  lemma {:induction false} ReplayKeepsAppContent(store: seq<Msg>, b: SeqNo, e: nat)
    requires b <= e + 1 && e <= |store|
    ensures AppContent(Replay(store, b, e)) == AppContent(store[b - 1..e])
    decreases e + 1 - b
  {
    if b > e {
      assert store[b - 1..e] == [];
    } else if Admin(store[b - 1].kind) {
      var r := RunEnd(store, b, e);
      ReplayKeepsAppContent(store, r + 1, e);
      AppContentCons(GapFill(b, r), Replay(store, r + 1, e));
      assert Replay(store, b, e) == [GapFill(b, r)] + Replay(store, r + 1, e);
      AppContentSkipsAdmins(store, b - 1, r, e);
    } else {
      ReplayKeepsAppContent(store, b + 1, e);
      AppContentCons(store[b - 1].(possDup := true), Replay(store, b + 1, e));
      assert Replay(store, b, e) == [store[b - 1].(possDup := true)] + Replay(store, b + 1, e);
      AppContentCons(store[b - 1], store[b..e]);
      assert store[b - 1..e] == [store[b - 1]] + store[b..e];
    }
  }

  /** The answer depends only on the requested range: messages sent later do not change it. */
  lemma {:induction false} ReplayOfPrefix(store: seq<Msg>, m: nat, b: SeqNo, e: nat)
    requires e <= m <= |store|
    ensures Replay(store[..m], b, e) == Replay(store, b, e)
    decreases e + 1 - b
  {
    if b <= e {
      if Admin(store[b - 1].kind) {
        RunEndOfPrefix(store, m, b, e);
        ReplayOfPrefix(store, m, RunEnd(store, b, e) + 1, e);
      } else {
        ReplayOfPrefix(store, m, b + 1, e);
      }
    }
  }

  lemma {:induction false} RunEndOfPrefix(store: seq<Msg>, m: nat, b: SeqNo, e: nat)
    requires b <= e <= m <= |store| && Admin(store[b - 1].kind)
    ensures RunEnd(store[..m], b, e) == RunEnd(store, b, e)
    decreases e - b
  {
    if b < e && Admin(store[b].kind) {
      RunEndOfPrefix(store, m, b + 1, e);
    }
  }

  /** The numbers one replayed message takes the receiver across. */
  function NextAfter(m: Msg): nat {
    if m.kind.SequenceReset? then m.kind.newSeqNo else m.num + 1
  }

  /** `ms` leads a receiver from `b` to `e` without a hole or an overlap. */
  predicate Partitions(ms: seq<Msg>, b: nat, e: nat) {
    if ms == [] then b == e
    else ms[0].num == b && b < NextAfter(ms[0]) <= e && Partitions(ms[1..], NextAfter(ms[0]), e)
  }

  /** Entry i - 1 of a store that was never reset is message i. */
  predicate Numbered(store: seq<Msg>) {
    forall i | 0 <= i < |store| :: store[i].num == i + 1
  }

  lemma {:induction false} PartitionsCons(m: Msg, ms: seq<Msg>, e: nat)
    requires m.num < NextAfter(m) <= e && Partitions(ms, NextAfter(m), e)
    ensures Partitions([m] + ms, m.num, e)
  {
    assert ([m] + ms)[1..] == ms;
  }

  /** The replayed messages partition the requested range: every number is covered exactly once. */
  lemma {:induction false} ReplayPartitions(store: seq<Msg>, b: SeqNo, e: nat)
    requires b <= e + 1 && e <= |store| && Numbered(store)
    ensures Partitions(Replay(store, b, e), b, e + 1)
    decreases e + 1 - b
  {
    if b <= e {
      if Admin(store[b - 1].kind) {
        var r := RunEnd(store, b, e);
        ReplayPartitions(store, r + 1, e);
        PartitionsCons(GapFill(b, r), Replay(store, r + 1, e), e + 1);
      } else {
        ReplayPartitions(store, b + 1, e);
        PartitionsCons(store[b - 1].(possDup := true), Replay(store, b + 1, e), e + 1);
      }
    }
  }

  /** `m` is a right answer for its number in a replay of [b, e]: the stored application message as
      a possible duplicate, or a gap fill over a run of admin messages that is maximal in the range. */
  predicate AnswersFor(store: seq<Msg>, b: SeqNo, e: nat, m: Msg)
    requires e <= |store|
  {
    && b <= m.num <= e && m.possDup
    && if Admin(store[m.num - 1].kind) then
         && m.kind.SequenceReset? && m.kind.gapFill
         && m.num < m.kind.newSeqNo <= e + 1
         && AllAdmin(store, m.num - 1, m.kind.newSeqNo - 1)
         && (m.kind.newSeqNo <= e ==> !Admin(store[m.kind.newSeqNo - 1].kind))
         && (b < m.num ==> !Admin(store[m.num - 2].kind))
       else
         m.kind == store[m.num - 1].kind
  }

  lemma {:induction false} ReplayAnswers(store: seq<Msg>, b: SeqNo, e: nat, i: nat)
    requires e <= |store| && Numbered(store) && i < |Replay(store, b, e)|
    ensures AnswersFor(store, b, e, Replay(store, b, e)[i])
    decreases e + 1 - b
  {
    if i > 0 {
      if Admin(store[b - 1].kind) {
        var r := RunEnd(store, b, e);
        ReplayAnswers(store, r + 1, e, i - 1);
        assert Replay(store, b, e)[i] == Replay(store, r + 1, e)[i - 1];
      } else {
        ReplayAnswers(store, b + 1, e, i - 1);
        assert Replay(store, b, e)[i] == Replay(store, b + 1, e)[i - 1];
      }
    }
  }
}
