/** What a resend request is answered with, told from the log alone. */
module Requests {
  import opened Bytes
  import opened Protocol
  import opened SessionSpec
  import opened SessionRuns
  import opened OutboundLog
  import opened Draining
  import opened TwoEnds

  /** `r` is `q` after it has handled `m` and sent `answer` again. */
  predicate AnsweredWith(q: State, r: State, m: Msg, answer: seq<Msg>) {
    && r.sent == q.sent + answer
    && r == q.(sent := r.sent, nextIn := m.num + 1, handled := q.handled + [m])
  }

  predicate Asks(q: State, m: Msg, b: nat, e: nat) {
    q.Ok() && !q.stopped && m.num == q.nextIn && m.kind == ResendRequest(b, e) && b >= 1
  }

  /** A request in its turn without an end, or with one that is not sent yet or just sent, is answered with the
      replay of everything from its begin on. */
  lemma OpenEndAnswered(q: State, m: Inbound, b: SeqNo, e: nat, w: Wire)
    requires Asks(q, m, b, e) && Logged(q) && (e == 0 || e >= |q.store|)
    ensures AnsweredWith(q, Dispatch(q, Valid(m), w), m, Replay(q.store, b, |q.store|))
    ensures b <= |q.store| + 1 ==> AppContent(Replay(q.store, b, |q.store|)) == AppContent(q.store[b - 1..])
  {
    if b <= |q.store| + 1 {
      ReplayKeepsAppContent(q.store, b, |q.store|);
      assert q.store[b - 1..] == q.store[b - 1..|q.store|];
    }
  }

  /** One with an end inside of what was sent is answered with the replay of the range. */
  lemma RangeAnswered(q: State, m: Inbound, b: SeqNo, e: nat, w: Wire)
    requires Asks(q, m, b, e) && Logged(q) && 1 <= e <= |q.store|
    ensures AnsweredWith(q, Dispatch(q, Valid(m), w), m, Replay(q.store, b, e))
    ensures b <= e + 1 ==> AppContent(Replay(q.store, b, e)) == AppContent(q.store[b - 1..e])
  {
    if b <= e + 1 {
      ReplayKeepsAppContent(q.store, b, e);
    }
  }

  /** A request from beyond what was sent, or with its end before its begin, is answered with nothing. */
  lemma EmptyRangeAnswered(q: State, m: Inbound, b: SeqNo, e: nat, w: Wire)
    requires Asks(q, m, b, e) && Logged(q) && (b > |q.store| || 1 <= e < b)
    ensures AnsweredWith(q, Dispatch(q, Valid(m), w), m, [])
  {
  }

  /** A session that never resets on logon, after any run from its start, gives all it has ever sent on the
      request for everything from 1 on: gap fills and possible duplicates that partition the numbers given out,
      with the content of the application messages sent as originals, in order. */
  lemma EverythingIsAnswered(view: Wire -> View, cfg: Config, hb: nat, es: seq<Event>, m: Inbound, w: Wire)
    returns (answer: seq<Msg>)
    requires cfg.role.Initiator? || !cfg.acceptorResetOnLogon
    requires Asks(Run(view, Start(cfg, hb), es), m, 1, 0)
    ensures
      var q := Run(view, Start(cfg, hb), es);
      && AnsweredWith(q, Dispatch(q, Valid(m), w), m, answer)
      && Partitions(answer, 1, q.nextOut) && Originals(answer) == []
      && AppContent(answer) == AppContent(Originals(q.sent))
  {
    var q := Run(view, Start(cfg, hb), es);
    StartedRunIsAligned(view, cfg, hb, es);
    answer := Replay(q.store, 1, |q.store|);
    OpenEndAnswered(q, m, 1, 0, w);
    ReplayPartitions(q.store, 1, |q.store|);
    ReplayHasNoOriginals(q.store, 1, |q.store|);
    assert q.store[0..] == q.store;
  }
}
