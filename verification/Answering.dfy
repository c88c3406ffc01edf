/** What a session answers the ordinary messages of its peer with. */
module Answering {
  import opened Bytes
  import opened Protocol
  import opened SessionSpec
  import opened SessionRuns
  import opened OutboundLog
  import opened Draining

  /** What ends send each other in the ordinary course, on a heartbeat interval of `hb`. */
  predicate Plain(hb: nat, k: Kind) {
    k.App? || k.Custom? || k.Heartbeat? || k.TestRequest? || k == Logon(hb, false)
  }

  /** The answer to an ordinary message. */
  function Reply(cfg: Config, k: Kind): seq<Kind> {
    match k
    case Logon(_, _) => if cfg.role.Acceptor? then [k] else []
    case TestRequest(id) => [Heartbeat(id)]
    case Custom(payload) => if IsReply(payload) then [] else [Custom(REPLY_HEAD + cfg.readableId)]
    case _ => []
  }

  function Replies(cfg: Config, h: seq<Msg>): seq<Kind> {
    if h == [] then [] else Reply(cfg, h[0].kind) + Replies(cfg, h[1..])
  }

  /** Originals of these kinds, numbered from `n` on. */
  function Stamped(n: nat, ks: seq<Kind>): (r: seq<Msg>)
    ensures |r| == |ks| && forall i | 0 <= i < |ks| :: r[i] == Msg(n + i, ks[i], false)
  {
    seq(|ks|, i requires 0 <= i < |ks| => Msg(n + i, ks[i], false))
  }

  /** Between `s` and `r` messages of the kinds `ks` were sent and stored, and nothing else. */
  predicate Replied(s: State, r: State, ks: seq<Kind>) {
    && r.sent == s.sent + Stamped(s.nextOut, ks)
    && r.store == s.store + Stamped(s.nextOut, ks)
    && r.nextOut == s.nextOut + |ks|
  }

  lemma StampedConcat(n: nat, ks: seq<Kind>, more: seq<Kind>)
    ensures Stamped(n, ks + more) == Stamped(n, ks) + Stamped(n + |ks|, more)
  {
  }

  lemma RepliedConcat(s: State, t: State, r: State, ks: seq<Kind>, more: seq<Kind>)
    requires Replied(s, t, ks) && Replied(t, r, more)
    ensures Replied(s, r, ks + more)
  {
    StampedConcat(s.nextOut, ks, more);
  }

  lemma RepliedNothing(s: State, r: State)
    requires r.sent == s.sent && r.store == s.store && r.nextOut == s.nextOut
    ensures Replied(s, r, [])
  {
  }

  lemma {:induction false} RepliesConcat(cfg: Config, g: seq<Msg>, h: seq<Msg>)
    ensures Replies(cfg, g + h) == Replies(cfg, g) + Replies(cfg, h)
    decreases |g|
  {
    if g == [] {
      assert g + h == h;
    } else {
      assert (g + h)[1..] == g[1..] + h;
      RepliesConcat(cfg, g[1..], h);
    }
  }

  lemma RepliesOne(cfg: Config, m: Msg)
    ensures Replies(cfg, [m]) == Reply(cfg, m.kind)
  {
    assert [m][1..] == [];
  }

  /** Messages with an answer of their own: no requests, and none that end the session or reset it. */
  predicate Answerable(t: Terms, m: Msg) {
    !m.kind.ResendRequest? && !EndsSession(t, m) && !ResettingLogon(t.cfg, m)
  }

  lemma EmitReplies(s: State, k: Kind)
    requires s.Ok() && !s.stopped
    ensures Replied(s, Emit(s, k), [k])
  {
  }

  /** Handling the expected message says its reply. */
  lemma DispatchReplies(s: State, m: Inbound, w: Wire)
    requires Expected(s, m) && Answerable(TermsOf(s), m)
    ensures Replied(s, Dispatch(s, Valid(m), w), Reply(s.cfg, m.kind))
  {
    var s1, r := s.(nextIn := m.num + 1, handled := s.handled + [m]), Dispatch(s, Valid(m), w);
    match m.kind
    case Logon(hbi, reset) =>
      if s.cfg.role.Acceptor? {
        EmitReplies(s1.(heartBeatInt := hbi, phase := LogonReceived), m.kind);
      } else {
        RepliedNothing(s, r);
      }
    case TestRequest(id) => EmitReplies(s1, Heartbeat(id));
    case Custom(payload) =>
      if IsReply(payload) {
        RepliedNothing(s, r);
      } else {
        EmitReplies(s1, Custom(REPLY_HEAD + s.cfg.readableId));
      }
    case Heartbeat(_) => RepliedNothing(s, r);
    case Reject(_) => RepliedNothing(s, r);
    case SequenceReset(_, _) => RepliedNothing(s, r);
    case App(_) => RepliedNothing(s, r);
  }

  /** A cache that holds the messages behind the first `a` and up to `b` of a history, harmless and without
      requests. */
  ghost predicate Holds(view: Wire -> View, t: Terms, cache: map<nat, Wire>, history: seq<Inbound>, a: nat, b: nat) {
    && a <= b <= |history| && Numbered(history)
    && (forall i | i in cache :: a < i <= b && view(cache[i]) == Valid(history[i - 1]))
    && (forall i | a < i <= b :: i in cache)
    && (forall i | a <= i < b :: Harmless(t, history[i]) && !history[i].kind.ResendRequest?)
  }

  lemma HoldsRest(view: Wire -> View, t: Terms, cache: map<nat, Wire>, history: seq<Inbound>, a: nat, b: nat)
    requires Holds(view, t, cache, history, a, b) && a < b
    ensures Holds(view, t, cache - {a + 1}, history, a + 1, b)
  {
  }

  /** One turn of the drain says the reply to the message of its turn. */
  lemma DrainOneReplies(view: Wire -> View, s: State, history: seq<Inbound>, a: nat, b: nat)
    returns (m: Inbound, u: State)
    requires s.Ok() && CacheReads(view, s) && !s.stopped && Listening(s.phase) && s.nextIn == a + 1
    requires Holds(view, TermsOf(s), s.cache, history, a, b) && a < b
    ensures m == history[a] && s.nextIn in s.cache && u == DrainOne(view, s)
    ensures u.Ok() && CacheReads(view, u) && !u.stopped && Listening(u.phase) && u.nextIn == a + 2
    ensures TermsOf(u) == TermsOf(s) && u.cfg == s.cfg && Holds(view, TermsOf(u), u.cache, history, a + 1, b)
    ensures Replied(s, u, Reply(s.cfg, m.kind)) && DrainLoop(view, s) == DrainLoop(view, u)
  {
    m, u := history[a], DrainOne(view, s);
    DispatchOutcome(s, m, s.cache[s.nextIn]);
    DispatchReplies(s, m, s.cache[s.nextIn]);
    HarmlessMeans(TermsOf(s), m, s.phase);
    DrainLoopStep(view, s);
    HoldsRest(view, TermsOf(s), s.cache, history, a, b);
  }

  /** Draining says the replies to the cached messages, in order. */
  lemma {:induction false} DrainReplies(view: Wire -> View, s: State, history: seq<Inbound>, a: nat, b: nat)
    requires s.Ok() && CacheReads(view, s) && !s.stopped && Listening(s.phase) && s.nextIn == a + 1
    requires Holds(view, TermsOf(s), s.cache, history, a, b)
    ensures Replied(s, DrainLoop(view, s), Replies(s.cfg, history[a..b]))
    decreases b - a
  {
    if a == b {
      RepliedNothing(s, DrainLoop(view, s));
    } else {
      var m, u := DrainOneReplies(view, s, history, a, b);
      DrainReplies(view, u, history, a + 1, b);
      var h, rest := history[a..b], history[a + 1..b];
      assert h[0] == m && h[1..] == rest;
      RepliedConcat(s, u, DrainLoop(view, u), Reply(s.cfg, m.kind), Replies(s.cfg, rest));
    }
  }
}
