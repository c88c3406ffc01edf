/** That what is asked of a connection can be met: a way to print messages, and two ends that meet. */
module Witnesses {
  import opened Bytes
  import opened Protocol
  import opened SessionSpec
  import opened SessionRuns
  import opened TwoEnds
  import opened Directions
  import opened BothBehind
  import opened Connections
  import opened Settling
  import opened Answering
  import opened CatchingUp

  // ---- a code for messages ----

  /** A number as that many ones and a zero. */
  function Unary(n: nat): Wire {
    if n == 0 then [0] else [1] + Unary(n - 1)
  }

  lemma {:induction false} UnaryTells(a: nat, x: Wire, b: nat, y: Wire)
    requires Unary(a) + x == Unary(b) + y
    ensures a == b && x == y
    decreases a
  {
    var u, v := Unary(a) + x, Unary(b) + y;
    assert u[0] == (if a == 0 then 0 else 1) && v[0] == (if b == 0 then 0 else 1);
    if a == 0 {
      assert u[1..] == x && v[1..] == y;
    } else {
      assert u[1..] == Unary(a - 1) + x && v[1..] == Unary(b - 1) + y;
      UnaryTells(a - 1, x, b - 1, y);
    }
  }

  /** A text behind its length. */
  function Counted(w: Wire): Wire {
    Unary(|w|) + w
  }

  lemma CountedTells(a: Wire, b: Wire)
    requires Counted(a) == Counted(b)
    ensures a == b
  {
    UnaryTells(|a|, a, |b|, b);
  }

  function Flag(b: bool): nat {
    if b then 1 else 0
  }

  /** Which kind, and what belongs to it. */
  function Parts(k: Kind): (nat, Wire) {
    match k
    case Logon(hb, reset) => (0, Unary(hb) + Unary(Flag(reset)))
    case Logout => (1, [])
    case Heartbeat(id) => (2, Counted(id))
    case TestRequest(id) => (3, Counted(id))
    case ResendRequest(b, e) => (4, Unary(b) + Unary(e))
    case Reject(ref) => (5, Unary(ref))
    case SequenceReset(n, gapFill) => (6, Unary(n) + Unary(Flag(gapFill)))
    case Custom(payload) => (7, Counted(payload))
    case App(body) => (8, Counted(body))
  }

  function CodeOf(k: Kind): Wire {
    Unary(Parts(k).0) + Parts(k).1
  }

  lemma NumbersTell(a: nat, b: nat, c: nat, d: nat)
    requires Unary(a) + Unary(b) == Unary(c) + Unary(d)
    ensures a == c && b == d
  {
    UnaryTells(a, Unary(b), c, Unary(d));
    assert Unary(b) + [] == Unary(d) + [];
    UnaryTells(b, [], d, []);
  }

  lemma KindTells(k: Kind, l: Kind)
    requires CodeOf(k) == CodeOf(l)
    ensures k == l
  {
    var t, u := Parts(k), Parts(l);
    UnaryTells(t.0, t.1, u.0, u.1);
    match k
    case Logon(hb, reset) => NumbersTell(hb, Flag(reset), l.heartBtInt, Flag(l.resetSeqNum));
    case Logout =>
    case Heartbeat(id) => CountedTells(id, l.testReqId);
    case TestRequest(id) => CountedTells(id, l.id);
    case ResendRequest(b, e) => NumbersTell(b, e, l.beginSeqNo, l.endSeqNo);
    case Reject(ref) => NumbersTell(0, ref, 0, l.refSeqNum);
    case SequenceReset(n, gapFill) => NumbersTell(n, Flag(gapFill), l.newSeqNo, Flag(l.gapFill));
    case Custom(payload) => CountedTells(payload, l.payload);
    case App(body) => CountedTells(body, l.body);
  }

  function Code(m: Msg): Wire {
    Unary(m.num) + (Unary(Flag(m.possDup)) + CodeOf(m.kind))
  }

  lemma CodeTells(m: Msg, n: Msg)
    requires Code(m) == Code(n)
    ensures m == n
  {
    UnaryTells(m.num, Unary(Flag(m.possDup)) + CodeOf(m.kind), n.num, Unary(Flag(n.possDup)) + CodeOf(n.kind));
    UnaryTells(Flag(m.possDup), CodeOf(m.kind), Flag(n.possDup), CodeOf(n.kind));
    KindTells(m.kind, n.kind);
  }

  ghost function Decoded(w: Wire): View {
    if m: Inbound :| Code(m) == w then Valid(m) else ParseError
  }

  /** Messages can be printed so that they are read as what they are. */
  lemma CodePrints()
    ensures Prints(Decoded, Code)
  {
    forall m: Msg | IsInbound(m) ensures Decoded(Code(m)) == Valid(m) {
      var i: Inbound := m;
      assert Code(i) == Code(m);
      forall n: Inbound | Code(n) == Code(m) ensures n == m { CodeTells(n, m); }
    }
  }

  // ---- two ends ----

  /** A session without a connection that has stored one message of its application, or none. */
  function Offline(role: Role, log: seq<Msg>): State {
    State(Config(role, false, false, []), 30, Disconnected, false, 1, |log| + 1, 0, map[], log, log, false, [], [])
  }

  /** The initiator's application has sent a message while there was no connection: the acceptor misses it, and
      gets it. */
  lemma OneMissed(body: Wire, aFirst: Link -> bool) returns (ms: seq<Move>, r: Link)
    ensures
      var a, b := Offline(Initiator, [Msg(1, App(body), false)]), Offline(Acceptor, []);
      && Meet(Decoded, a, b) && Prints(Decoded, Code) && CanHeal(a, b) && OnlyReads(ms)
      && r == RunLink(Decoded, Code, Connected(a, b), ms) && UpToDate(a, b, r) && r.ab == [] && r.ba == []
  {
    var a, b := Offline(Initiator, [Msg(1, App(body), false)]), Offline(Acceptor, []);
    CodePrints();
    OfflineMeets(body, a, b);
    ms := Heals(Decoded, Code, a, b, aFirst);
    r := RunLink(Decoded, Code, Connected(a, b), ms);
  }

  lemma OfflineMeets(body: Wire, a: State, b: State)
    requires a == Offline(Initiator, [Msg(1, App(body), false)]) && b == Offline(Acceptor, [])
    ensures Meet(Decoded, a, b) && CanHeal(a, b) && RoomToHeal(Decoded, a, b)
  {
    var l := Connected(a, b);
    var logon := Msg(2, Logon(30, false), false);
    assert l.a.store == [Msg(1, App(body), false), logon] && l.b.store == [];
    var missed := l.a.store[0..];
    assert missed[1..] == [logon] && missed[1..][1..] == [];
    assert Replies(l.b.cfg, missed[1..]) == [Logon(30, false)];
    assert Replies(l.b.cfg, missed) == [Logon(30, false)];
  }

  /** Both applications have sent a message while there was no connection: neither end gets any. */
  lemma BothMissed(body: Wire, ms: seq<Move>)
    requires
      var a, b := Offline(Initiator, [Msg(1, App(body), false)]), Offline(Acceptor, [Msg(1, App(body), false)]);
      OkEnd(Decoded, a) && OkEnd(Decoded, b) && RunAllowed(Decoded, Code, Connected(a, b), ms, true)
    ensures
      var a, b := Offline(Initiator, [Msg(1, App(body), false)]), Offline(Acceptor, [Msg(1, App(body), false)]);
      !UpToDate(a, b, RunLink(Decoded, Code, Connected(a, b), ms))
  {
    CodePrints();
    var a, b := Offline(Initiator, [Msg(1, App(body), false)]), Offline(Acceptor, [Msg(1, App(body), false)]);
    NeverHeals(Decoded, Code, a, b, ms);
  }

  /** The initiator's application has sent a custom request while there was no connection: the acceptor would
      reply before its Logon, and the two never get up to date. */
  lemma RequestMissed(ms: seq<Move>)
    requires
      var a, b := Offline(Initiator, [Msg(1, Custom([]), false)]), Offline(Acceptor, []);
      OkEnd(Decoded, a) && OkEnd(Decoded, b) && RunAllowed(Decoded, Code, Connected(a, b), ms, true)
    ensures
      var a, b := Offline(Initiator, [Msg(1, Custom([]), false)]), Offline(Acceptor, []);
      !UpToDate(a, b, RunLink(Decoded, Code, Connected(a, b), ms))
  {
    CodePrints();
    var a, b := Offline(Initiator, [Msg(1, Custom([]), false)]), Offline(Acceptor, []);
    assert a.store[0].kind == Custom([]) && Reply(b.cfg, a.store[0].kind) != [];
    assert !Mute(b.cfg, a.store, b.nextIn, |a.store| + 1);
    NeverHeals(Decoded, Code, a, b, ms);
  }
}
