/** Two sessions on one connection: what each sends goes to the other in order. */
module TwoEnds {
  import opened Bytes
  import opened Protocol
  import opened SessionSpec
  import opened SessionRuns
  import opened Draining
  import opened Answering

  /** `ab` is what `a` has sent and `b` has not read yet, `ba` the other way round. */
  datatype Link = Link(a: State, b: State, ab: seq<Msg>, ba: seq<Msg>)

  function Flip(l: Link): Link {
    Link(l.b, l.a, l.ba, l.ab)
  }

  /** What the ends can do: read the next message, or send one. */
  datatype Move = ReadA | ReadB | SendA(event: Event) | SendB(event: Event)

  /** How a message is printed, and that the other end reads it as what it is. */
  ghost predicate Prints(view: Wire -> View, printed: Msg -> Wire) {
    forall m: Msg | IsInbound(m) :: view(printed(m)) == Valid(m)
  }

  ghost predicate OkEnd(view: Wire -> View, s: State) {
    s.Ok() && CacheReads(view, s)
  }

  ghost predicate OkLink(view: Wire -> View, l: Link) {
    OkEnd(view, l.a) && OkEnd(view, l.b)
  }

  /** What an end has sent more in `r` than in `s`. */
  function News(s: State, r: State): seq<Msg> {
    if s.sent <= r.sent then r.sent[|s.sent|..] else []
  }

  /** `b` reads the next message. */
  function Reading(view: Wire -> View, printed: Msg -> Wire, l: Link): (r: Link)
    requires OkLink(view, l)
    ensures OkLink(view, r)
  {
    if l.ab == [] then l
    else
      var b := Process(view, l.b, printed(l.ab[0]));
      Link(l.a, b, l.ab[1..], l.ba + News(l.b, b))
  }

  /** Something other than a message happens at `a`. */
  function Sending(view: Wire -> View, l: Link, e: Event): (r: Link)
    requires OkLink(view, l)
    ensures OkLink(view, r)
  {
    var a := Apply(view, l.a, e);
    Link(a, l.b, l.ab + News(l.a, a), l.ba)
  }

  function Moved(view: Wire -> View, printed: Msg -> Wire, l: Link, m: Move): (r: Link)
    requires OkLink(view, l)
    ensures OkLink(view, r)
  {
    match m
    case ReadB => Reading(view, printed, l)
    case ReadA => Flip(Reading(view, printed, Flip(l)))
    case SendA(e) => Sending(view, l, e)
    case SendB(e) => Flip(Sending(view, Flip(l), e))
  }

  /** A new connection between the two: what was on its way on the old one is lost. */
  function Connected(a: State, b: State): Link
    requires a.Ok() && b.Ok()
  {
    var a', b' := Reconnect(a), Reconnect(b);
    Link(a', b', News(a, a'), News(b, b'))
  }

  // ---- early messages ----

  /** Between logons and recovery, nobody is active. */
  predicate NotYet(p: Phase) {
    p == AwaitingLogon || p == LogonSent || p == RecoveringResend
  }

  /** The reading end of a message above the expected one: it files the message, and asks once. */
  lemma EarlyRead(view: Wire -> View, y: State, m: Inbound, w: Wire) returns (r: State, ks: seq<Kind>)
    requires OkEnd(view, y) && !y.stopped && NotYet(y.phase) && y.nextIn < m.num < y.nextIn + WINDOW
    requires view(w) == Valid(m) && (y.phase != RecoveringResend ==> Admin(m.kind))
    requires y.phase == RecoveringResend ==>
      y.base == y.nextIn && y.cache != map[] && forall k | k in y.cache :: y.nextIn < k
    ensures r == Process(view, y, w) && Replied(y, r, ks)
    ensures ks == if y.phase == RecoveringResend then [] else [ResendRequest(y.nextIn, m.num - 1)]
    ensures r.cfg == y.cfg && r.phase == RecoveringResend && !r.stopped && r.nextIn == y.nextIn == r.base
    ensures r.handled == y.handled && r.delivered == y.delivered
    ensures r.cache != map[] && forall k | k in r.cache :: r.nextIn < k
  {
    r := Process(view, y, w);
    var d := Dispatch(y, Valid(m), w);
    assert d.nextIn !in d.cache && m.num in d.cache;
    ks := if y.phase == RecoveringResend then [] else [ResendRequest(y.nextIn, m.num - 1)];
  }

  // ---- what an end sends by itself ----

  /** Application messages, heartbeats, and a first test request. */
  predicate Sends(s: State, e: Event) {
    || (e.SendFromApp? && (e.kind.App? || e.kind.Custom?))
    || e.HeartbeatDue? || (e.SilenceDue? && !s.awaitingTestReply)
  }

  function SentKind(e: Event): Kind {
    match e
    case SendFromApp(k) => k
    case SilenceDue(id) => TestRequest(id)
    case _ => Heartbeat([])
  }

  lemma SendIsEmit(view: Wire -> View, l: Link, e: Event)
    requires OkLink(view, l) && !l.a.stopped && Sends(l.a, e)
    ensures
      var r, m := Sending(view, l, e), Msg(l.a.nextOut, SentKind(e), false);
      && Replied(l.a, r.a, [SentKind(e)]) && r.ab == l.ab + [m]
      && r.b == l.b && r.ba == l.ba
      && r.a == l.a.(sent := r.a.sent, store := r.a.store, nextOut := r.a.nextOut,
                     awaitingTestReply := l.a.awaitingTestReply || e.SilenceDue?)
  {
  }

  /** A read, when the reading end has replied. */
  lemma ReadingSays(view: Wire -> View, printed: Msg -> Wire, l: Link, ks: seq<Kind>)
    requires OkLink(view, l) && l.ab != []
    requires Replied(l.b, Process(view, l.b, printed(l.ab[0])), ks)
    ensures Reading(view, printed, l).ba == l.ba + Stamped(l.b.nextOut, ks)
  {
  }

  lemma FlipFlip(l: Link)
    ensures Flip(Flip(l)) == l
  {
  }

  /** The two ends of a connection: an initiator and an acceptor with aligned logs, on an interval that the
      acceptor accepts. */
  predicate Peers(a: State, b: State) {
    && a.cfg.role.Initiator? && b.cfg.role.Acceptor? && !a.stopped && !b.stopped
    && 10 <= a.heartBeatInt <= 120
    && Logged(a) && Logged(b)
  }

  /** Entry n - 1 of the store is message n, and the next number is the one after the last. */
  predicate Logged(s: State) {
    Numbered(s.store) && s.nextOut == |s.store| + 1
  }

  lemma LoggedMore(s: State, r: State, ks: seq<Kind>)
    requires Logged(s) && Replied(s, r, ks)
    ensures Logged(r)
  {
  }

  // ---- runs ----

  function RunLink(view: Wire -> View, printed: Msg -> Wire, l: Link, ms: seq<Move>): (r: Link)
    requires OkLink(view, l)
    ensures OkLink(view, r)
    decreases |ms|
  {
    if ms == [] then l else RunLink(view, printed, Moved(view, printed, l, ms[0]), ms[1..])
  }

  /** Until `y` is active, what `x` has stored fits the window that `y` has, or would open. */
  predicate Roomy(x: State, y: State) {
    y.phase != Active ==> |x.store| < (if y.phase == RecoveringResend then y.base else y.nextIn) + WINDOW
  }

  /** The initiator may send at any time, as its Logon goes first. The acceptor's application waits for the
      Logon, and where `strict` for the session to be active. */
  predicate MaySpeak(s: State, e: Event, strict: bool) {
    && Sends(s, e)
    && (s.cfg.role.Acceptor? && (s.phase == AwaitingLogon || (strict && s.phase != Active)) ==> Admin(SentKind(e)))
  }

  predicate Allowed(l: Link, m: Move, strict: bool) {
    match m
    case ReadA => true
    case ReadB => true
    case SendA(e) => MaySpeak(l.a, e, strict)
    case SendB(e) => MaySpeak(l.b, e, strict)
  }

  /** Every move is allowed, and what is stored stays inside the windows. */
  ghost predicate RunAllowed(view: Wire -> View, printed: Msg -> Wire, l: Link, ms: seq<Move>, strict: bool)
    requires OkLink(view, l)
    decreases |ms|
  {
    && Roomy(l.a, l.b) && Roomy(l.b, l.a)
    && (ms != [] ==>
          Allowed(l, ms[0], strict) && RunAllowed(view, printed, Moved(view, printed, l, ms[0]), ms[1..], strict))
  }

  lemma {:induction false} StrictlyAllowed(view: Wire -> View, printed: Msg -> Wire, l: Link, ms: seq<Move>)
    requires OkLink(view, l) && RunAllowed(view, printed, l, ms, true)
    ensures RunAllowed(view, printed, l, ms, false)
    decreases |ms|
  {
    if ms != [] {
      StrictlyAllowed(view, printed, Moved(view, printed, l, ms[0]), ms[1..]);
    }
  }
}
