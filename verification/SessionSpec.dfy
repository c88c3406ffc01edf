/** The session as a function on values: what each event does to its state. The class in Session.dfy
    does this in place; the theorems about whole runs are about these functions. */
module SessionSpec {
  import opened Bytes
  import opened Protocol

  datatype Role = Initiator | Acceptor

  datatype Phase =
    | AwaitingLogon | AwaitingLogout | LogonReceived | LogonSent
    | RecoveringResend | Active | Disconnected

  datatype Config = Config(
    role: Role, initiatorResetOnLogon: bool, acceptorResetOnLogon: bool, readableId: Wire)

  /** How many numbers from its base a recovery cache holds. */
  const WINDOW: nat := 512

  /** "custom_response" and "custom_response from". */
  const REPLY_MARK: Wire := [99, 117, 115, 116, 111, 109, 95, 114, 101, 115, 112, 111, 110, 115, 101]
  const REPLY_HEAD: Wire := REPLY_MARK + [32, 102, 114, 111, 109]

  /** `sent` is every message handed to the transport, `store` those of them that are no resends,
      `handled` the inbound messages that reached the handlers, `delivered` those given to the
      application. */
  datatype State = State(
    cfg: Config, heartBeatInt: nat,
    phase: Phase, stopped: bool,
    nextIn: nat, nextOut: SeqNo,
    base: nat, cache: map<nat, Wire>,
    store: seq<Msg>, sent: seq<Msg>,
    awaitingTestReply: bool,
    handled: seq<Msg>, delivered: seq<Msg>)
  {
    /** The numbers given out never run ahead of the store while the session is alive. */
    predicate Ok() { stopped || nextOut <= |store| + 1 }
  }

  predicate InWindow(base: nat, num: nat) {
    base <= num && num - base < WINDOW
  }

  // ---- sending ----

  /** Build a message, which takes a number, and send it unless the session is stopped. */
  function Emit(s: State, k: Kind): (r: State)
    requires s.Ok()
    ensures r.Ok()
  {
    var m := Msg(s.nextOut, k, false);
    var s1 := s.(nextOut := s.nextOut + 1);
    if s.stopped then s1 else s1.(sent := s.sent + [m], store := s.store + [m])
  }

  function Stop(s: State): State {
    if s.stopped then s else s.(phase := Disconnected, stopped := true)
  }

  function StopWithLogout(s: State): (r: State)
    requires s.Ok()
    ensures r.Ok()
  {
    if s.stopped then s else Emit(s, Logout).(phase := AwaitingLogout)
  }

  // ---- handlers ----

  function HandleLogon(s: State, hbi: nat, reset: bool): (r: State)
    requires s.Ok()
    ensures r.Ok()
  {
    if (s.cfg.role.Initiator? && hbi != s.heartBeatInt) || hbi < 10 || hbi > 120 then
      StopWithLogout(s)
    else
      var s1 := s.(heartBeatInt := hbi);
      if s.cfg.role.Acceptor? then
        if reset && !s.cfg.acceptorResetOnLogon then
          StopWithLogout(s1.(phase := LogonReceived))
        else
          var s2 := if reset then s1.(nextIn := 2, nextOut := 1) else s1;
          Emit(s2.(phase := LogonReceived), Logon(hbi, reset)).(phase := Active)
      else if reset && !s.cfg.initiatorResetOnLogon then
        StopWithLogout(s1)
      else
        s1.(phase := Active)
  }

  function HandleLogout(s: State): (r: State)
    requires s.Ok()
    ensures r.Ok()
  {
    if s.phase == AwaitingLogout then Stop(s) else Stop(Emit(s, Logout))
  }

  /** EndSeqNo 0 and numbers not sent yet stand for everything sent so far. */
  function ClampEnd(s: State, endSeqNo: nat): nat {
    if endSeqNo == 0 || endSeqNo >= s.nextOut then s.nextOut - 1 else endSeqNo
  }

  function HandleResendRequest(s: State, b: SeqNo, e: nat): (r: State)
    requires s.Ok() && !s.stopped
    ensures r.Ok()
  {
    s.(sent := s.sent + Replay(s.store, b, ClampEnd(s, e)))
  }

  function HandleSequenceReset(s: State, newSeqNo: nat, gapFill: bool): (r: State)
    requires s.Ok()
    ensures r.Ok()
  {
    if newSeqNo < s.nextIn && !gapFill then StopWithLogout(s) else s.(nextIn := newSeqNo)
  }

  predicate IsReply(payload: Wire) {
    Find(payload, REPLY_MARK, 0).Some?
  }

  function HandleCustom(s: State, payload: Wire): (r: State)
    requires s.Ok()
    ensures r.Ok()
  {
    if IsReply(payload) then s else Emit(s, Custom(REPLY_HEAD + s.cfg.readableId))
  }

  /** What the handlers do. None of them touches the recovery cache. */
  function Handle(s: State, m: Inbound): (r: State)
    requires s.Ok() && !s.stopped
    ensures r.Ok()
    ensures r.cache == s.cache && r.base == s.base && r.handled == s.handled
  {
    match m.kind
    case Logon(hbi, reset) => HandleLogon(s, hbi, reset)
    case Logout => HandleLogout(s)
    case Heartbeat(_) => s.(awaitingTestReply := false)
    case TestRequest(id) => Emit(s, Heartbeat(id))
    case ResendRequest(b, e) => HandleResendRequest(s, b, e)
    case Reject(_) => s
    case SequenceReset(n, gapFill) => HandleSequenceReset(s, n, gapFill)
    case Custom(payload) => HandleCustom(s, payload)
    case App(_) => s.(delivered := s.delivered + [m])
  }

  // ---- receiving ----

  predicate Listening(p: Phase) {
    p == Active || p == RecoveringResend
  }

  function DispatchNumbered(s: State, m: Inbound, w: Wire): (r: State)
    requires s.Ok() && !s.stopped
    ensures r.Ok()
  {
    if m.num == s.nextIn then
      Handle(s.(nextIn := m.num + 1, handled := s.handled + [m]), m)
    else if m.num > s.nextIn && s.phase == RecoveringResend then
      if !InWindow(s.base, m.num) then StopWithLogout(s)
      else if m.num in s.cache then s
      else s.(cache := s.cache[m.num := w])
    else if m.num > s.nextIn then
      Emit(s, ResendRequest(s.nextIn, m.num - 1))
        .(phase := RecoveringResend, base := s.nextIn, cache := map[m.num := w])
    else if m.possDup then s
    else StopWithLogout(s)
  }

  function Dispatch(s: State, v: View, w: Wire): (r: State)
    requires s.Ok()
    ensures r.Ok()
  {
    if s.stopped then s
    else
      match v
      case ParseError => s
      case Fatal => StopWithLogout(s)
      case Invalid(ref) => Emit(s, Reject(ref))
      case Unnumbered => s
      case Valid(m) =>
        if !Listening(s.phase) && !Admin(m.kind) then StopWithLogout(s)
        else DispatchNumbered(s, m, w)
  }

  /** Every cached wire reads as the message whose number it is filed under. */
  ghost predicate CacheReads(view: Wire -> View, s: State) {
    forall k | k in s.cache :: view(s.cache[k]).Valid? && view(s.cache[k]).msg.num == k
  }

  /** Handle cached messages while the next expected number is cached. */
  function DrainLoop(view: Wire -> View, s: State): (r: State)
    requires s.Ok() && CacheReads(view, s)
    ensures r.Ok() && CacheReads(view, r)
    decreases |s.cache|
  {
    if s.nextIn !in s.cache then
      if s.cache == map[] then s.(phase := Active) else s
    else
      var e := s.nextIn;
      var s1 := Dispatch(s, view(s.cache[e]), s.cache[e]);
      DrainLoop(view, s1.(cache := s1.cache - {e}))
  }

  function Drain(view: Wire -> View, s: State): (r: State)
    requires s.Ok() && CacheReads(view, s)
    ensures r.Ok() && CacheReads(view, r)
  {
    if s.cache == map[] || s.phase != RecoveringResend then s else DrainLoop(view, s)
  }

  /** One framed message: parse, dispatch, then drain the recovery cache. */
  function Process(view: Wire -> View, s: State, w: Wire): (r: State)
    requires s.Ok() && CacheReads(view, s)
    ensures r.Ok() && CacheReads(view, r)
  {
    var v := view(w);
    Drain(view, if v.ParseError? then StopWithLogout(s) else Dispatch(s, v, w))
  }

  // ---- everything else that can happen to a session ----

  datatype Event =
    | Receive(wire: Wire)
    | SendFromApp(kind: Kind)
    | HeartbeatDue
    | SilenceDue(testReqId: Wire)
    | LogonOverdue(expected: Phase)
    | LogoutRequested
    | StopRequested
    | Reconnected

  /** A new connection after the old one was lost: sequence numbers and store survive. */
  function Reconnect(s: State): (r: State)
    requires s.Ok()
    ensures r.Ok()
  {
    if s.stopped then s
    else
      var s1 := s.(awaitingTestReply := false, base := 0, cache := map[]);
      if s.cfg.role.Initiator? then
        Emit(s1.(phase := Disconnected), Logon(s.heartBeatInt, false)).(phase := LogonSent)
      else
        s1.(phase := AwaitingLogon)
  }

  function Apply(view: Wire -> View, s: State, e: Event): (r: State)
    requires s.Ok() && CacheReads(view, s)
    ensures r.Ok() && CacheReads(view, r)
  {
    match e
    case Receive(w) => Process(view, s, w)
    case SendFromApp(k) => if s.stopped then s else Emit(s, k)
    case HeartbeatDue => if s.stopped then s else Emit(s, Heartbeat([]))
    case SilenceDue(id) =>
      if s.stopped then s
      else if !s.awaitingTestReply then Emit(s.(awaitingTestReply := true), TestRequest(id))
      else StopWithLogout(s)
    case LogonOverdue(p) => if !s.stopped && s.phase == p then Stop(s) else s
    case LogoutRequested => StopWithLogout(s)
    case StopRequested => Stop(s)
    case Reconnected => Reconnect(s)
  }

  function Run(view: Wire -> View, s: State, es: seq<Event>): (r: State)
    requires s.Ok() && CacheReads(view, s)
    ensures r.Ok() && CacheReads(view, r)
    decreases |es|
  {
    if es == [] then s else Run(view, Apply(view, s, es[0]), es[1..])
  }

  /** A session that was just constructed and started on a connection. */
  function Start(cfg: Config, heartBeatInt: nat): (r: State)
    ensures r.Ok() && r.cache == map[]
  {
    var s := State(cfg, heartBeatInt, Disconnected, false, 1, 1, 0, map[], [], [], false, [], []);
    if cfg.role.Initiator? then
      Emit(s, Logon(heartBeatInt, cfg.initiatorResetOnLogon)).(phase := LogonSent)
    else
      s.(phase := AwaitingLogon)
  }
}
