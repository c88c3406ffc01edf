/** A connection on which at most one end has missed messages. Over every run it heals: once everything
    sent has been read, both ends are active and up to date. */
module OneBehind {
  import opened Bytes
  import opened Protocol
  import opened SessionSpec
  import opened SessionRuns
  import opened Draining
  import opened GapRecovery
  import opened Answering
  import opened TwoEnds
  import opened Directions
  import opened CatchingUp

  // ---- the invariant: `l.a` misses nothing, and `l.b` stands as in `st` ----

  /** One initiator and one acceptor, on an interval both accept, with their logs. */
  ghost predicate Ends(hb: nat, x: State, y: State) {
    && 10 <= hb <= 120 && x.cfg.role != y.cfg.role
    && (x.cfg.role.Initiator? ==> x.heartBeatInt == hb && x.phase != AwaitingLogon && y.phase != LogonSent)
    && (y.cfg.role.Initiator? ==> y.heartBeatInt == hb && y.phase != AwaitingLogon && x.phase != LogonSent)
    && Logged(x) && Logged(y) && AllInbound(x.store) && AllInbound(y.store)
  }

  /** What `y` has handled since `y0` has the application content of what it has got past. */
  ghost predicate Since(y0: State, y: State, log: seq<Msg>) {
    && 1 <= y0.nextIn <= y.nextIn <= |log| + 1 && y0.handled <= y.handled
    && AppContent(y.handled[|y0.handled|..]) == AppContent(log[y0.nextIn - 1..y.nextIn - 1])
  }

  /** `y` listens once it has read what is on its way. */
  predicate ListensAfter(y: State, xy: seq<Msg>, log: seq<Msg>, st: Stage) {
    match st
    case Missing(e) => e < |log|
    case Level => Opened(y.phase, xy)
    case _ => true
  }

  /** The acceptor listens after what is on its way, as the initiator's Logon goes first; and the initiator
      does, if the acceptor is active. */
  predicate Gates(l: Link, st: Stage) {
    var xy, yx := ListensAfter(l.b, l.ab, l.a.store, st), Opened(l.a.phase, l.ba);
    if l.a.cfg.role.Initiator? then xy && (l.b.phase == Active ==> yx)
    else yx && (l.a.phase == Active ==> xy)
  }

  /** The messages of `y` that are not read yet are ordinary, but for the one request. */
  predicate AlmostPlain(hb: nat, log: seq<Msg>, n: nat, st: Stage) {
    forall i | 0 <= i < |log| && n <= i + 1 :: Plain(hb, log[i].kind) || (st.Asked? && i + 1 == st.r)
  }

  /** The request is on its way. */
  predicate RequestPending(l: Link, st: Stage) {
    st.Asked? ==>
      && 1 <= l.a.nextIn <= st.r <= |l.b.store|
      && l.b.store[st.r - 1].kind == ResendRequest(l.b.base, st.e)
  }

  /** The fresh messages of an initiator begin with its Logon. */
  predicate LogonFirst(hb: nat, log: seq<Msg>, st: Stage) {
    match st
    case Missing(e) => e < |log| && log[e].kind == Logon(hb, false)
    case Asked(e, _, _) => e < |log| && log[e].kind == Logon(hb, false)
    case Answered(e, _, _) => e < |log| && log[e].kind == Logon(hb, false)
    case Level => true
  }

  /** What `y` has handled of what it missed, out of the first `n` messages, has made it say nothing, where
      the other end could not listen to it yet. */
  predicate KeptQuiet(x: State, y: State, y0: State, n: nat) {
    x.cfg.role.Initiator? ==> Mute(y.cfg, x.store, y0.nextIn, if y.nextIn <= n then y.nextIn else n + 1)
  }

  /** Until `y` has caught up, an initiator has not heard of its Logon. */
  predicate Unheard(l: Link, st: Stage) {
    l.a.cfg.role.Initiator? && !st.Level? ==> !Opened(l.a.phase, l.ba)
  }

  /** Since `s0`, nobody was asked to log out. */
  predicate Mannered(s0: State, s: State) {
    s0.sent <= s.sent && !SaysLogout(s.sent[|s0.sent|..])
  }

  lemma ManneredMore(s0: State, s: State, r: State, more: seq<Msg>)
    requires Mannered(s0, s) && r.sent == s.sent + more && !SaysLogout(more)
    ensures Mannered(s0, r)
  {
    assert r.sent[|s0.sent|..] == s.sent[|s0.sent|..] + more;
    SaysConcat(s.sent[|s0.sent|..], more);
  }

  ghost predicate Healing(view: Wire -> View, hb: nat, l: Link, st: Stage, x0: State, y0: State) {
    && Ends(hb, l.a, l.b)
    && Incoming(view, l.a.store, l.b, l.ab, st) && Incoming(view, l.b.store, l.a, l.ba, Level)
    && PlainFrom(hb, l.a.store, FreshFrom(l.b, st)) && AlmostPlain(hb, l.b.store, l.a.nextIn, st)
    && RequestPending(l, st) && Gates(l, st) && Unheard(l, st)
    && (l.a.cfg.role.Initiator? ==> LogonFirst(hb, l.a.store, st))
    && Since(y0, l.b, l.a.store) && Since(x0, l.a, l.b.store)
    && (st.Level? ==> l.b.nextIn > |x0.store|) && (!st.Level? ==> st.e == |x0.store|)
    && KeptQuiet(l.a, l.b, y0, |x0.store|)
    && Mannered(x0, l.a) && Mannered(y0, l.b)
  }

  // ---- small steps ----

  lemma PlainIsInbound(hb: nat, n: nat, ks: seq<Kind>)
    requires forall i | 0 <= i < |ks| :: Plain(hb, ks[i])
    ensures AllInbound(Stamped(n, ks))
  {
  }

  /** Replies to ordinary messages are ordinary. */
  lemma ReplyIsPlain(hb: nat, cfg: Config, k: Kind)
    requires k.Logon? ==> k == Logon(hb, false)
    ensures forall i | 0 <= i < |Reply(cfg, k)| :: Plain(hb, Reply(cfg, k)[i])
  {
  }

  lemma {:induction false} RepliesArePlain(hb: nat, cfg: Config, h: seq<Msg>)
    requires forall i | 0 <= i < |h| :: Plain(hb, h[i].kind)
    ensures forall i | 0 <= i < |Replies(cfg, h)| :: Plain(hb, Replies(cfg, h)[i])
    decreases |h|
  {
    if h != [] {
      ReplyIsPlain(hb, cfg, h[0].kind);
      RepliesArePlain(hb, cfg, h[1..]);
    }
  }

  lemma SinceMore(y0: State, y: State, r: State, log: seq<Msg>, h: seq<Msg>)
    requires Since(y0, y, log) && r.handled == y.handled + h && y.nextIn <= r.nextIn <= |log| + 1
    requires AppContent(h) == AppContent(log[y.nextIn - 1..r.nextIn - 1])
    ensures Since(y0, r, log)
  {
    var g := y.handled[|y0.handled|..];
    assert r.handled[|y0.handled|..] == g + h;
    AppContentConcat(g, h);
    AppContentConcat(log[y0.nextIn - 1..y.nextIn - 1], log[y.nextIn - 1..r.nextIn - 1]);
    assert log[y0.nextIn - 1..r.nextIn - 1] == log[y0.nextIn - 1..y.nextIn - 1] + log[y.nextIn - 1..r.nextIn - 1];
  }

  lemma SinceLonger(y0: State, y: State, log: seq<Msg>, more: seq<Msg>)
    requires Since(y0, y, log)
    ensures Since(y0, y, log + more)
  {
    assert (log + more)[y0.nextIn - 1..y.nextIn - 1] == log[y0.nextIn - 1..y.nextIn - 1];
  }

  lemma MuteLonger(cfg: Config, log: seq<Msg>, more: seq<Msg>, a: nat, b: nat)
    requires Mute(cfg, log, a, b) && b <= |log| + 1
    ensures Mute(cfg, log + more, a, b)
  {
  }

  lemma MuteJoined(cfg: Config, log: seq<Msg>, a: nat, b: nat, c: nat)
    requires Mute(cfg, log, a, b) && Mute(cfg, log, b, c)
    ensures Mute(cfg, log, a, c)
  {
  }

  lemma InboundJoined(a: seq<Msg>, b: seq<Msg>)
    requires AllInbound(a) && AllInbound(b)
    ensures AllInbound(a + b)
  {
  }

  // ---- whole steps ----

  /** What the direction from `s` to the other end becomes when `s` has said `ks`. */
  lemma SaidOnward(view: Wire -> View, s: State, r: State, other: State, queue: seq<Msg>, st: Stage, ks: seq<Kind>)
    requires Logged(s) && AllInbound(s.store) && Replied(s, r, ks) && AllInbound(Stamped(s.nextOut, ks))
    requires Incoming(view, s.store, other, queue, st)
    requires st.Missing? && st.e == |s.store| && ks != [] ==> Admin(ks[0])
    requires st.Level? ==> Opened(other.phase, queue) || Admits(other.phase, Stamped(s.nextOut, ks))
    ensures Logged(r) && AllInbound(r.store)
    ensures Incoming(view, r.store, other, queue + Stamped(s.nextOut, ks), st)
  {
    var news := Stamped(s.nextOut, ks);
    LoggedMore(s, r, ks);
    InboundJoined(s.store, news);
    if st.Level? { AdmitsMore(other.phase, queue, news); }
    IncomingMore(view, s.store, news, other, queue, st);
  }

  /** What was handled and said since the start, when `s` has handled `h` and said `ks`. */
  lemma Recorded(s0: State, s: State, r: State, other0: State, other: State, log: seq<Msg>, h: seq<Msg>, ks: seq<Kind>)
    requires Since(s0, s, log) && Since(other0, other, s.store) && Mannered(s0, s) && Replied(s, r, ks)
    requires r.handled == s.handled + h && s.nextIn <= r.nextIn <= |log| + 1
    requires AppContent(h) == AppContent(log[s.nextIn - 1..r.nextIn - 1])
    requires forall i | 0 <= i < |ks| :: !ks[i].Logout?
    ensures Since(s0, r, log) && Since(other0, other, r.store) && Mannered(s0, r)
  {
    var news := Stamped(s.nextOut, ks);
    SinceMore(s0, s, r, log, h);
    SinceLonger(other0, other, s.store, news);
    ManneredMore(s0, s, r, news);
  }

  /** `l.b` has done something: read a message, or sent one. `rest` is what it has not read yet. */
  lemma StepOfB(view: Wire -> View, hb: nat, l: Link, st: Stage, x0: State, y0: State,
                r: State, rest: seq<Msg>, st': Stage, ks: seq<Kind>, h: seq<Msg>)
    returns (l': Link)
    requires Healing(view, hb, l, st, x0, y0) && AllInbound(Stamped(l.b.nextOut, ks))
    requires HasRead(view, l.a.store, l.b, r, rest, st', ks, h)
    requires r.phase == l.b.phase || Listening(r.phase)
    requires PlainFrom(hb, l.a.store, FreshFrom(r, st')) && AlmostPlain(hb, r.store, l.a.nextIn, st')
    requires st'.Level? || (!st.Level? && st'.e == st.e)
    requires st'.Level? ==> r.nextIn > |x0.store|
    requires KeptQuiet(l.a, r, y0, |x0.store|) && forall i | 0 <= i < |ks| :: !ks[i].Logout?
    requires Opened(l.a.phase, l.ba) || Admits(l.a.phase, Stamped(l.b.nextOut, ks))
    requires
      var n := Link(l.a, r, rest, l.ba + Stamped(l.b.nextOut, ks));
      RequestPending(n, st') && Gates(n, st') && Unheard(n, st')
    ensures l' == Link(l.a, r, rest, l.ba + Stamped(l.b.nextOut, ks))
    ensures Healing(view, hb, l', st', x0, y0)
  {
    l' := Link(l.a, r, rest, l.ba + Stamped(l.b.nextOut, ks));
    SaidOnward(view, l.b, r, l.a, l.ba, Level, ks);
    Recorded(y0, l.b, r, x0, l.a, l.a.store, h, ks);
  }

  /** `l.a` has done something other than answering a request. */
  lemma StepOfA(view: Wire -> View, hb: nat, l: Link, st: Stage, x0: State, y0: State,
                r: State, rest: seq<Msg>, ks: seq<Kind>, h: seq<Msg>)
    returns (l': Link)
    requires Healing(view, hb, l, st, x0, y0) && forall i | 0 <= i < |ks| :: Plain(hb, ks[i])
    requires HasRead(view, l.b.store, l.a, r, rest, Level, ks, h)
    requires r.phase == l.a.phase || Listening(r.phase)
    requires st.Missing? && st.e == |l.a.store| && ks != [] ==> Admin(ks[0])
    requires st.Level? ==> Opened(l.b.phase, l.ab) || Admits(l.b.phase, Stamped(l.a.nextOut, ks))
    requires st.Asked? ==> r.nextIn <= st.r
    requires
      var n := Link(r, l.b, l.ab + Stamped(l.a.nextOut, ks), rest);
      Gates(n, st) && Unheard(n, st)
    ensures l' == Link(r, l.b, l.ab + Stamped(l.a.nextOut, ks), rest)
    ensures Healing(view, hb, l', st, x0, y0)
  {
    l' := Link(r, l.b, l.ab + Stamped(l.a.nextOut, ks), rest);
    PlainIsInbound(hb, l.a.nextOut, ks);
    SaidOnward(view, l.a, r, l.b, l.ab, st, ks);
    Recorded(x0, l.a, r, y0, l.b, l.b.store, h, ks);
    if l.a.cfg.role.Initiator? {
      var n := |x0.store|;
      var upTo := if l.b.nextIn <= n then l.b.nextIn else n + 1;
      MuteLonger(l.b.cfg, l.a.store, Stamped(l.a.nextOut, ks), y0.nextIn, upTo);
    }
  }

  // ---- `l.b` reads ----

  lemma FreshIsLive(view: Wire -> View, hb: nat, l: Link, st: Stage, x0: State, y0: State)
    requires Healing(view, hb, l, st, x0, y0)
    ensures LiveFrom(TermsOf(l.b), l.a.store, FreshFrom(l.b, st))
  {
    PlainIsLive(TermsOf(l.b), hb, l.a.store, FreshFrom(l.b, st));
  }

  lemma ReadingIs(view: Wire -> View, printed: Msg -> Wire, l: Link, r: State, ks: seq<Kind>)
    requires OkLink(view, l) && l.ab != [] && r == Process(view, l.b, printed(l.ab[0])) && Replied(l.b, r, ks)
    ensures Reading(view, printed, l) == Link(l.a, r, l.ab[1..], l.ba + Stamped(l.b.nextOut, ks))
  {
  }

  lemma NothingSaid(u: seq<Msg>, n: nat)
    ensures u + Stamped(n, []) == u
  {
  }

  /** The first early message. */
  lemma BReadsFirst(view: Wire -> View, printed: Msg -> Wire, hb: nat, l: Link, st: Stage, x0: State, y0: State)
    returns (st': Stage)
    requires Healing(view, hb, l, st, x0, y0) && st.Missing? && l.ab != [] && Prints(view, printed)
    requires Roomy(l.a, l.b)
    ensures st'.Asked? && Healing(view, hb, Reading(view, printed, l), st', x0, y0)
  {
    var r, s, ks := ReadFirst(view, printed, l.a.store, l.b, l.ab, st.e);
    st' := s;
    ReadingIs(view, printed, l, r, ks);
    var l' := BAsks(view, hb, l, st, x0, y0, r, st', ks);
  }

  lemma BAsks(view: Wire -> View, hb: nat, l: Link, st: Stage, x0: State, y0: State,
              r: State, st': Stage, ks: seq<Kind>)
    returns (l': Link)
    requires Healing(view, hb, l, st, x0, y0) && st.Missing? && l.ab != []
    requires HasRead(view, l.a.store, l.b, r, l.ab[1..], st', ks, []) && st' == Asked(st.e, st.e + 1, l.b.nextOut)
    requires ks == [ResendRequest(l.b.nextIn, st.e)] && r.phase == RecoveringResend && r.base == l.b.nextIn
    ensures l' == Link(l.a, r, l.ab[1..], l.ba + Stamped(l.b.nextOut, ks)) && Healing(view, hb, l', st', x0, y0)
  {
    OpenedMore(l.a.phase, l.ba, Stamped(l.b.nextOut, ks));
    l' := StepOfB(view, hb, l, st, x0, y0, r, l.ab[1..], st', ks, []);
  }

  /** A live message while the request is on its way. */
  lemma BReadsAsking(view: Wire -> View, printed: Msg -> Wire, hb: nat, l: Link, st: Stage, x0: State, y0: State)
    returns (st': Stage)
    requires Healing(view, hb, l, st, x0, y0) && st.Asked? && l.ab != [] && Prints(view, printed)
    requires Roomy(l.a, l.b)
    ensures st'.Asked? && Healing(view, hb, Reading(view, printed, l), st', x0, y0)
  {
    FreshIsLive(view, hb, l, st, x0, y0);
    var r, s := ReadWhileAsking(view, printed, l.a.store, l.b, l.ab, st.e, st.j, st.r);
    st' := s;
    ReadingIs(view, printed, l, r, []);
    var l' := BFilesEarly(view, hb, l, st, x0, y0, r, st');
  }

  lemma BFilesEarly(view: Wire -> View, hb: nat, l: Link, st: Stage, x0: State, y0: State, r: State, st': Stage)
    returns (l': Link)
    requires Healing(view, hb, l, st, x0, y0) && st.Asked? && l.ab != []
    requires HasRead(view, l.a.store, l.b, r, l.ab[1..], st', [], []) && st' == Asked(st.e, st.j + 1, st.r)
    requires r.nextIn == l.b.nextIn && r.base == l.b.base && r.phase == RecoveringResend
    ensures l' == Link(l.a, r, l.ab[1..], l.ba + Stamped(l.b.nextOut, [])) && Healing(view, hb, l', st', x0, y0)
  {
    NothingSaid(l.ba, l.b.nextOut);
    NothingSaid(l.b.store, l.b.nextOut);
    l' := StepOfB(view, hb, l, st, x0, y0, r, l.ab[1..], st', [], []);
  }

  /** The reply to an ordinary message that an end without a Logon behind it may be sent. */
  lemma ReplyIsAdmitted(hb: nat, cfg: Config, m: Msg, n: nat, p: Phase)
    requires Plain(hb, m.kind) && Admin(m.kind)
    ensures Admits(p, Stamped(n, Reply(cfg, m.kind)))
    ensures cfg.role.Acceptor? && m.kind.Logon? ==> Opened(p, Stamped(n, Reply(cfg, m.kind)))
  {
    var news := Stamped(n, Reply(cfg, m.kind));
    if cfg.role.Acceptor? && m.kind.Logon? { assert news[0].kind.Logon?; }
  }

  /** A message in order, with nothing missing. */
  lemma BReadsInOrder(view: Wire -> View, printed: Msg -> Wire, hb: nat, l: Link, st: Stage, x0: State, y0: State)
    requires Healing(view, hb, l, st, x0, y0) && st.Level? && l.ab != [] && Prints(view, printed)
    ensures Healing(view, hb, Reading(view, printed, l), Level, x0, y0)
  {
    FreshIsLive(view, hb, l, st, x0, y0);
    var m := l.ab[0];
    assert m == l.a.store[l.b.nextIn - 1] && Plain(hb, m.kind);
    var r, ks := ReadInOrder(view, printed, l.a.store, l.b, l.ab);
    ReadingIs(view, printed, l, r, ks);
    var l' := BReplies(view, hb, l, st, x0, y0, r, ks, m);
  }

  lemma BReplies(view: Wire -> View, hb: nat, l: Link, st: Stage, x0: State, y0: State,
                 r: State, ks: seq<Kind>, m: Msg)
    returns (l': Link)
    requires Healing(view, hb, l, st, x0, y0) && st.Level? && l.ab != [] && m == l.ab[0] && Plain(hb, m.kind)
    requires HasRead(view, l.a.store, l.b, r, l.ab[1..], Level, ks, [m]) && ks == Reply(l.b.cfg, m.kind)
    requires r.phase == PhaseAfter(TermsOf(l.b), l.b.phase, m) && r.nextIn == l.b.nextIn + 1
    requires Listening(l.b.phase) || Admin(m.kind)
    ensures l' == Link(l.a, r, l.ab[1..], l.ba + Stamped(l.b.nextOut, ks)) && Healing(view, hb, l', Level, x0, y0)
  {
    ReplyIsPlain(hb, l.b.cfg, m.kind);
    PlainIsInbound(hb, l.b.nextOut, ks);
    OpenedMore(l.a.phase, l.ba, Stamped(l.b.nextOut, ks));
    AdmitsRest(l.b.phase, l.ab, r.phase);
    if l.b.phase != Active { ReplyIsAdmitted(hb, l.b.cfg, m, l.b.nextOut, l.a.phase); }
    l' := StepOfB(view, hb, l, st, x0, y0, r, l.ab[1..], Level, ks, [m]);
  }

  // ---- a reply that comes too early ----

  /** What a session waiting for the acceptor's Logon handles without getting active. */
  predicate Waits(k: Kind) {
    k.Heartbeat? || k.TestRequest? || k.ResendRequest?
  }

  /** Number `d` of what is on its way to an initiator without a Logon is no admin message. */
  ghost predicate DoomedAt(x: State, yx: seq<Msg>, d: nat) {
    && d < |yx| && !Admin(yx[d].kind)
    && (forall i | 0 <= i < d :: Waits(yx[i].kind))
    && (forall i | 0 <= i <= d :: yx[i].num == x.nextIn + i && IsInbound(yx[i]))
  }

  ghost predicate Doomed(view: Wire -> View, x: State, yx: seq<Msg>) {
    OkEnd(view, x) && !x.stopped && x.phase == LogonSent && exists d :: DoomedAt(x, yx, d)
  }

  /** Without a Logon on its way, all that the initiator is sent are messages it waits through. */
  lemma UnheardWaits(view: Wire -> View, hb: nat, l: Link, st: Stage, x0: State, y0: State)
    requires Healing(view, hb, l, st, x0, y0) && l.a.cfg.role.Initiator? && !st.Level?
    ensures l.a.phase == LogonSent
    ensures forall i | 0 <= i < |l.ba| ::
      Waits(l.ba[i].kind) && l.ba[i].num == l.a.nextIn + i && IsInbound(l.ba[i])
  {
    forall i | 0 <= i < |l.ba|
      ensures Waits(l.ba[i].kind) && l.ba[i].num == l.a.nextIn + i && IsInbound(l.ba[i])
    {
      assert l.ba[i] == l.b.store[l.a.nextIn - 1 + i];
      assert !l.ba[i].kind.Logon? && Admin(l.ba[i].kind);
    }
  }

  /** A reply to a replayed message of an acceptor that has not sent its Logon. */
  lemma EarlyReplyDooms(view: Wire -> View, hb: nat, l: Link, st: Stage, x0: State, y0: State, ks: seq<Kind>)
    requires Healing(view, hb, l, st, x0, y0) && l.a.cfg.role.Initiator? && !st.Level?
    requires ks != [] && !Admin(ks[0]) && IsInbound(Msg(0, ks[0], false))
    ensures Doomed(view, l.a, l.ba + Stamped(l.b.nextOut, ks))
  {
    UnheardWaits(view, hb, l, st, x0, y0);
    var news := Stamped(l.b.nextOut, ks);
    assert l.b.nextOut == l.a.nextIn + |l.ba|;
    assert (l.ba + news)[|l.ba|] == news[0];
    assert DoomedAt(l.a, l.ba + news, |l.ba|);
  }

  /** The replies to the messages let through: the acceptor's Logon comes first. */
  lemma LogonRepliesFirst(hb: nat, cfg: Config, h: seq<Msg>, n: nat, p: Phase)
    requires cfg.role.Acceptor? && h != [] && h[0].kind == Logon(hb, false)
    ensures Admits(p, Stamped(n, Replies(cfg, h))) && Opened(p, Stamped(n, Replies(cfg, h)))
  {
    var news := Stamped(n, Replies(cfg, h));
    assert Replies(cfg, h)[0] == h[0].kind;
    assert news[0].kind.Logon?;
  }

  /** An application message that was missed and asks for a reply. */
  predicate MissedRequest(x: State, y: State, y0: State, n: nat) {
    x.cfg.role.Initiator? && !Mute(y.cfg, x.store, y0.nextIn, n + 1)
  }

  /** The link after a read: it goes on healing, or the initiator gets a reply too early. */
  ghost predicate HealsOrDooms(view: Wire -> View, hb: nat, l: Link, st: Stage, x0: State, y0: State) {
    || Healing(view, hb, l, st, x0, y0)
    || (Doomed(view, l.a, l.ba) && MissedRequest(l.a, l.b, y0, |x0.store|))
  }

  lemma BFilesLive(view: Wire -> View, hb: nat, l: Link, st: Stage, x0: State, y0: State,
                   r: State, st': Stage, h: seq<Msg>)
    returns (l': Link)
    requires Healing(view, hb, l, st, x0, y0) && st.Answered? && l.ab != []
    requires HasRead(view, l.a.store, l.b, r, l.ab[1..], st', [], h)
    requires TurnOf(l.a.store, l.b, r, l.ab[0], st.e, st.j, st.p, Filed, st', [])
    ensures l' == Link(l.a, r, l.ab[1..], l.ba + Stamped(l.b.nextOut, [])) && Healing(view, hb, l', st', x0, y0)
  {
    NothingSaid(l.ba, l.b.nextOut);
    l' := StepOfB(view, hb, l, st, x0, y0, r, l.ab[1..], st', [], h);
  }

  lemma BHandlesReplayed(view: Wire -> View, hb: nat, l: Link, st: Stage, x0: State, y0: State,
                         r: State, st': Stage, ks: seq<Kind>, h: seq<Msg>)
    returns (l': Link)
    requires Healing(view, hb, l, st, x0, y0) && st.Answered? && l.ab != []
    requires HasRead(view, l.a.store, l.b, r, l.ab[1..], st', ks, h)
    requires TurnOf(l.a.store, l.b, r, l.ab[0], st.e, st.j, st.p, Passed, st', ks)
    ensures l' == Link(l.a, r, l.ab[1..], l.ba + Stamped(l.b.nextOut, ks)) && HealsOrDooms(view, hb, l', st', x0, y0)
  {
    l' := Link(l.a, r, l.ab[1..], l.ba + Stamped(l.b.nextOut, ks));
    if l.a.cfg.role.Initiator? && ks != [] {
      EarlyReplyDooms(view, hb, l, st, x0, y0, ks);
    } else {
      ReplyIsPlain(hb, l.b.cfg, l.ab[0].kind);
      PlainIsInbound(hb, l.b.nextOut, ks);
      OpenedMore(l.a.phase, l.ba, Stamped(l.b.nextOut, ks));
      if l.a.cfg.role.Initiator? { MuteJoined(l.b.cfg, l.a.store, y0.nextIn, st.p, r.nextIn); }
      var same := StepOfB(view, hb, l, st, x0, y0, r, l.ab[1..], st', ks, h);
    }
  }

  /** The replies to what is let through are ordinary, and the other end may be sent them. */
  lemma LetThroughSays(view: Wire -> View, hb: nat, l: Link, st: Stage, x0: State, y0: State, ks: seq<Kind>)
    requires Healing(view, hb, l, st, x0, y0) && st.Answered? && l.ab != [] && Replayable(l.ab[0].kind)
    requires ks == Reply(l.b.cfg, l.ab[0].kind) + Replies(l.b.cfg, l.a.store[st.e..st.j])
    requires l.a.cfg.role.Initiator? ==> Reply(l.b.cfg, l.ab[0].kind) == []
    ensures forall i | 0 <= i < |ks| :: Plain(hb, ks[i])
    ensures
      var news := Stamped(l.b.nextOut, ks);
      && AllInbound(news) && (Opened(l.a.phase, l.ba) || Admits(l.a.phase, news))
      && Opened(l.a.phase, l.ba + news)
  {
    var g := l.a.store[st.e..st.j];
    ReplyIsPlain(hb, l.b.cfg, l.ab[0].kind);
    RepliesArePlain(hb, l.b.cfg, g);
    PlainIsInbound(hb, l.b.nextOut, ks);
    OpenedMore(l.a.phase, l.ba, Stamped(l.b.nextOut, ks));
    if l.a.cfg.role.Initiator? {
      assert ks == Replies(l.b.cfg, g) && g[0] == l.a.store[st.e];
      LogonRepliesFirst(hb, l.b.cfg, g, l.b.nextOut, l.a.phase);
    }
  }

  lemma BLetsThrough(view: Wire -> View, hb: nat, l: Link, st: Stage, x0: State, y0: State,
                     r: State, ks: seq<Kind>, h: seq<Msg>)
    returns (l': Link)
    requires Healing(view, hb, l, st, x0, y0) && st.Answered? && l.ab != []
    requires HasRead(view, l.a.store, l.b, r, l.ab[1..], Level, ks, h)
    requires TurnOf(l.a.store, l.b, r, l.ab[0], st.e, st.j, st.p, Closed, Level, ks)
    ensures l' == Link(l.a, r, l.ab[1..], l.ba + Stamped(l.b.nextOut, ks)) && HealsOrDooms(view, hb, l', Level, x0, y0)
  {
    l' := Link(l.a, r, l.ab[1..], l.ba + Stamped(l.b.nextOut, ks));
    if l.a.cfg.role.Initiator? && Reply(l.b.cfg, l.ab[0].kind) != [] {
      EarlyReplyDooms(view, hb, l, st, x0, y0, ks);
    } else {
      LetThroughSays(view, hb, l, st, x0, y0, ks);
      if l.a.cfg.role.Initiator? { MuteJoined(l.b.cfg, l.a.store, y0.nextIn, st.p, st.e + 1); }
      var same := StepOfB(view, hb, l, st, x0, y0, r, l.ab[1..], Level, ks, h);
    }
  }

  lemma TurnHeals(view: Wire -> View, hb: nat, l: Link, st: Stage, x0: State, y0: State,
                  turn: Turn, r: State, st': Stage, ks: seq<Kind>, h: seq<Msg>)
    returns (l': Link)
    requires Healing(view, hb, l, st, x0, y0) && st.Answered? && l.ab != []
    requires HasRead(view, l.a.store, l.b, r, l.ab[1..], st', ks, h)
    requires TurnOf(l.a.store, l.b, r, l.ab[0], st.e, st.j, st.p, turn, st', ks)
    ensures l' == Link(l.a, r, l.ab[1..], l.ba + Stamped(l.b.nextOut, ks))
    ensures (st'.Answered? || st'.Level?) && HealsOrDooms(view, hb, l', st', x0, y0)
  {
    match turn
    case Filed => l' := BFilesLive(view, hb, l, st, x0, y0, r, st', h);
    case Passed => l' := BHandlesReplayed(view, hb, l, st, x0, y0, r, st', ks, h);
    case Closed => l' := BLetsThrough(view, hb, l, st, x0, y0, r, ks, h);
  }

  /** What the next message does while the answer is on its way. */
  lemma AnswerTurn(view: Wire -> View, printed: Msg -> Wire, hb: nat, l: Link, st: Stage, x0: State, y0: State)
    returns (turn: Turn, r: State, st': Stage, ks: seq<Kind>, h: seq<Msg>)
    requires Healing(view, hb, l, st, x0, y0) && st.Answered? && l.ab != [] && Prints(view, printed)
    requires Roomy(l.a, l.b) && OkLink(view, l)
    ensures Reading(view, printed, l) == Link(l.a, r, l.ab[1..], l.ba + Stamped(l.b.nextOut, ks))
    ensures HasRead(view, l.a.store, l.b, r, l.ab[1..], st', ks, h)
    ensures TurnOf(l.a.store, l.b, r, l.ab[0], st.e, st.j, st.p, turn, st', ks)
  {
    FreshIsLive(view, hb, l, st, x0, y0);
    turn, r, st', ks, h := ReadAnswer(view, printed, hb, l.a.store, l.b, l.ab, st.e, st.j, st.p);
    ReadingIs(view, printed, l, r, ks);
  }

  /** A message while the answer is on its way. */
  lemma BReadsAnswer(view: Wire -> View, printed: Msg -> Wire, hb: nat, l: Link, st: Stage, x0: State, y0: State)
    returns (st': Stage)
    requires Healing(view, hb, l, st, x0, y0) && st.Answered? && l.ab != [] && Prints(view, printed)
    requires Roomy(l.a, l.b)
    ensures st'.Answered? || st'.Level?
    ensures HealsOrDooms(view, hb, Reading(view, printed, l), st', x0, y0)
  {
    var turn, r, s, ks, h := AnswerTurn(view, printed, hb, l, st, x0, y0);
    st' := s;
    var l' := TurnHeals(view, hb, l, st, x0, y0, turn, r, s, ks, h);
  }

  // ---- the ends send ----

  lemma SentIsPlain(hb: nat, s: State, e: Event)
    requires Sends(s, e)
    ensures Plain(hb, SentKind(e)) && !SentKind(e).Logon?
  {
  }

  lemma SendingIs(view: Wire -> View, l: Link, e: Event, log: seq<Inbound>, other: seq<Msg>, st: Stage)
    requires OkLink(view, l) && !l.a.stopped && Sends(l.a, e) && Incoming(view, log, l.a, other, st)
    ensures
      var r, k := Sending(view, l, e), SentKind(e);
      && r == Link(r.a, l.b, l.ab + Stamped(l.a.nextOut, [k]), l.ba)
      && HasRead(view, log, l.a, r.a, other, st, [k], [])
      && r.a.phase == l.a.phase && r.a.nextIn == l.a.nextIn && r.a.base == l.a.base
  {
    var r, k := Sending(view, l, e), SentKind(e);
    SendIsEmit(view, l, e);
    assert Stamped(l.a.nextOut, [k]) == [Msg(l.a.nextOut, k, false)];
    assert log[l.a.nextIn - 1..r.a.nextIn - 1] == [];
  }

  lemma ASends(view: Wire -> View, hb: nat, l: Link, st: Stage, x0: State, y0: State, e: Event)
    requires Healing(view, hb, l, st, x0, y0) && MaySpeak(l.a, e, true)
    ensures Healing(view, hb, Sending(view, l, e), st, x0, y0)
  {
    var r, k := Sending(view, l, e), SentKind(e);
    SendingIs(view, l, e, l.b.store, l.ba, Level);
    SentIsPlain(hb, l.a, e);
    var news := Stamped(l.a.nextOut, [k]);
    OpenedMore(l.b.phase, l.ab, news);
    var l' := StepOfA(view, hb, l, st, x0, y0, r.a, l.ba, [k], []);
  }

  lemma BSends(view: Wire -> View, hb: nat, l: Link, st: Stage, x0: State, y0: State, e: Event)
    requires Healing(view, hb, l, st, x0, y0) && MaySpeak(l.b, e, true)
    ensures Healing(view, hb, Flip(Sending(view, Flip(l), e)), st, x0, y0)
  {
    var r, k := Sending(view, Flip(l), e), SentKind(e);
    SendingIs(view, Flip(l), e, l.a.store, l.ab, st);
    SentIsPlain(hb, l.b, e);
    var l' := BSays(view, hb, l, st, x0, y0, r.a, k);
  }

  lemma BSays(view: Wire -> View, hb: nat, l: Link, st: Stage, x0: State, y0: State, r: State, k: Kind)
    returns (l': Link)
    requires Healing(view, hb, l, st, x0, y0) && Plain(hb, k) && !k.Logon?
    requires HasRead(view, l.a.store, l.b, r, l.ab, st, [k], [])
    requires r.phase == l.b.phase && r.nextIn == l.b.nextIn && r.base == l.b.base
    requires l.b.cfg.role.Acceptor? && l.b.phase != Active ==> Admin(k)
    ensures l' == Link(l.a, r, l.ab, l.ba + Stamped(l.b.nextOut, [k])) && Healing(view, hb, l', st, x0, y0)
  {
    OpenedMore(l.a.phase, l.ba, Stamped(l.b.nextOut, [k]));
    l' := StepOfB(view, hb, l, st, x0, y0, r, l.ab, st, [k], []);
  }

  // ---- `l.a` reads ----

  /** Gates after `l.a` has read an ordinary message and said `ks`. */
  lemma GatesAfterARead(view: Wire -> View, hb: nat, l: Link, st: Stage, x0: State, y0: State, r: State, ks: seq<Kind>)
    requires Healing(view, hb, l, st, x0, y0) && l.ba != [] && Plain(hb, l.ba[0].kind)
    requires ks == Reply(l.a.cfg, l.ba[0].kind) && Replied(l.a, r, ks) && r.cfg == l.a.cfg
    requires r.phase == PhaseAfter(TermsOf(l.a), l.a.phase, l.ba[0])
    ensures
      var n := Link(r, l.b, l.ab + Stamped(l.a.nextOut, ks), l.ba[1..]);
      Gates(n, st) && Unheard(n, st)
    ensures st.Missing? && st.e == |l.a.store| && ks != [] ==> Admin(ks[0])
    ensures st.Level? ==> Opened(l.b.phase, l.ab) || Admits(l.b.phase, Stamped(l.a.nextOut, ks))
  {
    var m, news := l.ba[0], Stamped(l.a.nextOut, ks);
    OpenedMore(l.b.phase, l.ab, news);
    AdmitsRest(l.a.phase, l.ba, r.phase);
    if !Listening(l.a.phase) {
      ReplyIsAdmitted(hb, l.a.cfg, m, l.a.nextOut, l.b.phase);
    }
    if Opened(l.a.phase, l.ba[1..]) { OpenedRest(l.a.phase, l.ba); }
  }

  lemma AReadsPlain(view: Wire -> View, printed: Msg -> Wire, hb: nat, l: Link, st: Stage, x0: State, y0: State)
    requires Healing(view, hb, l, st, x0, y0) && l.ba != [] && Prints(view, printed)
    requires st.Asked? ==> l.a.nextIn != st.r
    ensures Healing(view, hb, Flip(Reading(view, printed, Flip(l))), st, x0, y0)
  {
    var m := l.ba[0];
    assert m == l.b.store[l.a.nextIn - 1] && Plain(hb, m.kind);
    var r, ks := ReadInOrder(view, printed, l.b.store, l.a, l.ba);
    ReadingIs(view, printed, Flip(l), r, ks);
    var l' := AReplies(view, hb, l, st, x0, y0, r, ks, m);
  }

  lemma AReplies(view: Wire -> View, hb: nat, l: Link, st: Stage, x0: State, y0: State,
                 r: State, ks: seq<Kind>, m: Msg)
    returns (l': Link)
    requires Healing(view, hb, l, st, x0, y0) && l.ba != [] && m == l.ba[0] && Plain(hb, m.kind)
    requires HasRead(view, l.b.store, l.a, r, l.ba[1..], Level, ks, [m]) && ks == Reply(l.a.cfg, m.kind)
    requires r.phase == PhaseAfter(TermsOf(l.a), l.a.phase, m) && r.nextIn == l.a.nextIn + 1
    requires st.Asked? ==> l.a.nextIn != st.r
    ensures l' == Link(r, l.b, l.ab + Stamped(l.a.nextOut, ks), l.ba[1..]) && Healing(view, hb, l', st, x0, y0)
  {
    ReplyIsPlain(hb, l.a.cfg, m.kind);
    GatesAfterARead(view, hb, l, st, x0, y0, r, ks);
    l' := StepOfA(view, hb, l, st, x0, y0, r, l.ba[1..], ks, [m]);
  }

  // ---- `l.a` answers the request ----

  lemma AnswerIs(s: State, b: SeqNo, e: nat)
    requires Logged(s) && e <= |s.store| && b <= e
    ensures ClampEnd(s, e) == e
  {
  }

  /** The request is the expected message: the replay of the range is sent, and nothing stored. */
  lemma AHandlesRequest(view: Wire -> View, s: State, m: Inbound, w: Wire) returns (r: State)
    requires Expected(s, m) && OkEnd(view, s) && view(w) == Valid(m) && m.kind.ResendRequest? && Logged(s)
    requires s.phase != RecoveringResend && m.kind.beginSeqNo <= m.kind.endSeqNo <= |s.store|
    ensures r == Process(view, s, w) && OkEnd(view, r)
    ensures r == s.(nextIn := s.nextIn + 1, handled := s.handled + [m], sent := r.sent)
    ensures r.sent == s.sent + Replay(s.store, m.kind.beginSeqNo, m.kind.endSeqNo)
  {
    r := Process(view, s, w);
    AnswerIs(s.(nextIn := m.num + 1, handled := s.handled + [m]), m.kind.beginSeqNo, m.kind.endSeqNo);
  }

  /** The answer comes behind what is on its way already. */
  lemma AnswerOnItsWay(view: Wire -> View, log: seq<Inbound>, y: State, xy: seq<Msg>, st: Stage)
    returns (st': Stage)
    requires Incoming(view, log, y, xy, st) && st.Asked?
    ensures st' == Answered(st.e, st.j, y.nextIn)
    ensures Incoming(view, log, y, xy + Replay(log, y.nextIn, st.e), st')
  {
    st' := Answered(st.e, st.j, y.nextIn);
    InterleavesBehind(Replay(log, y.nextIn, st.e), log[st.j..]);
  }

  lemma AReadsRequest(view: Wire -> View, printed: Msg -> Wire, hb: nat, l: Link, st: Stage, x0: State, y0: State)
    returns (st': Stage)
    requires Healing(view, hb, l, st, x0, y0) && l.ba != [] && Prints(view, printed)
    requires st.Asked? && l.a.nextIn == st.r
    ensures st'.Answered? && Healing(view, hb, Flip(Reading(view, printed, Flip(l))), st', x0, y0)
  {
    var m, w := RequestIsNext(view, printed, hb, l, st, x0, y0);
    var r := AHandlesRequest(view, l.a, m, w);
    st' := AnswerOnItsWay(view, l.a.store, l.b, l.ab, st);
    var answer := Replay(l.a.store, l.b.nextIn, st.e);
    AnsweringIs(view, printed, l, r, answer);
    ReplayIsQuiet(l.a.store, l.b.nextIn, st.e);
    AAnswered(view, hb, l, st, x0, y0, r, m, Link(r, l.b, l.ab + answer, l.ba[1..]), st');
  }

  lemma RequestIsNext(view: Wire -> View, printed: Msg -> Wire, hb: nat, l: Link, st: Stage, x0: State, y0: State)
    returns (m: Inbound, w: Wire)
    requires Healing(view, hb, l, st, x0, y0) && l.ba != [] && Prints(view, printed)
    requires st.Asked? && l.a.nextIn == st.r
    ensures m == l.ba[0] && w == printed(l.ba[0]) && view(w) == Valid(m) && Expected(l.a, m)
    ensures m.kind == ResendRequest(l.b.nextIn, st.e) && l.b.nextIn <= st.e <= |l.a.store|
  {
    m, w := l.ba[0], printed(l.ba[0]);
    assert m == l.b.store[l.a.nextIn - 1];
  }

  lemma AnsweringIs(view: Wire -> View, printed: Msg -> Wire, l: Link, r: State, answer: seq<Msg>)
    requires OkLink(view, l) && l.ba != [] && r == Process(view, l.a, printed(l.ba[0]))
    requires r.sent == l.a.sent + answer
    ensures Flip(Reading(view, printed, Flip(l))) == Link(r, l.b, l.ab + answer, l.ba[1..])
    ensures l.a.sent <= r.sent && r.sent[|l.a.sent|..] == answer
  {
  }

  /** What the direction of the request becomes when it was read. */
  lemma RequestRead(view: Wire -> View, l: Link, st: Stage, x0: State, r: State, m: Msg)
    requires Logged(l.b) && AllInbound(l.b.store) && Incoming(view, l.b.store, l.a, l.ba, Level) && l.ba != []
    requires m == l.ba[0] && Admin(m.kind) && !m.kind.Logon? && OkEnd(view, r)
    requires r == l.a.(nextIn := l.a.nextIn + 1, handled := l.a.handled + [m], sent := r.sent)
    requires Since(x0, l.a, l.b.store)
    ensures Incoming(view, l.b.store, r, l.ba[1..], Level) && Since(x0, r, l.b.store)
    ensures Opened(l.a.phase, l.ba) <==> Opened(r.phase, l.ba[1..])
  {
    var log := l.b.store;
    AdmitsRest(l.a.phase, l.ba, r.phase);
    if Opened(l.a.phase, l.ba[1..]) { OpenedRest(l.a.phase, l.ba); }
    assert l.ba[1..] == log[r.nextIn - 1..];
    assert log[l.a.nextIn - 1..r.nextIn - 1] == [m];
    assert AppContent([m]) == [] by { assert [m][1..] == []; }
    SinceMore(x0, l.a, r, log, [m]);
  }

  lemma AAnswered(view: Wire -> View, hb: nat, l: Link, st: Stage, x0: State, y0: State,
                  r: State, m: Inbound, l': Link, st': Stage)
    requires Healing(view, hb, l, st, x0, y0) && l.ba != [] && st.Asked? && l.a.nextIn == st.r
    requires m == l.ba[0] && Admin(m.kind) && !m.kind.Logon? && OkEnd(view, r)
    requires r == l.a.(nextIn := l.a.nextIn + 1, handled := l.a.handled + [m], sent := r.sent)
    requires l.a.sent <= r.sent && !SaysLogout(r.sent[|l.a.sent|..])
    requires l' == Link(r, l.b, l'.ab, l.ba[1..])
    requires st' == Answered(st.e, st.j, l.b.nextIn) && Incoming(view, l.a.store, l.b, l'.ab, st')
    ensures Healing(view, hb, l', st', x0, y0)
  {
    RequestRead(view, l, st, x0, r, m);
    ManneredMore(x0, l.a, r, r.sent[|l.a.sent|..]);
  }
}
