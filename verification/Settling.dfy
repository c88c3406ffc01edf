/** A connection that can heal does so: whichever end reads first, all is read after finitely many reads. */
module Settling {
  import opened Bytes
  import opened Protocol
  import opened SessionSpec
  import opened SessionRuns
  import opened Draining
  import opened GapRecovery
  import opened Answering
  import opened TwoEnds
  import opened Directions
  import opened CatchingUp
  import opened OneBehind
  import opened BothBehind
  import opened Connections

  // ---- what is still to be said ----

  /** The replies that `y` has still to give to what is stored for it. */
  function Owed(y: State, log: seq<Msg>): nat
    requires 1 <= y.nextIn <= |log| + 1
  {
    |Replies(y.cfg, log[y.nextIn - 1..])|
  }

  lemma OwedSplit(cfg: Config, log: seq<Msg>, a: nat, b: nat)
    requires a <= b <= |log|
    ensures |Replies(cfg, log[a..])| == |Replies(cfg, log[a..b])| + |Replies(cfg, log[b..])|
  {
    assert log[a..] == log[a..b] + log[b..];
    RepliesConcat(cfg, log[a..b], log[b..]);
  }

  lemma {:induction false} RepliesHas(cfg: Config, h: seq<Msg>, i: nat)
    requires i < |h| && Reply(cfg, h[i].kind) != []
    ensures |Replies(cfg, h)| >= 1
    decreases i
  {
    if i > 0 {
      RepliesHas(cfg, h[1..], i - 1);
    }
  }

  /** A reply is recognised as one. */
  lemma ReplyIsRecognised(id: Wire)
    ensures IsReply(REPLY_HEAD + id)
  {
    assert (REPLY_HEAD + id)[0..|REPLY_MARK|] == REPLY_MARK;
    assert OccursAt(REPLY_HEAD + id, REPLY_MARK, 0);
  }

  /** Replies are not replied to. */
  lemma ReplyEnds(cfg: Config, other: Config, k: Kind, i: nat)
    requires cfg.role != other.role && i < |Reply(cfg, k)|
    ensures Reply(other, Reply(cfg, k)[i]) == [] && |Reply(cfg, k)| == 1
  {
    ReplyIsRecognised(cfg.readableId);
  }

  lemma {:induction false} RepliesEnd(cfg: Config, other: Config, h: seq<Msg>, i: nat)
    requires cfg.role != other.role && i < |Replies(cfg, h)|
    ensures Reply(other, Replies(cfg, h)[i]) == []
    decreases |h|
  {
    var first := Reply(cfg, h[0].kind);
    if i < |first| {
      ReplyEnds(cfg, other, h[0].kind, i);
    } else {
      RepliesEnd(cfg, other, h[1..], i - |first|);
    }
  }

  lemma {:induction false} NoReplies(cfg: Config, h: seq<Msg>)
    requires forall i | 0 <= i < |h| :: Reply(cfg, h[i].kind) == []
    ensures Replies(cfg, h) == []
    decreases |h|
  {
    if h != [] {
      NoReplies(cfg, h[1..]);
    }
  }

  /** None of these kinds is replied to. */
  predicate Final(cfg: Config, ks: seq<Kind>) {
    forall i | 0 <= i < |ks| :: Reply(cfg, ks[i]) == []
  }

  /** What `y` says is taken off what it owes, and the other end owes nothing for it. */
  lemma SayingPays(y: State, r: State, log: seq<Msg>, other: State, ks: seq<Kind>)
    requires 1 <= y.nextIn <= r.nextIn <= |log| + 1 && r.cfg == y.cfg && Replied(y, r, ks)
    requires |ks| <= |Replies(y.cfg, log[y.nextIn - 1..r.nextIn - 1])|
    requires 1 <= other.nextIn <= |y.store| + 1 && Final(other.cfg, ks)
    ensures Owed(r, log) + |ks| <= Owed(y, log)
    ensures Owed(other, r.store) == Owed(other, y.store) && |r.store| == |y.store| + |ks|
  {
    OwedSplit(y.cfg, log, y.nextIn - 1, r.nextIn - 1);
    SayingIsFinal(y, r, other, ks);
  }

  lemma SayingIsFinal(y: State, r: State, other: State, ks: seq<Kind>)
    requires Replied(y, r, ks) && 1 <= other.nextIn <= |y.store| + 1 && Final(other.cfg, ks)
    ensures Owed(other, r.store) == Owed(other, y.store) && |r.store| == |y.store| + |ks|
  {
    var news, n := Stamped(y.nextOut, ks), other.nextIn - 1;
    assert r.store[n..] == y.store[n..] + news;
    RepliesConcat(other.cfg, y.store[n..], news);
    NoReplies(other.cfg, news);
  }

  // ---- every read gets on ----

  predicate InBounds(l: Link) {
    1 <= l.a.nextIn <= |l.b.store| + 1 && 1 <= l.b.nextIn <= |l.a.store| + 1
  }

  /** How many messages the ends will still say by themselves. */
  function Debt(l: Link, st: Stage): nat
    requires InBounds(l)
  {
    Owed(l.b, l.a.store) + Owed(l.a, l.b.store) + if st.Missing? then 1 else 0
  }

  /** What is still to be read and said, within a stage. */
  function Work(l: Link, st: Stage): nat
    requires InBounds(l)
  {
    |l.a.store| + 1 - l.b.nextIn + |l.b.store| + 1 - l.a.nextIn + |l.ab| + |l.ba| + 2 * Debt(l, st)
  }

  /** The first number of the window an end has, or would open. */
  function Edge(s: State): nat {
    if s.phase == RecoveringResend then s.base else s.nextIn
  }

  predicate EdgeKept(s: State, r: State) {
    r.phase == Active || (s.phase != Active && Edge(r) >= Edge(s))
  }

  /** From `l` to `r` the windows stay, no more is stored than was owed, and less is left. */
  predicate Eases(l: Link, st: Stage, r: Link, st': Stage) {
    && InBounds(l) && InBounds(r) && EdgeKept(l.a, r.a) && EdgeKept(l.b, r.b)
    && |l.a.store| <= |r.a.store| && |l.b.store| <= |r.b.store|
    && Debt(r, st') + |r.a.store| + |r.b.store| <= Debt(l, st) + |l.a.store| + |l.b.store|
    && (Rank(st') < Rank(st) || (Rank(st') == Rank(st) && Work(r, st') < Work(l, st)))
  }

  lemma EasesFlipped(l: Link, st: Stage, r: Link, st': Stage)
    requires Eases(l, st, r, st')
    ensures Eases(Flip(l), st, Flip(r), st')
  {
  }

  /** A read by `l.b`. */
  lemma ReadEases(l: Link, st: Stage, r: State, ks: seq<Kind>, l': Link, st': Stage)
    requires InBounds(l) && l.ab != [] && r.cfg == l.b.cfg && EdgeKept(l.b, r)
    requires l' == Link(l.a, r, l.ab[1..], l.ba + Stamped(l.b.nextOut, ks)) && Replied(l.b, r, ks)
    requires l.b.nextIn <= r.nextIn <= |l.a.store| + 1 && Final(l.a.cfg, ks)
    requires if st.Missing? then Rank(st') < Rank(st) && |ks| == 1 && r.nextIn == l.b.nextIn
             else Rank(st') <= Rank(st) && |ks| <= |Replies(r.cfg, l.a.store[l.b.nextIn - 1..r.nextIn - 1])|
    ensures Eases(l, st, l', st')
  {
    if st.Missing? {
      SayingIsFinal(l.b, r, l.a, ks);
    } else {
      SayingPays(l.b, r, l.a.store, l.a, ks);
    }
    assert EdgeKept(l.a, l.a);
  }

  lemma StageByPhase(view: Wire -> View, hb: nat, l: Link, st: Stage, x0: State, y0: State)
    requires Healing(view, hb, l, st, x0, y0)
    ensures InBounds(l) && (l.b.phase == RecoveringResend <==> st.Asked? || st.Answered?)
    ensures st.Missing? ==> l.b.phase != Active
    ensures l.a.cfg.role != l.b.cfg.role && l.a.phase != RecoveringResend
  {
  }

  lemma ReplyIsFinal(cfg: Config, other: Config, k: Kind)
    requires cfg.role != other.role
    ensures Final(other, Reply(cfg, k)) && |Reply(cfg, k)| <= 1
  {
    forall i | 0 <= i < |Reply(cfg, k)| ensures Reply(other, Reply(cfg, k)[i]) == [] {
      ReplyEnds(cfg, other, k, i);
    }
  }

  lemma RepliesAreFinal(cfg: Config, other: Config, h: seq<Msg>)
    requires cfg.role != other.role
    ensures Final(other, Replies(cfg, h))
  {
    forall i | 0 <= i < |Replies(cfg, h)| ensures Reply(other, Replies(cfg, h)[i]) == [] {
      RepliesEnd(cfg, other, h, i);
    }
  }

  /** One message handled in order. */
  lemma InOrderEases(l: Link, st: Stage, r: State, m: Msg, ks: seq<Kind>, l': Link, st': Stage)
    requires InBounds(l) && l.ab != [] && l.a.cfg.role != l.b.cfg.role && r.cfg == l.b.cfg && EdgeKept(l.b, r)
    requires l' == Link(l.a, r, l.ab[1..], l.ba + Stamped(l.b.nextOut, ks)) && Replied(l.b, r, ks)
    requires r.nextIn == l.b.nextIn + 1 <= |l.a.store| + 1 && m == l.a.store[l.b.nextIn - 1]
    requires ks == Reply(l.b.cfg, m.kind) && !st.Missing? && Rank(st') <= Rank(st)
    ensures Eases(l, st, l', st')
  {
    ReplyIsFinal(l.b.cfg, l.a.cfg, m.kind);
    assert l.a.store[l.b.nextIn - 1..r.nextIn - 1] == [m];
    RepliesOne(l.b.cfg, m);
    ReadEases(l, st, r, ks, l', st');
  }

  lemma FirstEases(view: Wire -> View, printed: Msg -> Wire, hb: nat, l: Link, st: Stage, x0: State, y0: State,
                   st': Stage)
    requires Healing(view, hb, l, st, x0, y0) && st.Missing? && l.ab != [] && Prints(view, printed) && Roomy(l.a, l.b)
    requires st'.Asked?
    ensures Eases(l, st, Reading(view, printed, l), st')
  {
    var r, s, ks := ReadFirst(view, printed, l.a.store, l.b, l.ab, st.e);
    ReadingIs(view, printed, l, r, ks);
    StageByPhase(view, hb, l, st, x0, y0);
    ReadEases(l, st, r, ks, Reading(view, printed, l), st');
  }

  lemma AskingEases(view: Wire -> View, printed: Msg -> Wire, hb: nat, l: Link, st: Stage, x0: State, y0: State,
                    st': Stage)
    requires Healing(view, hb, l, st, x0, y0) && st.Asked? && l.ab != [] && Prints(view, printed) && Roomy(l.a, l.b)
    requires Rank(st') <= Rank(st)
    ensures Eases(l, st, Reading(view, printed, l), st')
  {
    FreshIsLive(view, hb, l, st, x0, y0);
    var r, s := ReadWhileAsking(view, printed, l.a.store, l.b, l.ab, st.e, st.j, st.r);
    ReadingIs(view, printed, l, r, []);
    StageByPhase(view, hb, l, st, x0, y0);
    ReadEases(l, st, r, [], Reading(view, printed, l), st');
  }

  lemma BInOrderEases(view: Wire -> View, printed: Msg -> Wire, hb: nat, l: Link, st: Stage, x0: State, y0: State,
                      st': Stage)
    requires Healing(view, hb, l, st, x0, y0) && st.Level? && l.ab != [] && Prints(view, printed)
    requires Rank(st') <= Rank(st)
    ensures Eases(l, st, Reading(view, printed, l), st')
  {
    FreshIsLive(view, hb, l, st, x0, y0);
    var m := l.ab[0];
    assert m == l.a.store[l.b.nextIn - 1] && Plain(hb, m.kind);
    var r, ks := ReadInOrder(view, printed, l.a.store, l.b, l.ab);
    ReadingIs(view, printed, l, r, ks);
    StageByPhase(view, hb, l, st, x0, y0);
    InOrderEases(l, st, r, m, ks, Reading(view, printed, l), st');
  }

  /** What a message of the answer costs is no more than what it takes the reader across. */
  lemma TurnPaysAt(log: seq<Inbound>, y: State, other: State, r: State, first: Msg, e: nat, j: nat, p: nat,
                 turn: Turn, st: Stage, ks: seq<Kind>, a: nat, b: nat)
    requires TurnOf(log, y, r, first, e, j, p, turn, st, ks) && p == a + 1 && r.nextIn == b + 1
    requires a < e <= |log| && a <= b <= |log| && y.cfg.role != other.cfg.role
    ensures |ks| <= |Replies(y.cfg, log[a..b])| && Final(other.cfg, ks)
  {
    ReplyIsFinal(y.cfg, other.cfg, first.kind);
    match turn
    case Filed =>
    case Passed => PassedPays(y.cfg, log, a, b, first.kind);
    case Closed =>
      RepliesAreFinal(y.cfg, other.cfg, log[e..b]);
      ClosedPays(y.cfg, log, a, e, b, first.kind);
  }

  lemma TurnPays(log: seq<Inbound>, y: State, other: State, r: State, first: Msg, e: nat, j: nat, p: nat,
                 turn: Turn, st: Stage, ks: seq<Kind>)
    requires TurnOf(log, y, r, first, e, j, p, turn, st, ks) && 1 <= y.nextIn == p <= e <= |log|
    requires y.nextIn <= r.nextIn <= |log| + 1 && y.cfg.role != other.cfg.role && r.cfg == y.cfg
    ensures |ks| <= |Replies(r.cfg, log[y.nextIn - 1..r.nextIn - 1])| && Final(other.cfg, ks)
  {
    TurnPaysAt(log, y, other, r, first, e, j, p, turn, st, ks, y.nextIn - 1, r.nextIn - 1);
  }

  lemma PassedPays(cfg: Config, log: seq<Msg>, a: nat, b: nat, k: Kind)
    requires a <= b <= |log| && |Reply(cfg, k)| <= 1 && (Mute(cfg, log, a + 1, b + 1) <==> Reply(cfg, k) == [])
    ensures |Reply(cfg, k)| <= |Replies(cfg, log[a..b])|
  {
    if Reply(cfg, k) != [] { NotMuteOwes(cfg, log, a, b); }
  }

  lemma ClosedPays(cfg: Config, log: seq<Msg>, a: nat, b: nat, c: nat, k: Kind)
    requires a <= b <= c <= |log| && |Reply(cfg, k)| <= 1
    requires Mute(cfg, log, a + 1, b + 1) <==> Reply(cfg, k) == []
    ensures |Reply(cfg, k) + Replies(cfg, log[b..c])| <= |Replies(cfg, log[a..c])|
  {
    var g, h := log[a..b], log[b..c];
    PassedPays(cfg, log, a, b, k);
    ClosingPays(cfg, g, h, k);
    assert log[a..c] == g + h;
  }

  lemma ClosingPays(cfg: Config, g: seq<Msg>, h: seq<Msg>, k: Kind)
    requires |Reply(cfg, k)| <= |Replies(cfg, g)|
    ensures |Reply(cfg, k) + Replies(cfg, h)| <= |Replies(cfg, g + h)|
  {
    RepliesConcat(cfg, g, h);
  }

  lemma NotMuteOwes(cfg: Config, log: seq<Msg>, a: nat, b: nat)
    requires a <= b <= |log| && !Mute(cfg, log, a + 1, b + 1)
    ensures |Replies(cfg, log[a..b])| >= 1
  {
    var i :| 0 <= i < |log| && a + 1 <= i + 1 < b + 1 && !Admin(log[i].kind) && Reply(cfg, log[i].kind) != [];
    var h := log[a..b];
    assert h[i - a] == log[i];
    RepliesHas(cfg, h, i - a);
  }

  lemma AnswerEases(view: Wire -> View, printed: Msg -> Wire, hb: nat, l: Link, st: Stage, x0: State, y0: State,
                    st': Stage)
    requires Healing(view, hb, l, st, x0, y0) && st.Answered? && l.ab != [] && Prints(view, printed)
    requires Roomy(l.a, l.b) && OkLink(view, l) && Rank(st') <= Rank(st)
    ensures Eases(l, st, Reading(view, printed, l), st')
  {
    var turn, r, s, ks, h := AnswerTurn(view, printed, hb, l, st, x0, y0);
    StageByPhase(view, hb, l, st, x0, y0);
    TurnPays(l.a.store, l.b, l.a, r, l.ab[0], st.e, st.j, st.p, turn, s, ks);
    ReadEases(l, st, r, ks, Reading(view, printed, l), st');
  }

  /** A read by the end that may be behind. */
  lemma BGetsOn(view: Wire -> View, printed: Msg -> Wire, hb: nat, l: Link, st: Stage, x0: State, y0: State)
    returns (st': Stage)
    requires OkLink(view, l) && Healing(view, hb, l, st, x0, y0) && GoesOn(x0, y0, l) && !MissesRequest(x0, y0)
    requires l.ab != [] && Prints(view, printed) && Roomy(l.a, l.b)
    ensures Healing(view, hb, Reading(view, printed, l), st', x0, y0)
    ensures Eases(l, st, Reading(view, printed, l), st')
  {
    var r := Moved(view, printed, l, ReadB);
    st' := BReads(view, printed, hb, l, st, x0, y0);
    MoveGoesOn(view, printed, x0, y0, l, ReadB);
    if !Healing(view, hb, r, st', x0, y0) {
      MutePrefix(r.b.cfg, x0.store, r.a.store, y0.nextIn);
    }
    match st
    case Missing(_) => FirstEases(view, printed, hb, l, st, x0, y0, st');
    case Asked(_, _, _) => AskingEases(view, printed, hb, l, st, x0, y0, st');
    case Answered(_, _, _) => AnswerEases(view, printed, hb, l, st, x0, y0, st');
    case Level => BInOrderEases(view, printed, hb, l, st, x0, y0, st');
  }

  lemma AnsweringEases(l: Link, st: Stage, r: State, l': Link, st': Stage)
    requires InBounds(l) && l.ba != [] && st.Asked? && st'.Answered? && EdgeKept(l.a, r) && EdgeKept(l.b, l.b)
    requires r.cfg == l.a.cfg && r.store == l.a.store && r.nextIn == l.a.nextIn + 1 <= |l.b.store| + 1
    requires l' == Link(r, l.b, l'.ab, l.ba[1..])
    ensures Eases(l, st, l', st')
  {
    OwedSplit(l.a.cfg, l.b.store, l.a.nextIn - 1, r.nextIn - 1);
  }

  lemma RequestEases(view: Wire -> View, printed: Msg -> Wire, hb: nat, l: Link, st: Stage, x0: State, y0: State,
                     st': Stage)
    requires Healing(view, hb, l, st, x0, y0) && l.ba != [] && Prints(view, printed)
    requires st.Asked? && l.a.nextIn == st.r && st'.Answered?
    ensures Eases(l, st, Flip(Reading(view, printed, Flip(l))), st')
  {
    var m, w := RequestIsNext(view, printed, hb, l, st, x0, y0);
    var r := AHandlesRequest(view, l.a, m, w);
    StageByPhase(view, hb, l, st, x0, y0);
    AnsweringEases(l, st, r, Flip(Reading(view, printed, Flip(l))), st');
  }

  lemma PlainReadEases(l: Link, st: Stage, r: State, m: Msg, ks: seq<Kind>, l': Link)
    requires InBounds(l) && l.ba != [] && l.a.cfg.role != l.b.cfg.role && r.cfg == l.a.cfg
    requires EdgeKept(l.a, r) && EdgeKept(l.b, l.b)
    requires l' == Link(r, l.b, l.ab + Stamped(l.a.nextOut, ks), l.ba[1..]) && Replied(l.a, r, ks)
    requires r.nextIn == l.a.nextIn + 1 <= |l.b.store| + 1 && m == l.b.store[l.a.nextIn - 1]
    requires ks == Reply(l.a.cfg, m.kind)
    ensures Eases(l, st, l', st)
  {
    ReplyIsFinal(l.a.cfg, l.b.cfg, m.kind);
    assert l.b.store[l.a.nextIn - 1..r.nextIn - 1] == [m];
    RepliesOne(l.a.cfg, m);
    SayingPays(l.a, r, l.b.store, l.b, ks);
  }

  lemma APlainEases(view: Wire -> View, printed: Msg -> Wire, hb: nat, l: Link, st: Stage, x0: State, y0: State)
    requires Healing(view, hb, l, st, x0, y0) && l.ba != [] && Prints(view, printed)
    requires st.Asked? ==> l.a.nextIn != st.r
    ensures Eases(l, st, Flip(Reading(view, printed, Flip(l))), st)
  {
    var m := l.ba[0];
    assert m == l.b.store[l.a.nextIn - 1] && Plain(hb, m.kind);
    var r, ks := ReadInOrder(view, printed, l.b.store, l.a, l.ba);
    ReadingIs(view, printed, Flip(l), r, ks);
    StageByPhase(view, hb, l, st, x0, y0);
    PlainReadEases(l, st, r, m, ks, Flip(Reading(view, printed, Flip(l))));
  }

  /** A read by the other end. */
  lemma AGetsOn(view: Wire -> View, printed: Msg -> Wire, hb: nat, l: Link, st: Stage, x0: State, y0: State)
    returns (st': Stage)
    requires Healing(view, hb, l, st, x0, y0) && l.ba != [] && Prints(view, printed)
    ensures Healing(view, hb, Flip(Reading(view, printed, Flip(l))), st', x0, y0)
    ensures Eases(l, st, Flip(Reading(view, printed, Flip(l))), st')
  {
    st' := AReads(view, printed, hb, l, st, x0, y0);
    if st.Asked? && l.a.nextIn == st.r {
      RequestEases(view, printed, hb, l, st, x0, y0, st');
    } else {
      APlainEases(view, printed, hb, l, st, x0, y0);
    }
  }

  // ---- all is read in the end ----

  /** What is stored, and what the ends will still say, fits the windows. */
  predicate Spacious(l: Link, st: Stage) {
    && InBounds(l)
    && (l.b.phase != Active ==> |l.a.store| + Debt(l, st) < Edge(l.b) + WINDOW)
    && (l.a.phase != Active ==> |l.b.store| + Debt(l, st) < Edge(l.a) + WINDOW)
  }

  lemma SpaceIsKept(l: Link, st: Stage, r: Link, st': Stage)
    requires Spacious(l, st) && Eases(l, st, r, st')
    ensures Spacious(r, st') && Roomy(r.a, r.b) && Roomy(r.b, r.a)
  {
  }

  /** A schedule of reads only. */
  predicate OnlyReads(ms: seq<Move>) {
    forall i | 0 <= i < |ms| :: ms[i].ReadA? || ms[i].ReadB?
  }

  /** One read of a schedule. */
  lemma SettleStep(view: Wire -> View, printed: Msg -> Wire, hb: nat, l: Link, st: Stage, x0: State, y0: State,
                   aFirst: Link -> bool)
    returns (m: Move, r: Link, st': Stage)
    requires OkLink(view, l) && Healing(view, hb, l, st, x0, y0) && GoesOn(x0, y0, l) && !MissesRequest(x0, y0)
    requires Prints(view, printed) && Roomy(l.a, l.b) && (l.ab != [] || l.ba != [])
    ensures m == if l.ab == [] || (l.ba != [] && aFirst(l)) then ReadA else ReadB
    ensures r == Moved(view, printed, l, m) && OkLink(view, r) && GoesOn(x0, y0, r)
    ensures Healing(view, hb, r, st', x0, y0) && Eases(l, st, r, st')
  {
    m := if l.ab == [] || (l.ba != [] && aFirst(l)) then ReadA else ReadB;
    r := Moved(view, printed, l, m);
    MoveGoesOn(view, printed, x0, y0, l, m);
    if m.ReadA? {
      st' := AGetsOn(view, printed, hb, l, st, x0, y0);
    } else {
      st' := BGetsOn(view, printed, hb, l, st, x0, y0);
    }
  }

  /** The reads `ms` leave nothing unread on a healing connection. */
  ghost predicate ReadsAll(view: Wire -> View, printed: Msg -> Wire, hb: nat, l: Link, x0: State, y0: State,
                           ms: seq<Move>, st: Stage)
    requires OkLink(view, l)
  {
    var r := RunLink(view, printed, l, ms);
    && OnlyReads(ms) && RunAllowed(view, printed, l, ms, true)
    && Healing(view, hb, r, st, x0, y0) && r.ab == [] && r.ba == []
  }

  lemma ReadsAllCons(view: Wire -> View, printed: Msg -> Wire, hb: nat, l: Link, x0: State, y0: State,
                     m: Move, rest: seq<Move>, st: Stage)
    requires OkLink(view, l) && Roomy(l.a, l.b) && Roomy(l.b, l.a) && (m.ReadA? || m.ReadB?)
    requires ReadsAll(view, printed, hb, Moved(view, printed, l, m), x0, y0, rest, st)
    ensures ReadsAll(view, printed, hb, l, x0, y0, [m] + rest, st)
  {
    var ms := [m] + rest;
    assert ms[0] == m && ms[1..] == rest;
  }

  /** Whichever end reads first when both could: after finitely many reads everything is read. */
  lemma Settles(view: Wire -> View, printed: Msg -> Wire, hb: nat, l: Link, st: Stage, x0: State, y0: State,
                aFirst: Link -> bool)
    returns (ms: seq<Move>, st': Stage)
    requires OkLink(view, l) && Healing(view, hb, l, st, x0, y0) && GoesOn(x0, y0, l) && !MissesRequest(x0, y0)
    requires Prints(view, printed) && Spacious(l, st) && Roomy(l.a, l.b) && Roomy(l.b, l.a)
    ensures ReadsAll(view, printed, hb, l, x0, y0, ms, st')
    decreases Rank(st), Work(l, st)
  {
    if l.ab == [] && l.ba == [] {
      ms, st' := [], st;
    } else {
      var m, r, s := SettleStep(view, printed, hb, l, st, x0, y0, aFirst);
      SpaceIsKept(l, st, r, s);
      var rest, t := Settles(view, printed, hb, r, s, x0, y0, aFirst);
      ms, st' := [m] + rest, t;
      ReadsAllCons(view, printed, hb, l, x0, y0, m, rest, t);
    }
  }

  // ---- from the reconnect on ----

  /** At the reconnect there is room in both windows for what is stored, a request, and the replies owed. */
  ghost predicate RoomToHeal(view: Wire -> View, a: State, b: State)
    requires Meet(view, a, b)
  {
    var l := Connected(a, b);
    && InBounds(l) && Spacious(l, Missing(0)) && Roomy(l.a, l.b) && Roomy(l.b, l.a)
  }

  /** A connection that can heal does. Whichever end reads first when both could, after finitely many reads
      both ends are active and up to date, and neither has asked for logout. */
  lemma Heals(view: Wire -> View, printed: Msg -> Wire, a: State, b: State, aFirst: Link -> bool)
    returns (ms: seq<Move>)
    requires Meet(view, a, b) && Prints(view, printed) && CanHeal(a, b) && RoomToHeal(view, a, b)
    ensures OnlyReads(ms)
    ensures
      var r := RunLink(view, printed, Connected(a, b), ms);
      r.ab == [] && r.ba == [] && UpToDate(a, b, r)
  {
    if a.nextIn == b.nextOut {
      var l, st := ConnectedHeals(view, a, b);
      var rs, t := Settles(view, printed, a.heartBeatInt, l, st, a, b, aFirst);
      ms := rs;
      HealedIsUpToDate(view, a.heartBeatInt, RunLink(view, printed, l, ms), t, a, b);
    } else {
      ms := HealsFlipped(view, printed, a, b, aFirst);
    }
  }

  lemma {:induction false} FlipTwice(ms: seq<Move>)
    ensures FlipMoves(FlipMoves(ms)) == ms
    ensures OnlyReads(ms) ==> OnlyReads(FlipMoves(ms))
    decreases |ms|
  {
    if ms != [] {
      FlipTwice(ms[1..]);
      assert FlipMoves(ms)[1..] == FlipMoves(ms[1..]);
    }
  }

  lemma HealsFlipped(view: Wire -> View, printed: Msg -> Wire, a: State, b: State, aFirst: Link -> bool)
    returns (ms: seq<Move>)
    requires Meet(view, a, b) && Prints(view, printed) && a.nextIn < b.nextOut && b.nextIn == a.nextOut
    requires RoomToHeal(view, a, b)
    ensures OnlyReads(ms)
    ensures
      var r := RunLink(view, printed, Connected(a, b), ms);
      r.ab == [] && r.ba == [] && UpToDate(a, b, r)
  {
    var l, st := ConnectedHealsFlipped(view, a, b);
    var f := Flip(l);
    var rs, t := Settles(view, printed, a.heartBeatInt, f, st, b, a, k => !aFirst(Flip(k)));
    FlipTwice(rs);
    RunFlipped(view, printed, f, rs);
    ms := FlipMoves(rs);
    HealedIsUpToDate(view, a.heartBeatInt, RunLink(view, printed, f, rs), t, b, a);
  }
}
