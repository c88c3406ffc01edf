/** The stream framer in place: fed chunk by chunk, over a buffer that is discarded from, compacted
    and enlarged under it, and a bounded queue of finished messages. */
module Framers {
  import opened Bytes
  import opened Decimals
  import opened Framing
  import opened LinearBuffers
  import opened Rings

  datatype ContextState = FindingBegin | ReadingBody

  datatype Context = Context(begin: nat, end: nat, state: ContextState)

  const NO_CONTEXT := Context(0, 0, FindingBegin)

  datatype ParseResult = QueuedMessage | ProgressNoMsg | NeedMore

  const QUEUE_SIZE: nat := 1024

  // ---- searching the readable part instead of the whole stream ----

  lemma OccursShifted(s: Wire, h: nat, pat: Wire, i: nat)
    requires h <= |s|
    ensures OccursAt(s[h..], pat, i) <==> OccursAt(s, pat, h + i)
  {
    if i + |pat| <= |s| - h {
      assert s[h..][i..i + |pat|] == s[h + i..h + i + |pat|];
    }
  }

  lemma {:induction false} FindShifted(s: Wire, h: nat, pat: Wire, from: nat)
    requires h <= |s|
    ensures Find(s[h..], pat, from).Some? <==> Find(s, pat, h + from).Some?
    ensures Find(s[h..], pat, from).Some? ==> Find(s, pat, h + from).value == h + Find(s[h..], pat, from).value
    decreases |s| - h - from
  {
    OccursShifted(s, h, pat, from);
    if from + |pat| <= |s| - h {
      FindShifted(s, h, pat, from + 1);
    }
  }

  lemma {:induction false} FindByteShifted(s: Wire, h: nat, b: byte, from: nat)
    requires h <= |s|
    ensures FindByte(s[h..], b, from).Some? <==> FindByte(s, b, h + from).Some?
    ensures FindByte(s[h..], b, from).Some? ==>
      FindByte(s, b, h + from).value == h + FindByte(s[h..], b, from).value
    decreases |s| - h - from
  {
    if from < |s| - h {
      FindByteShifted(s, h, b, from + 1);
    }
  }

  function Shift(head: Head, h: nat): Head {
    match head
    case Ends(e) => Ends(h + e)
    case _ => head
  }

  lemma HeadShifted(s: Wire, h: nat, b: nat)
    requires h <= |s|
    ensures HeadAt(s, h + b) == Shift(HeadAt(s[h..], b), h)
  {
    HeadInSuffix(s, h, s[h..], b);
  }

  lemma HeadInSuffix(s: Wire, h: nat, v: Wire, b: nat)
    requires h <= |s| && v == s[h..]
    ensures HeadAt(s, h + b) == Shift(HeadAt(v, b), h)
  {
    var i := b + |BEGIN|;
    if i + 2 > |v| {
      assert HeadAt(v, b) == Partial && HeadAt(s, h + b) == Partial;
    } else {
      assert s[h + i] == v[i] && s[h + i + 1] == v[i + 1];
      if v[i] != 57 || v[i + 1] != EQUALS {
        assert HeadAt(v, b) == Malformed && HeadAt(s, h + b) == Malformed;
      } else {
        LengthInSuffix(s, h, v, b, i);
      }
    }
  }

  lemma LengthInSuffix(s: Wire, h: nat, v: Wire, b: nat, i: nat)
    requires h <= |s| && v == s[h..] && i == b + |BEGIN| && i + 2 <= |v|
    requires v[i] == 57 && v[i + 1] == EQUALS && s[h + i] == 57 && s[h + i + 1] == EQUALS
    ensures HeadAt(s, h + b) == Shift(HeadAt(v, b), h)
  {
    var at, q := h + i + 2, FindByte(v, SOH, i + 2);
    FoundInSuffix(s, h, v, i + 2, at);
    if q.Some? {
      SliceShifted(s, h, i + 2, q.value);
      NumberInSuffix(s, h, v, b, i + 2, q.value, v[i + 2..q.value]);
    } else {
      HeadIsPartial(v, b, i + 2);
      HeadIsPartial(s, h + b, at);
    }
  }

  lemma NumberInSuffix(s: Wire, h: nat, v: Wire, b: nat, at: nat, q: nat, num: Wire)
    requires at == b + |BEGIN| + 2 <= |v| && h + at <= |s|
    requires v[at - 2] == 57 && v[at - 1] == EQUALS && s[h + at - 2] == 57 && s[h + at - 1] == EQUALS
    requires FindByte(v, SOH, at) == Some(q) && num == v[at..q]
    requires FindByte(s, SOH, h + at) == Some(h + q) && num == s[h + at..h + q]
    ensures HeadAt(s, h + b) == Shift(HeadAt(v, b), h)
  {
    HeadIsNumbered(v, b, at, q, num);
    HeadIsNumbered(s, h + b, h + at, h + q, num);
  }

  lemma FoundInSuffix(s: Wire, h: nat, v: Wire, from: nat, at: nat)
    requires h <= |s| && v == s[h..] && at == h + from
    ensures FindByte(s, SOH, at)
            == if FindByte(v, SOH, from).Some? then Some(h + FindByte(v, SOH, from).value) else None
  {
    FindByteShifted(s, h, SOH, from);
  }

  /** What a header with "9=" says, by the SOH behind it. */
  lemma HeadIsNumbered(s: Wire, b: nat, at: nat, q: nat, num: Wire)
    requires at == b + |BEGIN| + 2 <= |s| && s[at - 2] == 57 && s[at - 1] == EQUALS
    requires FindByte(s, SOH, at) == Some(q) && num == s[at..q]
    ensures HeadAt(s, b) == Numbered(ParseDec(num), q)
  {
  }

  lemma HeadIsPartial(s: Wire, b: nat, at: nat)
    requires at == b + |BEGIN| + 2 <= |s| && s[at - 2] == 57 && s[at - 1] == EQUALS
    requires FindByte(s, SOH, at) == None
    ensures HeadAt(s, b) == Partial
  {
  }

  /** Where a message ends whose length reads as `n` up to the SOH at `q`. */
  function Numbered(n: Option<nat>, q: nat): Head {
    if n.None? || n.value > MAX_MESSAGE_SIZE then Malformed else Ends(q + 1 + n.value + TRAILER_SIZE)
  }

  lemma SliceShifted(s: Wire, h: nat, lo: nat, hi: nat)
    requires lo <= hi && h + hi <= |s|
    ensures s[h..][lo..hi] == s[h + lo..h + hi]
  {
  }

  /** The first BEGIN, and what is behind it. */
  datatype Seen = Nothing | Begin(at: nat, head: Head)

  function Look(s: Wire, p: nat): Seen {
    match Find(s, BEGIN, p)
    case None => Nothing
    case Some(b) => Begin(b, HeadAt(s, b))
  }

  function ShiftSeen(seen: Seen, h: nat): Seen {
    match seen
    case Nothing => Nothing
    case Begin(b, head) => Begin(h + b, Shift(head, h))
  }

  /** Looking at the readable part is looking at the stream. */
  lemma LookShifted(s: Wire, h: nat, p: nat)
    requires h <= p <= |s|
    ensures Look(s, p) == ShiftSeen(Look(s[h..], p - h), h)
  {
    FindShifted(s, h, BEGIN, p - h);
    var found := Find(s[h..], BEGIN, p - h);
    if found.Some? {
      HeadShifted(s, h, found.value);
    }
  }

  /** A framer that has seen `s`, discarded `h` bytes of it, framed `consumed` and `queued`, and will
      go on at `p`. */
  datatype FramerState = FramerState(
    s: Wire, h: nat, consumed: seq<Window>, queued: seq<Window>, p: nat, c: Context)

  // ---- one step of the scan, on values ----

  function Completed(f: FramerState): FramerState {
    f.(queued := f.queued + [Window(f.c.begin, f.c.end)], p := f.c.end, c := NO_CONTEXT)
  }

  /** BEGIN is at `b`, and what follows it is `head`. */
  function AtHeader(f: FramerState, b: nat, head: Head): (FramerState, ParseResult) {
    match head
    case Partial => (f.(p := b, c := f.c.(begin := b)), NeedMore)
    case Malformed => (f.(p := b + 1, c := NO_CONTEXT), ProgressNoMsg)
    case Ends(e) =>
      var f1 := f.(p := b, c := Context(b, e, ReadingBody));
      if e > |f.s| then (f1, NeedMore) else (Completed(f1), QueuedMessage)
  }

  function DiscardPoint(f: FramerState): nat {
    Max(f.h, |f.s| + 1 - |BEGIN|)
  }

  function AfterLook(f: FramerState, seen: Seen): (FramerState, ParseResult) {
    match seen
    case Nothing =>
      if f.queued == [] then (f.(h := DiscardPoint(f), p := DiscardPoint(f)), NeedMore) else (f, NeedMore)
    case Begin(b, head) => AtHeader(f, b, head)
  }

  function Step(f: FramerState): (FramerState, ParseResult) {
    if f.p >= |f.s| then (f, NeedMore)
    else if f.c.state == FindingBegin then AfterLook(f, Look(f.s, f.p))
    else if f.c.end > |f.s| then (f, NeedMore)
    else (Completed(f), QueuedMessage)
  }

  /** Geometry: windows in order, the queued ones readable, all of them before the scan point; and the
      scan in step with the stream. */
  ghost predicate InStep(f: FramerState) {
    var done := f.consumed + f.queued;
    && f.h <= f.p <= |f.s|
    && Sync(f.s, done, f.p)
    && InOrder(done, 0) && LastEnd(done) <= f.p
    && LastEnd(f.consumed) <= f.h && (f.queued != [] ==> f.h <= f.queued[0].begin)
    && f.h <= Max(LastEnd(done), |f.s| + 1 - |BEGIN|)
    && f.p <= Max(LastEnd(done), |f.s| + 1 - |BEGIN|)
    && (f.c.state == ReadingBody ==>
          f.c.begin == f.p && OccursAt(f.s, BEGIN, f.p) && HeadAt(f.s, f.p) == Ends(f.c.end))
  }

  lemma PushInStep(f: FramerState, more: Wire)
    requires InStep(f)
    ensures InStep(f.(s := f.s + more))
  {
    SyncPushed(f.s, more, f.consumed + f.queued, f.p);
    if f.c.state == ReadingBody {
      OccursAtExtended(f.s, more, BEGIN, f.p);
      HeadExtended(f.s, more, f.p);
    }
  }

  lemma FindHere(s: Wire, p: nat)
    requires OccursAt(s, BEGIN, p)
    ensures Find(s, BEGIN, p) == Some(p)
  {
  }

  lemma FoundInStep(f: FramerState)
    requires InStep(f) && f.c.state == FindingBegin && Find(f.s, BEGIN, f.p).Some?
    ensures
      var b := Find(f.s, BEGIN, f.p).value;
      f.p <= b && OccursAt(f.s, BEGIN, b) && InStep(f.(p := b, c := f.c.(begin := b)))
  {
    SyncFound(f.s, f.consumed + f.queued, f.p);
  }

  lemma ResyncInStep(f: FramerState)
    requires InStep(f) && OccursAt(f.s, BEGIN, f.p) && HeadAt(f.s, f.p) == Malformed
    ensures InStep(f.(p := f.p + 1, c := NO_CONTEXT))
  {
    FindHere(f.s, f.p);
    SyncResync(f.s, f.consumed + f.queued, f.p);
  }

  lemma MessageInStep(f: FramerState)
    requires InStep(f) && f.c.state == ReadingBody && f.c.end <= |f.s|
    ensures f.p < f.c.end && InStep(Completed(f))
  {
    FindHere(f.s, f.p);
    var done, w := f.consumed + f.queued, Window(f.p, f.c.end);
    SyncMessage(f.s, done, f.p);
    assert f.consumed + (f.queued + [w]) == done + [w];
    InOrderAppended(done, w);
  }

  /** With nothing queued and no BEGIN in sight, all but a possible start of BEGIN may go. */
  lemma DiscardInStep(f: FramerState)
    requires InStep(f) && f.queued == [] && f.c.state == FindingBegin && Find(f.s, BEGIN, f.p).None?
    ensures InStep(f.(h := DiscardPoint(f), p := DiscardPoint(f)))
  {
    var d := DiscardPoint(f);
    assert f.consumed + f.queued == f.consumed;
    assert f.p <= d <= |f.s|;
    if d + |BEGIN| <= |f.s| + 1 {
      SyncSkip(f.s, f.consumed, f.p, d);
    } else {
      assert d == f.p;
    }
    assert Sync(f.s, f.consumed, d);
  }

  /** Where no message begins in sight and none is queued, a step drops all but nine bytes: that much of a BEGIN
      may be there. */
  lemma GarbageIsDropped(f: FramerState)
    requires InStep(f) && f.queued == [] && f.c.state == FindingBegin && f.p < |f.s|
    requires forall i: nat | f.p <= i :: !OccursAt(f.s, BEGIN, i)
    ensures
      var (g, r) := Step(f);
      r == NeedMore && f.h <= g.h <= |g.s| <= g.h + 9 && g == f.(h := g.h, p := g.p)
  {
    DiscardInStep(f);
  }

  function Consumed(f: FramerState): FramerState
    requires f.queued != []
  {
    f.(h := f.queued[0].end, consumed := f.consumed + [f.queued[0]], queued := f.queued[1..])
  }

  lemma ConsumeInStep(f: FramerState) returns (g: FramerState)
    requires InStep(f) && f.queued != []
    ensures g == Consumed(f) && InStep(g) && g.consumed + g.queued == f.consumed + f.queued
    ensures f.h <= f.queued[0].begin < f.queued[0].end <= |f.s|
  {
    g := Consumed(f);
    var done, i := f.consumed + f.queued, |f.consumed|;
    assert done == (f.consumed + [f.queued[0]]) + f.queued[1..];
    assert done[i] == f.queued[0] && Placed(done, 0, i);
    if |f.queued| > 1 {
      assert done[i + 1] == f.queued[1..][0] && Before(done, i, i + 1);
      assert Before(done, i, |done| - 1) && Placed(done, 0, |done| - 1);
    }
  }

  lemma CompleteInStep(f: FramerState)
    requires InStep(f)
    ensures f.consumed + f.queued <= Frames(f.s, 0)
    ensures ScanAt(f.s, f.p) == NeedMoreData ==> f.consumed + f.queued == Frames(f.s, 0)
  {
    SyncComplete(f.s, f.consumed + f.queued, f.p);
  }

  /** A step keeps the framer in step with its stream. If it asks for more data, everything there is to
      frame was framed; otherwise it raises the scan point, inside the stream. */
  lemma StepInStep(f: FramerState)
    requires InStep(f)
    ensures
      var (g, r) := Step(f);
      && InStep(g) && g.s == f.s && g.consumed == f.consumed
      && (if r == NeedMore then g.queued == f.queued && g.consumed + g.queued == Frames(g.s, 0)
          else f.p < g.p)
  {
    CompleteInStep(f);
    if f.p < |f.s| {
      if f.c.state == ReadingBody {
        FindHere(f.s, f.p);
        if f.c.end <= |f.s| { MessageInStep(f); }
      } else if Find(f.s, BEGIN, f.p).None? {
        if f.queued == [] { DiscardInStep(f); }
      } else {
        var g, r := HeaderInStep(f);
      }
    }
  }

  lemma PartialInStep(f: FramerState)
    requires InStep(f) && OccursAt(f.s, BEGIN, f.p) && HeadAt(f.s, f.p) == Partial
    ensures f.consumed + f.queued == Frames(f.s, 0)
  {
    FindHere(f.s, f.p);
    CompleteInStep(f);
  }

  lemma EndsInStep(f: FramerState, e: nat)
    requires InStep(f) && OccursAt(f.s, BEGIN, f.p) && HeadAt(f.s, f.p) == Ends(e)
    ensures InStep(f.(c := Context(f.p, e, ReadingBody)))
    ensures e > |f.s| ==> f.consumed + f.queued == Frames(f.s, 0)
  {
    FindHere(f.s, f.p);
    CompleteInStep(f);
  }

  /** The branches behind a BEGIN, with the scan point already there. */
  lemma BranchInStep(f: FramerState, head: Head) returns (g: FramerState, r: ParseResult)
    requires InStep(f) && f.c == Context(f.p, f.c.end, FindingBegin)
    requires OccursAt(f.s, BEGIN, f.p) && HeadAt(f.s, f.p) == head
    ensures (g, r) == AtHeader(f, f.p, head) && InStep(g)
    ensures if r == NeedMore then g.consumed + g.queued == Frames(g.s, 0) else f.p < g.p
  {
    match head
    case Partial =>
      g, r := f, NeedMore;
      PartialInStep(f);
    case Malformed =>
      g, r := f.(p := f.p + 1, c := NO_CONTEXT), ProgressNoMsg;
      ResyncInStep(f);
    case Ends(e) =>
      g, r := f.(c := Context(f.p, e, ReadingBody)), NeedMore;
      EndsInStep(f, e);
      if e <= |f.s| {
        MessageInStep(g);
        g, r := Completed(g), QueuedMessage;
      }
  }

  lemma HeaderInStep(f: FramerState) returns (g: FramerState, r: ParseResult)
    requires InStep(f) && f.c.state == FindingBegin && Find(f.s, BEGIN, f.p).Some?
    ensures var b := Find(f.s, BEGIN, f.p).value; (g, r) == AtHeader(f, b, HeadAt(f.s, b))
    ensures InStep(g)
    ensures if r == NeedMore then g.consumed + g.queued == Frames(g.s, 0) else f.p < g.p
  {
    var b := Find(f.s, BEGIN, f.p).value;
    FoundInStep(f);
    g, r := BranchInStep(f.(p := b, c := f.c.(begin := b)), HeadAt(f.s, b));
  }

  class Framer {
    const buffer: LinearBuffer<byte>
    const completed: Ring<Window>
    var context: Context
    var scanAbs: nat
    /** The messages handed out and dropped so far. */
    ghost var consumed: seq<Window>

    ghost function State(): FramerState
      reads this, buffer, completed
    {
      FramerState(buffer.stream, buffer.HeadAbs(), consumed, completed.contents, scanAbs, context)
    }

    /** Everything framed so far. */
    ghost function Done(): seq<Window>
      reads this, completed
    {
      consumed + completed.contents
    }

    ghost predicate Parts()
      reads this, buffer, buffer.data, completed, completed.buffer
    {
      && buffer.Valid() && completed.Valid()
      && completed.policy == Reject && completed.buffer.Length == QUEUE_SIZE
    }

    ghost predicate Valid()
      reads this, buffer, buffer.data, completed, completed.buffer
    {
      Parts() && InStep(State())
    }

    constructor ()
      ensures Valid() && buffer.stream == [] && Done() == []
      ensures fresh(buffer) && fresh(buffer.data) && fresh(completed) && fresh(completed.buffer)
    {
      buffer := new LinearBuffer<byte>();
      completed := new Ring<Window>(QUEUE_SIZE, Reject, 0);
      context, scanAbs, consumed := NO_CONTEXT, 0, [];
      new;
      SyncAtStart();
    }

    predicate HasMessage()
      reads this, completed, completed.buffer
      requires completed.Valid()
      ensures HasMessage() <==> completed.contents != []
    {
      completed.size > 0
    }

    /** The bytes of the oldest finished message. */
    method GetMessage() returns (w: Wire)
      requires Valid() && completed.contents != []
      ensures completed.contents[0].begin <= completed.contents[0].end <= |buffer.stream|
      ensures w == buffer.stream[completed.contents[0].begin..completed.contents[0].end]
    {
      ghost var g := ConsumeInStep(State());
      var earliest := completed.Front();
      var relBegin := buffer.AbsToReadableRel(earliest.begin);
      var relEnd := buffer.AbsToReadableRel(earliest.end);
      var readable := buffer.Readable();
      w := readable[relBegin..relEnd];
    }

    /** Drops the oldest finished message, and every byte up to its end. */
    method ConsumeMessage()
      requires Valid() && completed.contents != []
      modifies this`consumed, buffer, buffer.data, completed
      ensures Valid() && State() == Consumed(old(State())) && Done() == old(Done())
      ensures buffer.data == old(buffer.data) && completed.buffer == old(completed.buffer)
    {
      ghost var f := State();
      ghost var g := ConsumeInStep(f);
      var earliest := completed.Front();
      buffer.DiscardPrefix(buffer.AbsToReadableRel(earliest.end));
      completed.PopFront();
      consumed := consumed + [earliest];
      assert State() == g;
    }

    /** One step of the scan. */
    method ParseBuffer() returns (r: ParseResult)
      requires Parts() && |completed.contents| < QUEUE_SIZE
      requires buffer.HeadAbs() <= scanAbs <= |buffer.stream|
      modifies this`context, this`scanAbs, buffer, buffer.data, completed, completed.buffer
      ensures Parts() && (State(), r) == Step(old(State()))
      ensures buffer.data == old(buffer.data) && completed.buffer == old(completed.buffer)
    {
      var readable := buffer.Readable();
      var readableBegin := buffer.ReadableRelToAbs(0);
      scanAbs := Max(scanAbs, readableBegin);
      var start := buffer.AbsToReadableRel(scanAbs);
      if start >= |readable| {
        return NeedMore;
      }
      if context.state == FindingBegin {
        var seen := LookAhead(readable, start);
        r := After(|readable|, seen);
      } else if context.end > buffer.ReadableRelToAbs(|readable|) {
        r := NeedMore;
      } else {
        CompleteMessage();
        r := QueuedMessage;
      }
    }

    /** Finds the first BEGIN from `start` on in the readable part, and reads the header behind it. */
    method LookAhead(readable: Wire, start: nat) returns (seen: Seen)
      requires Parts() && readable == buffer.stream[buffer.HeadAbs()..]
      requires buffer.HeadAbs() + start == scanAbs <= |buffer.stream|
      ensures ShiftSeen(seen, buffer.HeadAbs()) == Look(buffer.stream, scanAbs)
    {
      LookShifted(buffer.stream, buffer.HeadAbs(), scanAbs);
      var found := Find(readable, BEGIN, start);
      if found.None? {
        return Nothing;
      }
      var head := ReadHead(readable, found.value);
      seen := Begin(found.value, head);
    }

    method After(size: nat, seen: Seen) returns (r: ParseResult)
      requires Parts() && |completed.contents| < QUEUE_SIZE && size == buffer.ReadableSize()
      modifies this`context, this`scanAbs, buffer, buffer.data, completed, completed.buffer
      ensures Parts() && buffer.data == old(buffer.data) && completed.buffer == old(completed.buffer)
      ensures (State(), r) == AfterLook(old(State()), ShiftSeen(seen, old(buffer.HeadAbs())))
    {
      match seen
      case Nothing =>
        if completed.size == 0 {
          DiscardGarbage(size);
        }
        r := NeedMore;
      case Begin(beginPos, head) =>
        r := AtBegin(size, beginPos, head);
    }

    /** Keeps only what could be the start of BEGIN. */
    method DiscardGarbage(size: nat)
      requires Parts() && size == buffer.ReadableSize()
      modifies this`scanAbs, buffer, buffer.data
      ensures Parts() && buffer.data == old(buffer.data)
      ensures State() == var f := old(State()); f.(h := DiscardPoint(f), p := DiscardPoint(f))
    {
      var k := |BEGIN|;
      var keep := if size < k - 1 then size else k - 1;
      var drop := size - keep;
      buffer.DiscardPrefix(drop);
      scanAbs := buffer.ReadableRelToAbs(0);
    }

    /** BEGIN was found at `beginPos` of the readable part, with `head` behind it. */
    method AtBegin(size: nat, beginPos: nat, head: Head) returns (r: ParseResult)
      requires Parts() && |completed.contents| < QUEUE_SIZE && size == buffer.ReadableSize()
      modifies this`context, this`scanAbs, completed, completed.buffer
      ensures Parts() && completed.buffer == old(completed.buffer)
      ensures (State(), r)
              == AtHeader(old(State()), buffer.HeadAbs() + beginPos, Shift(head, buffer.HeadAbs()))
    {
      context := context.(begin := buffer.ReadableRelToAbs(beginPos));
      scanAbs := context.begin;
      match head
      case Partial => r := NeedMore;
      case Malformed =>
        scanAbs := context.begin + 1;
        context := NO_CONTEXT;
        r := ProgressNoMsg;
      case Ends(end) =>
        context := context.(end := buffer.ReadableRelToAbs(end), state := ReadingBody);
        if end > size {
          r := NeedMore;
        } else {
          CompleteMessage();
          r := QueuedMessage;
        }
    }

    /** Reads the body length field behind the BEGIN at `beginPos`. */
    static method ReadHead(readable: Wire, beginPos: nat) returns (head: Head)
      ensures head == HeadAt(readable, beginPos)
    {
      var bodyStart := beginPos + |BEGIN|;
      if bodyStart + 2 > |readable| {
        return Partial;
      }
      if readable[bodyStart] != 57 || readable[bodyStart + 1] != EQUALS {
        return Malformed;
      }
      bodyStart := bodyStart + 2;
      var bodyEnd := FindByte(readable, SOH, bodyStart);
      if bodyEnd.None? {
        return Partial;
      }
      var bodyLen := ParseDec(readable[bodyStart..bodyEnd.value]);
      if bodyLen.None? {
        return Malformed;
      }
      if bodyLen.value > MAX_MESSAGE_SIZE {
        return Malformed;
      }
      head := Ends(bodyEnd.value + 1 + bodyLen.value + TRAILER_SIZE);
    }

    method CompleteMessage()
      requires Parts() && |completed.contents| < QUEUE_SIZE
      modifies this`context, this`scanAbs, completed, completed.buffer
      ensures Parts() && completed.buffer == old(completed.buffer)
      ensures State() == Completed(old(State()))
    {
      scanAbs := context.end;
      var pushed := completed.Push(Window(context.begin, context.end));
      context := NO_CONTEXT;
    }

    /** Takes in one more chunk. Chunk by chunk, with messages consumed whenever, what was framed is a
        prefix of what framing the whole stream at once gives; and all of it unless the queue filled
        up. The loop ends because every step that does not ask for more data raises the scan point. */
    method Append(chunk: Wire)
      requires Valid()
      modifies this`context, this`scanAbs, buffer, buffer.data, completed, completed.buffer
      ensures Valid() && buffer.stream == old(buffer.stream) + chunk && consumed == old(consumed)
      ensures Done() <= Frames(buffer.stream, 0)
      ensures |completed.contents| < QUEUE_SIZE ==> Done() == Frames(buffer.stream, 0)
      ensures buffer.data == old(buffer.data) || fresh(buffer.data)
      ensures completed.buffer == old(completed.buffer)
    {
      PushInStep(State(), chunk);
      buffer.Push(chunk);
      assert State() == old(State()).(s := old(buffer.stream) + chunk);
      ParseAll();
      CompleteInStep(State());
    }

    method ParseAll()
      requires Valid()
      modifies this`context, this`scanAbs, buffer, buffer.data, completed, completed.buffer
      ensures Valid() && buffer.stream == old(buffer.stream) && consumed == old(consumed)
      ensures |completed.contents| < QUEUE_SIZE ==> Done() == Frames(buffer.stream, 0)
      ensures buffer.data == old(buffer.data) && completed.buffer == old(completed.buffer)
    {
      var more := true;
      while !completed.Full() && more
        invariant Parts() && InStep(State())
        invariant buffer.stream == old(buffer.stream) && consumed == old(consumed)
        invariant buffer.data == old(buffer.data) && completed.buffer == old(completed.buffer)
        invariant !more ==> Done() == Frames(buffer.stream, 0)
        decreases more, |buffer.stream| - scanAbs
      {
        StepInStep(State());
        var r := ParseBuffer();
        more := r != NeedMore;
      }
    }

    method Reset()
      requires Parts()
      modifies this, buffer, completed
      ensures Valid() && State() == FramerState([], 0, [], [], 0, NO_CONTEXT)
      ensures buffer.data == old(buffer.data) && completed.buffer == old(completed.buffer)
    {
      buffer.Reset();
      completed.Clear();
      context, scanAbs, consumed := NO_CONTEXT, 0, [];
      SyncAtStart();
    }
  }
}
