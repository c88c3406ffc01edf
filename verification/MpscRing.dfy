/** The log queue: many producers, one consumer, a ticket counter and an epoch in every cell. A run is
    any interleaving of single loads and stores; memory is taken to be sequentially consistent. */
module MpscRings {

  import opened Bits

  // ---- cells ----

  /** The cell of a ticket. */
  function Slot(t: nat, k: nat): (r: nat)
    ensures r < Pow2(k)
  {
    MaskIsRemainder(t, k);
    And(t, Pow2(k) - 1)
  }

  lemma SlotWraps(t: nat, k: nat)
    ensures Slot(t + Pow2(k), k) == Slot(t, k)
  {
    MaskIsRemainder(t, k);
    MaskIsRemainder(t + Pow2(k), k);
    OneRound(t, Pow2(k));
  }

  lemma OneRound(t: nat, c: nat)
    requires c >= 1
    ensures (t + c) % c == t % c
  {
    TimesDifference(c, t / c, -1);
    RemainderIs(t + c, c, t / c + 1, t % c);
  }

  lemma FirstRound(t: nat, k: nat)
    requires t < Pow2(k)
    ensures Slot(t, k) == t
  {
    MaskIsRemainder(t, k);
    RemainderIs(t, Pow2(k), 0, t);
  }

  /** Tickets less than one round apart have different cells. */
  lemma SlotsApart(t: nat, u: nat, k: nat)
    requires t < u < t + Pow2(k)
    ensures Slot(t, k) != Slot(u, k)
  {
    MaskIsRemainder(t, k);
    MaskIsRemainder(u, k);
    RemaindersApart(t, u, Pow2(k));
  }

  lemma RemaindersApart(t: nat, u: nat, c: nat)
    requires t < u < t + c
    ensures t % c != u % c
  {
    TimesDifference(c, u / c, t / c);
    Times(c, u / c - t / c);
  }

  // ---- the machine ----

  datatype Cell<T> = Cell(epoch: nat, data: T)

  /** Where a producer is in `push`. */
  datatype Pushing<T> =
    | Idle
    | Spinning(ticket: nat, value: T)
    | Owning(ticket: nat, value: T)
    | Written(ticket: nat, value: T)

  /** Where the consumer is in `pop`. */
  datatype Popping<T> = Ready | Seen | Taken(value: T) | Released(value: T)

  /** `issued` and `popped` record the values that went in, by ticket, and the values that came out. */
  datatype State<T> = State(
    k: nat, cells: seq<Cell<T>>, head: nat, tail: nat,
    producers: seq<Pushing<T>>, consumer: Popping<T>,
    issued: seq<T>, popped: seq<T>)

  /** One atomic access each. `Take` leaves a moved-from value behind. */
  datatype Action<T> =
    | FetchAdd(i: nat, value: T)
    | LoadEpoch(i: nat)
    | WriteData(i: nat)
    | StoreEpoch(i: nat)
    | Peek
    | Take(rest: T)
    | Release
    | Advance

  function CellOf<T>(s: State<T>, t: nat): Cell<T>
    requires |s.cells| == Pow2(s.k)
  {
    s.cells[Slot(t, s.k)]
  }

  function Put<T>(s: State<T>, t: nat, c: Cell<T>): State<T>
    requires |s.cells| == Pow2(s.k)
  {
    s.(cells := s.cells[Slot(t, s.k) := c])
  }

  function StepProducer<T>(s: State<T>, i: nat, p: Pushing<T>): State<T>
    requires |s.cells| == Pow2(s.k) && i < |s.producers|
  {
    s.(producers := s.producers[i := p])
  }

  /** What an action does; one that does not apply in `s` does nothing. */
  function Step<T>(s: State<T>, a: Action<T>): State<T>
    requires |s.cells| == Pow2(s.k)
  {
    match a
    case FetchAdd(i, v) =>
      if i < |s.producers| && s.producers[i].Idle? then
        StepProducer(s, i, Spinning(s.head, v)).(head := s.head + 1, issued := s.issued + [v])
      else s
    case LoadEpoch(i) =>
      if i < |s.producers| && s.producers[i].Spinning?
         && CellOf(s, s.producers[i].ticket).epoch == s.producers[i].ticket
      then StepProducer(s, i, Owning(s.producers[i].ticket, s.producers[i].value))
      else s
    case WriteData(i) =>
      if i < |s.producers| && s.producers[i].Owning? then
        var p := s.producers[i];
        StepProducer(Put(s, p.ticket, CellOf(s, p.ticket).(data := p.value)), i, Written(p.ticket, p.value))
      else s
    case StoreEpoch(i) =>
      if i < |s.producers| && s.producers[i].Written? then
        var p := s.producers[i];
        StepProducer(Put(s, p.ticket, CellOf(s, p.ticket).(epoch := p.ticket + 1)), i, Idle)
      else s
    case Peek =>
      if s.consumer.Ready? && CellOf(s, s.tail).epoch == s.tail + 1 then s.(consumer := Seen) else s
    case Take(rest) =>
      if s.consumer.Seen? then
        Put(s, s.tail, CellOf(s, s.tail).(data := rest)).(consumer := Taken(CellOf(s, s.tail).data))
      else s
    case Release =>
      if s.consumer.Taken? then
        Put(s, s.tail, CellOf(s, s.tail).(epoch := s.tail + Pow2(s.k))).(consumer := Released(s.consumer.value))
      else s
    case Advance =>
      if s.consumer.Released? then
        s.(tail := s.tail + 1, consumer := Ready, popped := s.popped + [s.consumer.value])
      else s
  }

  /** An empty queue: the epoch of a cell is its number, and everyone is idle. */
  ghost predicate Init<T>(s: State<T>) {
    && s.k >= 1 && |s.cells| == Pow2(s.k) && s.head == 0 && s.tail == 0
    && (forall j | 0 <= j < |s.cells| :: s.cells[j].epoch == j)
    && (forall i | 0 <= i < |s.producers| :: s.producers[i].Idle?)
    && s.consumer.Ready? && s.issued == [] && s.popped == []
  }

  function Run<T>(s: State<T>, acts: seq<Action<T>>): State<T>
    requires |s.cells| == Pow2(s.k)
    decreases |acts|
  {
    if acts == [] then s else Run(Step(s, acts[0]), acts[1..])
  }

  // ---- the invariant ----

  /** The oldest ticket whose cell has not been given to the next round. */
  function Base<T>(s: State<T>): nat {
    if s.consumer.Released? then s.tail + 1 else s.tail
  }

  predicate Holds<T>(p: Pushing<T>, t: nat) {
    !p.Idle? && p.ticket == t
  }

  /** The cell of ticket t, in the round that is on: waiting for t to be pushed, or holding its value. */
  ghost predicate CellOk<T(!new)>(s: State<T>, t: nat)
    requires |s.cells| == Pow2(s.k)
  {
    var c := CellOf(s, t);
    && (c.epoch == t || (c.epoch == t + 1 && t < |s.issued|))
    && (c.epoch == t + 1 && t < |s.issued| && !(s.consumer.Taken? && t == s.tail) ==> c.data == s.issued[t])
  }

  ghost predicate ProducerOk<T(!new)>(s: State<T>, i: nat)
    requires |s.cells| == Pow2(s.k) && i < |s.producers|
  {
    var p := s.producers[i];
    p.Idle? ||
    (&& Base(s) <= p.ticket < |s.issued| && p.value == s.issued[p.ticket]
     && (p.ticket < Base(s) + Pow2(s.k) ==> CellOf(s, p.ticket).epoch == p.ticket)
     && (!p.Spinning? ==> p.ticket < Base(s) + Pow2(s.k))
     && (p.Written? ==> CellOf(s, p.ticket).data == p.value))
  }

  ghost predicate ConsumerOk<T(!new)>(s: State<T>)
    requires |s.cells| == Pow2(s.k)
  {
    && (s.consumer.Seen? || s.consumer.Taken? ==> CellOf(s, s.tail).epoch == s.tail + 1)
    && (!s.consumer.Ready? ==> s.tail < |s.issued|)
    && (s.consumer.Taken? || s.consumer.Released? ==> s.consumer.value == s.issued[s.tail])
  }

  ghost predicate HeldBySome<T(!new)>(s: State<T>, t: nat) {
    exists i: nat :: i < |s.producers| && Holds(s.producers[i], t)
  }

  /** An issued ticket that was not popped is published, or a producer holds it. */
  ghost predicate Accounted<T(!new)>(s: State<T>, t: nat)
    requires |s.cells| == Pow2(s.k)
  {
    (t < Base(s) + Pow2(s.k) && CellOf(s, t).epoch == t + 1) || HeldBySome(s, t)
  }

  ghost predicate Inv<T(!new)>(s: State<T>) {
    && s.k >= 1 && |s.cells| == Pow2(s.k) && s.head == |s.issued| && Base(s) <= s.head
    && s.popped == s.issued[..s.tail]
    && ConsumerOk(s)
    && (forall t: nat {:trigger CellOk(s, t)} | Base(s) <= t < Base(s) + Pow2(s.k) :: CellOk(s, t))
    && (forall i: nat {:trigger ProducerOk(s, i)} | i < |s.producers| :: ProducerOk(s, i))
    && (forall i: nat, j: nat {:trigger Apart(s, i, j)} | i < j < |s.producers| :: Apart(s, i, j))
    && (forall t: nat {:trigger Accounted(s, t)} | Base(s) <= t < s.head :: Accounted(s, t))
  }

  ghost predicate Apart<T(!new)>(s: State<T>, i: nat, j: nat)
    requires i < |s.producers| && j < |s.producers|
  {
    s.producers[i].Idle? || s.producers[j].Idle? || s.producers[i].ticket != s.producers[j].ticket
  }

  // ---- every step keeps it ----

  lemma OtherCells<T>(s: State<T>, t: nat, c: Cell<T>, u: nat)
    requires |s.cells| == Pow2(s.k)
    ensures t < u < t + Pow2(s.k) ==> CellOf(Put(s, t, c), u) == CellOf(s, u)
    ensures u < t < u + Pow2(s.k) ==> CellOf(Put(s, t, c), u) == CellOf(s, u)
    ensures CellOf(Put(s, t, c), t) == c
  {
    if t < u < t + Pow2(s.k) { SlotsApart(t, u, s.k); }
    if u < t < u + Pow2(s.k) { SlotsApart(u, t, s.k); }
  }

  lemma HeldStill<T(!new)>(s: State<T>, r: State<T>, t: nat)
    requires HeldBySome(s, t) && |s.producers| == |r.producers|
    requires forall i | 0 <= i < |s.producers| :: Holds(s.producers[i], t) ==> Holds(r.producers[i], t)
    ensures HeldBySome(r, t)
  {
    var i: nat :| i < |s.producers| && Holds(s.producers[i], t);
    assert Holds(r.producers[i], t);
  }

  lemma FetchAddKeeps<T(!new)>(s: State<T>, i: nat, v: T)
    requires Inv(s) && i < |s.producers| && s.producers[i].Idle?
    ensures Inv(Step(s, FetchAdd(i, v)))
  {
    var r := Step(s, FetchAdd(i, v));
    assert Holds(r.producers[i], s.head);
    forall t: nat | Base(r) <= t < r.head ensures Accounted(r, t) {
      if t < s.head {
        assert Accounted(s, t);
        if HeldBySome(s, t) { HeldStill(s, r, t); }
      } else {
        assert HeldBySome(r, t);
      }
    }
    forall t: nat | Base(r) <= t < Base(r) + Pow2(r.k) ensures CellOk(r, t) {
      assert CellOk(s, t);
    }
    forall j: nat | j < |r.producers| ensures ProducerOk(r, j) {
      assert ProducerOk(s, j);
      if j == i && s.head < Base(s) + Pow2(s.k) {
        assert CellOk(s, s.head);
      }
    }
    forall j: nat, l: nat | j < l < |r.producers| ensures Apart(r, j, l) {
      assert Apart(s, j, l) && ProducerOk(s, j) && ProducerOk(s, l);
    }
  }

  lemma LoadEpochKeeps<T(!new)>(s: State<T>, i: nat)
    requires Inv(s) && i < |s.producers| && s.producers[i].Spinning?
    requires CellOf(s, s.producers[i].ticket).epoch == s.producers[i].ticket
    ensures Inv(Step(s, LoadEpoch(i)))
  {
    var r, t0 := Step(s, LoadEpoch(i)), s.producers[i].ticket;
    assert ProducerOk(s, i);
    InWindow(s, t0);
    forall t: nat | Base(r) <= t < r.head ensures Accounted(r, t) {
      assert Accounted(s, t);
      if HeldBySome(s, t) { HeldStill(s, r, t); }
    }
    forall t: nat | Base(r) <= t < Base(r) + Pow2(r.k) ensures CellOk(r, t) {
      assert CellOk(s, t);
    }
    forall j: nat | j < |r.producers| ensures ProducerOk(r, j) {
      assert ProducerOk(s, j);
    }
    forall j: nat, l: nat | j < l < |r.producers| ensures Apart(r, j, l) {
      assert Apart(s, j, l);
    }
  }

  /** A ticket that finds its number in its cell is at most one round ahead of the consumer. */
  lemma InWindow<T(!new)>(s: State<T>, t: nat)
    requires Inv(s) && Base(s) <= t && CellOf(s, t).epoch == t
    ensures t < Base(s) + Pow2(s.k)
  {
    if t >= Base(s) + Pow2(s.k) {
      var u := Representative(s, t);
      CellAt(s, u);
    }
  }

  lemma CellAt<T(!new)>(s: State<T>, t: nat)
    requires Inv(s) && Base(s) <= t < Base(s) + Pow2(s.k)
    ensures CellOf(s, t).epoch == t || (CellOf(s, t).epoch == t + 1 && t < |s.issued|)
  {
    assert CellOk(s, t);
  }

  /** The ticket of the round that is on whose cell t shares. */
  lemma Representative<T>(s: State<T>, t: nat) returns (u: nat)
    requires |s.cells| == Pow2(s.k) && t >= Base(s) + Pow2(s.k) && s.k >= 1
    ensures Base(s) <= u < Base(s) + Pow2(s.k) && Slot(u, s.k) == Slot(t, s.k) && u + 1 < t
    decreases t
  {
    u := t - Pow2(s.k);
    SlotWraps(u, s.k);
    if u >= Base(s) + Pow2(s.k) {
      u := Representative(s, u);
    }
  }

  lemma WriteDataKeeps<T(!new)>(s: State<T>, i: nat)
    requires Inv(s) && i < |s.producers| && s.producers[i].Owning?
    ensures Inv(Step(s, WriteData(i)))
  {
    var r, p := Step(s, WriteData(i)), s.producers[i];
    var t0 := p.ticket;
    var c := CellOf(s, t0).(data := p.value);
    assert ProducerOk(s, i);
    TailCell(s, t0, c);
    forall t: nat | Base(r) <= t < r.head ensures Accounted(r, t) {
      assert Accounted(s, t);
      OtherCells(s, t0, c, t);
      if HeldBySome(s, t) { HeldStill(s, r, t); }
    }
    forall t: nat | Base(r) <= t < Base(r) + Pow2(r.k) ensures CellOk(r, t) {
      assert CellOk(s, t);
      OtherCells(s, t0, c, t);
    }
    forall j: nat | j < |r.producers| ensures ProducerOk(r, j) {
      assert ProducerOk(s, j);
      if !s.producers[j].Idle? { OtherCells(s, t0, c, s.producers[j].ticket); }
      if j != i { assert Apart(s, if i < j then i else j, if i < j then j else i); }
    }
    forall j: nat, l: nat | j < l < |r.producers| ensures Apart(r, j, l) {
      assert Apart(s, j, l);
    }
  }

  /** A cell in the window that is not the one of `tail` leaves the consumer alone. */
  lemma TailCell<T(!new)>(s: State<T>, t0: nat, c: Cell<T>)
    requires Inv(s) && Base(s) <= t0 < Base(s) + Pow2(s.k)
    ensures t0 != s.tail && !s.consumer.Released? ==> CellOf(Put(s, t0, c), s.tail) == CellOf(s, s.tail)
  {
    OtherCells(s, t0, c, s.tail);
  }

  /** What a published cell changes for the tickets and for the other cells. */
  lemma StoreEpochCells<T(!new)>(s: State<T>, i: nat, t: nat)
    requires Inv(s) && i < |s.producers| && s.producers[i].Written? && Base(s) <= t < Base(s) + Pow2(s.k)
    ensures CellOk(Step(s, StoreEpoch(i)), t)
    ensures t < s.head ==> Accounted(Step(s, StoreEpoch(i)), t)
  {
    var r, t0 := Step(s, StoreEpoch(i)), s.producers[i].ticket;
    assert ProducerOk(s, i);
    assert CellOk(s, t);
    OtherCells(s, t0, CellOf(s, t0).(epoch := t0 + 1), t);
    if t < s.head {
      assert Accounted(s, t);
      if t != t0 && HeldBySome(s, t) { HeldStill(s, r, t); }
    }
  }

  lemma StoreEpochKeeps<T(!new)>(s: State<T>, i: nat)
    requires Inv(s) && i < |s.producers| && s.producers[i].Written?
    ensures Inv(Step(s, StoreEpoch(i)))
  {
    var r, p := Step(s, StoreEpoch(i)), s.producers[i];
    var t0 := p.ticket;
    var c := CellOf(s, t0).(epoch := t0 + 1);
    assert ProducerOk(s, i);
    TailCell(s, t0, c);
    forall t: nat | Base(r) <= t < r.head ensures Accounted(r, t) {
      assert Accounted(s, t);
      if t < Base(s) + Pow2(s.k) {
        StoreEpochCells(s, i, t);
      } else {
        OtherCells(s, t0, c, t);
        if HeldBySome(s, t) { HeldStill(s, r, t); }
      }
    }
    forall t: nat | Base(r) <= t < Base(r) + Pow2(r.k) ensures CellOk(r, t) {
      StoreEpochCells(s, i, t);
    }
    forall j: nat | j < |r.producers| ensures ProducerOk(r, j) {
      assert ProducerOk(s, j);
      if !s.producers[j].Idle? { OtherCells(s, t0, c, s.producers[j].ticket); }
      if j != i { assert Apart(s, if i < j then i else j, if i < j then j else i); }
    }
    forall j: nat, l: nat | j < l < |r.producers| ensures Apart(r, j, l) {
      assert Apart(s, j, l);
    }
  }

  lemma PeekKeeps<T(!new)>(s: State<T>)
    requires Inv(s) && s.consumer.Ready? && CellOf(s, s.tail).epoch == s.tail + 1
    ensures Inv(Step(s, Peek))
  {
    var r := Step(s, Peek);
    CellAt(s, s.tail);
    forall t: nat | Base(r) <= t < r.head ensures Accounted(r, t) {
      assert Accounted(s, t);
    }
    forall t: nat | Base(r) <= t < Base(r) + Pow2(r.k) ensures CellOk(r, t) {
      assert CellOk(s, t);
    }
    forall j: nat | j < |r.producers| ensures ProducerOk(r, j) {
      assert ProducerOk(s, j);
    }
    forall j: nat, l: nat | j < l < |r.producers| ensures Apart(r, j, l) {
      assert Apart(s, j, l);
    }
  }

  lemma TakeKeeps<T(!new)>(s: State<T>, rest: T)
    requires Inv(s) && s.consumer.Seen?
    ensures Inv(Step(s, Take(rest)))
  {
    var r := Step(s, Take(rest));
    var c := CellOf(s, s.tail).(data := rest);
    assert CellOk(s, s.tail);
    forall t: nat | Base(r) <= t < r.head ensures Accounted(r, t) {
      assert Accounted(s, t);
      OtherCells(s, s.tail, c, t);
      if HeldBySome(s, t) { HeldStill(s, r, t); }
    }
    forall t: nat | Base(r) <= t < Base(r) + Pow2(r.k) ensures CellOk(r, t) {
      assert CellOk(s, t);
      OtherCells(s, s.tail, c, t);
    }
    forall j: nat | j < |r.producers| ensures ProducerOk(r, j) {
      assert ProducerOk(s, j);
      if !s.producers[j].Idle? { OtherCells(s, s.tail, c, s.producers[j].ticket); }
    }
    forall j: nat, l: nat | j < l < |r.producers| ensures Apart(r, j, l) {
      assert Apart(s, j, l);
    }
  }

  /** Giving the cell of `tail` to the next round moves the window by one. */
  lemma ReleaseKeeps<T(!new)>(s: State<T>)
    requires Inv(s) && s.consumer.Taken?
    ensures Inv(Step(s, Release))
  {
    var r := Step(s, Release);
    var last := s.tail + Pow2(s.k);
    var c := CellOf(s, s.tail).(epoch := last);
    SlotWraps(s.tail, s.k);
    OtherCells(s, s.tail, c, s.tail);
    forall t: nat | Base(r) <= t < r.head ensures Accounted(r, t) {
      assert Accounted(s, t);
      if t != last { OtherCells(s, s.tail, c, t); }
      if HeldBySome(s, t) { HeldStill(s, r, t); }
    }
    forall t: nat | Base(r) <= t < Base(r) + Pow2(r.k) ensures CellOk(r, t) {
      if t != last {
        assert CellOk(s, t);
        OtherCells(s, s.tail, c, t);
      }
    }
    forall j: nat | j < |r.producers| ensures ProducerOk(r, j) {
      assert ProducerOk(s, j);
      if !s.producers[j].Idle? { OtherCells(s, s.tail, c, s.producers[j].ticket); }
    }
    forall j: nat, l: nat | j < l < |r.producers| ensures Apart(r, j, l) {
      assert Apart(s, j, l);
    }
  }

  lemma AdvanceKeeps<T(!new)>(s: State<T>)
    requires Inv(s) && s.consumer.Released?
    ensures Inv(Step(s, Advance))
  {
    var r := Step(s, Advance);
    forall t: nat | Base(r) <= t < r.head ensures Accounted(r, t) {
      assert Accounted(s, t);
    }
    forall t: nat | Base(r) <= t < Base(r) + Pow2(r.k) ensures CellOk(r, t) {
      assert CellOk(s, t);
    }
    forall j: nat | j < |r.producers| ensures ProducerOk(r, j) {
      assert ProducerOk(s, j);
    }
    forall j: nat, l: nat | j < l < |r.producers| ensures Apart(r, j, l) {
      assert Apart(s, j, l);
    }
  }

  /** Every atomic step keeps the invariant. */
  lemma StepKeeps<T(!new)>(s: State<T>, a: Action<T>)
    requires Inv(s)
    ensures Inv(Step(s, a))
  {
    if Step(s, a) != s {
      match a
      case FetchAdd(i, v) => FetchAddKeeps(s, i, v);
      case LoadEpoch(i) => LoadEpochKeeps(s, i);
      case WriteData(i) => WriteDataKeeps(s, i);
      case StoreEpoch(i) => StoreEpochKeeps(s, i);
      case Peek => PeekKeeps(s);
      case Take(rest) => TakeKeeps(s, rest);
      case Release => ReleaseKeeps(s);
      case Advance => AdvanceKeeps(s);
    }
  }

  lemma InitIsInv<T(!new)>(s: State<T>)
    requires Init(s)
    ensures Inv(s)
  {
    forall t: nat | Base(s) <= t < Base(s) + Pow2(s.k) ensures CellOk(s, t) {
      FirstRound(t, s.k);
    }
  }

  // ---- what the invariant gives ----

  lemma {:induction false} RunKeeps<T(!new)>(s: State<T>, acts: seq<Action<T>>)
    requires Inv(s)
    ensures Inv(Run(s, acts))
    decreases |acts|
  {
    if acts != [] {
      StepKeeps(s, acts[0]);
      RunKeeps(Step(s, acts[0]), acts[1..]);
    }
  }

  /** Over every interleaving of pushes and pops on an empty queue: the values popped are those of the
      first tickets, in order, and every later ticket that was issued is published in its cell with its
      value, or exactly one producer holds it. */
  lemma RunIsQueue<T(!new)>(s: State<T>, acts: seq<Action<T>>)
    requires Init(s)
    ensures
      var r := Run(s, acts);
      && Inv(r) && r.popped == r.issued[..r.tail] && r.head == |r.issued|
      && forall t: nat | Base(r) <= t < r.head :: InCell(r, t) || HeldByOne(r, t)
  {
    InitIsInv(s);
    RunKeeps(s, acts);
    var r := Run(s, acts);
    forall t: nat | Base(r) <= t < r.head ensures InCell(r, t) || HeldByOne(r, t) {
      InCellOrHeld(r, t);
    }
  }

  /** The value of ticket t is in its cell, published; the consumer may be moving it out. */
  ghost predicate InCell<T(!new)>(s: State<T>, t: nat)
    requires |s.cells| == Pow2(s.k)
  {
    && t < |s.issued| && CellOf(s, t).epoch == t + 1
    && (if s.consumer.Taken? && t == s.tail then s.consumer.value == s.issued[t] else CellOf(s, t).data == s.issued[t])
  }

  /** Exactly one producer holds ticket t, with its value. */
  ghost predicate HeldByOne<T(!new)>(s: State<T>, t: nat) {
    exists i: nat :: i < |s.producers| && HeldOnlyBy(s, t, i)
  }

  ghost predicate HeldOnlyBy<T(!new)>(s: State<T>, t: nat, i: nat)
    requires i < |s.producers|
  {
    && Holds(s.producers[i], t) && t < |s.issued| && s.producers[i].value == s.issued[t]
    && forall j: nat | j < |s.producers| && Holds(s.producers[j], t) :: j == i
  }

  lemma InCellOrHeld<T(!new)>(s: State<T>, t: nat)
    requires Inv(s) && Base(s) <= t < s.head
    ensures InCell(s, t) || HeldByOne(s, t)
  {
    assert Accounted(s, t);
    if HeldBySome(s, t) {
      var i: nat :| i < |s.producers| && Holds(s.producers[i], t);
      assert ProducerOk(s, i);
      forall j: nat | j < |s.producers| && Holds(s.producers[j], t) ensures j == i {
        assert j < i ==> Apart(s, j, i);
        assert i < j ==> Apart(s, i, j);
      }
      assert HeldOnlyBy(s, t, i);
    } else {
      assert CellOk(s, t);
    }
  }

  /** No two threads touch the data of one cell at a time: a producer between its epoch load and its
      epoch store has the cell for itself, against every other producer and against the consumer. */
  lemma DataIsExclusive<T(!new)>(s: State<T>, i: nat, j: nat)
    requires Inv(s) && i < |s.producers| && j < |s.producers|
    requires s.producers[i].Owning? || s.producers[i].Written?
    ensures i != j && (s.producers[j].Owning? || s.producers[j].Written?) ==>
      Slot(s.producers[i].ticket, s.k) != Slot(s.producers[j].ticket, s.k)
    ensures s.consumer.Seen? || s.consumer.Taken? ==> Slot(s.producers[i].ticket, s.k) != Slot(s.tail, s.k)
  {
    var t, u := s.producers[i].ticket, if s.producers[j].Idle? then 0 else s.producers[j].ticket;
    assert ProducerOk(s, i) && ProducerOk(s, j);
    if i != j && (s.producers[j].Owning? || s.producers[j].Written?) {
      assert Apart(s, if i < j then i else j, if i < j then j else i);
      if t < u { SlotsApart(t, u, s.k); } else { SlotsApart(u, t, s.k); }
    }
    if s.tail < t && (s.consumer.Seen? || s.consumer.Taken?) {
      SlotsApart(s.tail, t, s.k);
    }
  }

  /** Nobody spins for ever behind nobody: the oldest ticket that was not popped is either there for the
      consumer, or its producer does not wait. */
  lemma OldestDoesNotWait<T(!new)>(s: State<T>)
    requires Inv(s) && s.consumer.Ready? && s.tail < s.head
    ensures Step(s, Peek).consumer.Seen?
      || exists i: nat :: i < |s.producers| && Holds(s.producers[i], s.tail) && Unblocked(s, i)
  {
    assert CellOk(s, s.tail) && Accounted(s, s.tail);
    if CellOf(s, s.tail).epoch != s.tail + 1 {
      var i: nat :| i < |s.producers| && Holds(s.producers[i], s.tail);
      assert ProducerOk(s, i);
      assert Unblocked(s, i);
    }
  }

  /** The next access of a producer in `push` gets it further. */
  ghost predicate Unblocked<T(!new)>(s: State<T>, i: nat)
    requires |s.cells| == Pow2(s.k) && i < |s.producers|
  {
    match s.producers[i]
    case Idle => false
    case Spinning(_, _) => Step(s, LoadEpoch(i)).producers[i].Owning?
    case Owning(_, _) => Step(s, WriteData(i)).producers[i].Written?
    case Written(_, _) => Step(s, StoreEpoch(i)).producers[i].Idle?
  }
}
