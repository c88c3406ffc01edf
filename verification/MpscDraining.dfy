/** Everything that goes in comes out. */
module MpscDraining {
  import opened Bits
  import opened MpscRings

  lemma {:induction false} RunConcat<T(!new)>(s: State<T>, a: seq<Action<T>>, b: seq<Action<T>>)
    requires Inv(s)
    ensures Inv(Run(s, a)) && Run(s, a + b) == Run(Run(s, a), b)
    decreases |a|
  {
    if a == [] {
      assert a + b == b;
    } else {
      assert (a + b)[1..] == a[1..] + b;
      StepKeeps(s, a[0]);
      RunConcat(Step(s, a[0]), a[1..], b);
    }
  }

  lemma RunOne<T(!new)>(s: State<T>, a: Action<T>)
    requires Inv(s)
    ensures Run(s, [a]) == Step(s, a) && Inv(Step(s, a))
  {
    StepKeeps(s, a);
    assert [a][1..] == [];
  }

  /** Nothing was issued or popped, and the consumer did nothing. */
  predicate SameQueue<T(==)>(s: State<T>, r: State<T>) {
    r.k == s.k && r.head == s.head && r.issued == s.issued && r.tail == s.tail && r.popped == s.popped
  }

  /** The producer of the oldest ticket gets on by itself until the ticket is published. */
  lemma {:induction false} OldestIsPublished<T(!new)>(s: State<T>, i: nat, t: nat) returns (acts: seq<Action<T>>)
    requires Inv(s) && s.consumer.Ready? && t == s.tail && i < |s.producers| && Holds(s.producers[i], t)
    ensures
      var r := Run(s, acts);
      Inv(r) && SameQueue(s, r) && r.consumer.Ready? && CellOf(r, t).epoch == t + 1
    decreases match s.producers[i] case Spinning(_, _) => 3 case Owning(_, _) => 2 case _ => 1
  {
    assert ProducerOk(s, i);
    var a: Action<T> :=
      match s.producers[i]
      case Spinning(_, _) => LoadEpoch(i)
      case Owning(_, _) => WriteData(i)
      case _ => StoreEpoch(i);
    RunOne(s, a);
    var u := Step(s, a);
    if s.producers[i].Written? {
      acts := [a];
    } else {
      var more := OldestIsPublished(u, i, t);
      acts := [a] + more;
      RunConcat(s, [a], more);
    }
  }

  /** The consumer gets on by itself with a value it has begun to take. */
  lemma {:induction false} PopIsFinished<T(!new)>(s: State<T>, junk: T) returns (acts: seq<Action<T>>)
    requires Inv(s) && !s.consumer.Ready?
    ensures
      var r := Run(s, acts);
      && Inv(r) && r.consumer.Ready? && r.head == s.head && r.issued == s.issued
      && r.tail == s.tail + 1 && s.tail < |s.issued| && r.popped == s.popped + [s.issued[s.tail]]
    decreases match s.consumer case Seen => 3 case Taken(_) => 2 case _ => 1
  {
    var a: Action<T> :=
      match s.consumer
      case Seen => Take(junk)
      case Taken(_) => Release
      case _ => Advance;
    RunOne(s, a);
    if s.consumer.Released? {
      acts := [a];
    } else {
      var more := PopIsFinished(Step(s, a), junk);
      acts := [a] + more;
      RunConcat(s, [a], more);
    }
  }

  /** A published value is seen, and popped. */
  lemma PublishedIsPopped<T(!new)>(s: State<T>, junk: T) returns (acts: seq<Action<T>>)
    requires Inv(s) && s.consumer.Ready? && CellOf(s, s.tail).epoch == s.tail + 1
    ensures
      var r := Run(s, acts);
      && Inv(r) && r.consumer.Ready? && r.head == s.head && r.issued == s.issued
      && r.tail == s.tail + 1 && s.tail < |s.issued| && r.popped == s.popped + [s.issued[s.tail]]
  {
    RunOne(s, Peek);
    var more := PopIsFinished(Step(s, Peek), junk);
    acts := [Peek] + more;
    RunConcat(s, [Peek], more);
  }

  lemma OldestIsPopped<T(!new)>(s: State<T>, junk: T) returns (acts: seq<Action<T>>)
    requires Inv(s) && s.consumer.Ready? && s.tail < s.head
    ensures
      var r := Run(s, acts);
      && Inv(r) && r.consumer.Ready? && r.head == s.head && r.issued == s.issued && r.tail == s.tail + 1
  {
    assert CellOk(s, s.tail) && Accounted(s, s.tail);
    if CellOf(s, s.tail).epoch == s.tail + 1 {
      acts := PublishedIsPopped(s, junk);
    } else {
      var i: nat :| i < |s.producers| && Holds(s.producers[i], s.tail);
      var a := OldestIsPublished(s, i, s.tail);
      var b := PublishedIsPopped(Run(s, a), junk);
      acts := a + b;
      RunConcat(s, a, b);
    }
  }

  lemma {:induction false} RestComesOut<T(!new)>(s: State<T>, junk: T) returns (acts: seq<Action<T>>)
    requires Inv(s) && s.consumer.Ready?
    ensures Inv(Run(s, acts)) && Run(s, acts).popped == Run(s, acts).issued == s.issued
    decreases s.head - s.tail
  {
    if s.tail == s.head {
      acts := [];
    } else {
      var a := OldestIsPopped(s, junk);
      var b := RestComesOut(Run(s, a), junk);
      acts := a + b;
      RunConcat(s, a, b);
    }
  }

  /** No queue is ever stuck: from every state that an empty queue can get to, however its threads were interleaved,
      the pushes that are under way and the consumer can be run to an end at which everything that was issued has
      been popped, in the order of the tickets. */
  lemma EverythingComesOut<T(!new)>(s: State<T>, acts: seq<Action<T>>, junk: T) returns (more: seq<Action<T>>)
    requires Init(s)
    ensures Run(s, acts + more).popped == Run(s, acts + more).issued == Run(s, acts).issued
  {
    InitIsInv(s);
    RunConcat(s, acts, []);
    var r := Run(s, acts);
    if r.consumer.Ready? {
      more := RestComesOut(r, junk);
    } else {
      var a := PopIsFinished(r, junk);
      var b := RestComesOut(Run(r, a), junk);
      more := a + b;
      RunConcat(r, a, b);
    }
    RunConcat(s, acts, more);
  }
}
