/** The outbound byte pump of a session: a queue of messages, and at most one write at a time that the
    transport may accept in part. */
module WritePumps {
  import opened Bytes

  datatype PendingWrite = PendingWrite(data: Wire, sent: nat) {
    predicate Ok() { sent <= |data| }

    function Left(): Wire
      requires Ok()
    {
      data[sent..]
    }
  }

  predicate AllOk(q: seq<PendingWrite>) {
    forall i | 0 <= i < |q| :: q[i].Ok()
  }

  /** The bytes of the queue that were not accepted yet. */
  function Unsent(q: seq<PendingWrite>): Wire
    requires AllOk(q)
  {
    if q == [] then [] else q[0].Left() + Unsent(q[1..])
  }

  lemma {:induction false} UnsentSnoc(q: seq<PendingWrite>, w: Wire)
    requires AllOk(q)
    ensures AllOk(q + [PendingWrite(w, 0)]) && Unsent(q + [PendingWrite(w, 0)]) == Unsent(q) + w
  {
    var p := PendingWrite(w, 0);
    if q == [] {
      assert [p][1..] == [] && q + [p] == [p];
    } else {
      assert (q + [p])[1..] == q[1..] + [p];
      UnsentSnoc(q[1..], w);
    }
  }

  datatype Event =
    | Enqueue(wire: Wire)
    /** The transport has accepted the first `n` bytes of the write it was given. */
    | Written(n: nat)
    | TransientError

  /** Everything the events enqueue. */
  function Enqueued(events: seq<Event>): Wire {
    if events == [] then []
    else
      var e := events[|events| - 1];
      Enqueued(events[..|events| - 1]) + if e.Enqueue? then e.wire else []
  }

  class WritePump {
    var queue: seq<PendingWrite>
    var inflight: bool
    var stopped: bool
    /** The write the transport is working on. */
    var outstanding: Option<Wire>
    /** Since the connection came up: what was enqueued, and what the transport accepted. */
    ghost var enqueued: Wire
    ghost var accepted: Wire

    ghost predicate Valid()
      reads this
    {
      && AllOk(queue)
      && (!stopped ==> accepted + Unsent(queue) == enqueued)
      && (inflight <==> outstanding.Some?) && (inflight <==> queue != [])
      && (outstanding.Some? ==> outstanding.value == queue[0].Left())
      && (stopped ==> queue == [])
    }

    constructor ()
      ensures Valid() && !stopped && enqueued == [] && accepted == [] && queue == []
    {
      queue, inflight, stopped, outstanding, enqueued, accepted := [], false, false, None, [], [];
    }

    /** Gives the unsent part of the first message to the transport, if there is one. */
    method DoWrite()
      requires AllOk(queue) && !stopped && inflight && outstanding == None
      modifies this`inflight, this`outstanding
      ensures inflight == (queue != [])
      ensures outstanding == if queue == [] then None else Some(queue[0].Left())
    {
      if queue == [] {
        inflight := false;
      } else {
        var front := queue[0];
        outstanding := Some(front.data[front.sent..]);
      }
    }

    method SendBytes(wire: Wire)
      requires Valid() && !stopped
      modifies this
      ensures Valid() && !stopped && enqueued == old(enqueued) + wire && accepted == old(accepted)
      ensures old(inflight) ==> outstanding == old(outstanding)
    {
      UnsentSnoc(queue, wire);
      queue := queue + [PendingWrite(wire, 0)];
      enqueued := enqueued + wire;
      if !inflight {
        inflight := true;
        DoWrite();
      }
    }

    /** The write completes; the rest of the message, or the next message, is written. */
    method OnWritten(n: nat)
      requires Valid() && !stopped && outstanding.Some? && n <= |outstanding.value|
      modifies this
      ensures Valid() && !stopped && enqueued == old(enqueued)
      ensures accepted == old(accepted) + old(outstanding.value)[..n]
    {
      ghost var left, rest := queue[0].Left(), Unsent(queue[1..]);
      accepted := accepted + left[..n];
      outstanding := None;
      var f := queue[0].(sent := queue[0].sent + n);
      assert f.Left() == left[n..];
      queue := [f] + queue[1..];
      assert queue[1..] == old(queue)[1..];
      assert left == left[..n] + left[n..];
      if f.sent >= |f.data| {
        queue := queue[1..];
      }
      DoWrite();
    }

    /** The write fails for now and is tried again. */
    method OnTransientError()
      requires Valid() && !stopped && outstanding.Some?
      modifies this`inflight, this`outstanding
      ensures Valid() && outstanding == old(outstanding)
    {
      outstanding := None;
      DoWrite();
    }

    /** The connection goes away, or the session stops. What was accepted is a prefix of what was sent. */
    method Drop(stop: bool)
      requires Valid()
      modifies this
      ensures Valid() && queue == [] && outstanding == None && stopped == (old(stopped) || stop)
      ensures !old(stopped) ==> old(accepted) <= old(enqueued)
      ensures enqueued == [] && accepted == []
    {
      queue, inflight, outstanding := [], false, None;
      stopped := stopped || stop;
      enqueued, accepted := [], [];
    }

    /** Whatever order messages are enqueued in and writes complete in, wholly, partly or not at all:
        the transport has got, in order and without gaps, the first bytes of everything enqueued, and the
        queue holds the rest. */
    method Run(events: seq<Event>)
      requires Valid() && !stopped && queue == [] && enqueued == [] && accepted == []
      modifies this
      ensures Valid() && !stopped && enqueued == Enqueued(events)
      ensures accepted + Unsent(queue) == Enqueued(events)
      ensures inflight <==> outstanding.Some?
      ensures queue == [] ==> accepted == Enqueued(events)
    {
      for i := 0 to |events|
        invariant Valid() && !stopped && enqueued == Enqueued(events[..i])
      {
        assert events[..i + 1][..i] == events[..i];
        match events[i]
        case Enqueue(w) => SendBytes(w);
        case Written(n) =>
          if outstanding.Some? && n <= |outstanding.value| {
            OnWritten(n);
          }
        case TransientError =>
          if outstanding.Some? {
            OnTransientError();
          }
      }
      assert events[..|events|] == events;
    }
  }
}
