/** The read loop of a session: bytes in, chunk by chunk, framed messages out. */
module Reader {
  import opened Bytes
  import opened Framing
  import opened Framers

  /** The bytes of the windows `ws` of `s`. */
  function Slices(s: Wire, ws: seq<Window>): (r: seq<Wire>)
    requires forall i | 0 <= i < |ws| :: ws[i].begin <= ws[i].end <= |s|
    ensures |r| == |ws|
  {
    seq(|ws|, i requires 0 <= i < |ws| => s[ws[i].begin..ws[i].end])
  }

  predicate Inside(s: Wire, ws: seq<Window>) {
    forall i | 0 <= i < |ws| :: ws[i].begin <= ws[i].end <= |s|
  }

  lemma SlicesExtended(s: Wire, t: Wire, ws: seq<Window>)
    requires Inside(s, ws)
    ensures Inside(s + t, ws) && Slices(s + t, ws) == Slices(s, ws)
  {
    forall i | 0 <= i < |ws| ensures (s + t)[ws[i].begin..ws[i].end] == s[ws[i].begin..ws[i].end] {
    }
  }

  lemma SlicesAppended(s: Wire, ws: seq<Window>, w: Window)
    requires Inside(s, ws) && w.begin <= w.end <= |s|
    ensures Inside(s, ws + [w]) && Slices(s, ws + [w]) == Slices(s, ws) + [s[w.begin..w.end]]
  {
  }

  /** The message loop of a read: whatever is queued is handed out and consumed. */
  method HandOut(f: Framer, ghost before: seq<Wire>) returns (msgs: seq<Wire>)
    requires f.Valid()
    requires Inside(f.buffer.stream, f.consumed) && before == Slices(f.buffer.stream, f.consumed)
    modifies f, f.buffer, f.buffer.data, f.completed
    ensures f.Valid() && f.completed.contents == [] && f.consumed == old(f.Done())
    ensures f.buffer.stream == old(f.buffer.stream) && f.buffer.data == old(f.buffer.data)
    ensures f.completed.buffer == old(f.completed.buffer)
    ensures Inside(f.buffer.stream, f.consumed) && before + msgs == Slices(f.buffer.stream, f.consumed)
  {
    msgs := [];
    while f.HasMessage()
      invariant f.Valid() && f.Done() == old(f.Done())
      invariant f.buffer.stream == old(f.buffer.stream) && f.buffer.data == old(f.buffer.data)
      invariant f.completed.buffer == old(f.completed.buffer)
      invariant Inside(f.buffer.stream, f.consumed) && before + msgs == Slices(f.buffer.stream, f.consumed)
      decreases |f.completed.contents|
    {
      var w := f.GetMessage();
      SlicesAppended(f.buffer.stream, f.consumed, f.completed.contents[0]);
      f.ConsumeMessage();
      msgs := msgs + [w];
    }
    assert f.consumed + [] == f.consumed;
  }

  /** One read: everything that can be framed now is handed out and consumed. */
  method OnRead(f: Framer, chunk: Wire, ghost before: seq<Wire>) returns (msgs: seq<Wire>)
    requires f.Valid() && f.completed.contents == []
    requires Inside(f.buffer.stream, f.consumed) && before == Slices(f.buffer.stream, f.consumed)
    modifies f, f.buffer, f.buffer.data, f.completed, f.completed.buffer
    ensures f.Valid() && f.completed.contents == []
    ensures f.buffer.stream == old(f.buffer.stream) + chunk
    ensures f.buffer.data == old(f.buffer.data) || fresh(f.buffer.data)
    ensures f.completed.buffer == old(f.completed.buffer)
    ensures Inside(f.buffer.stream, f.consumed) && before + msgs == Slices(f.buffer.stream, f.consumed)
    ensures f.consumed <= Frames(f.buffer.stream, 0)
    ensures |f.consumed| < old(|f.consumed|) + QUEUE_SIZE ==> f.consumed == Frames(f.buffer.stream, 0)
  {
    SlicesExtended(f.buffer.stream, chunk, f.consumed);
    f.Append(chunk);
    msgs := HandOut(f, before);
  }

  /** However a byte stream is cut into reads, the messages handed out are the first messages of the
      stream framed at once; and all of them if the stream holds fewer than the queue. */
  method ReadAll(chunks: seq<Wire>) returns (msgs: seq<Wire>)
    ensures Inside(Concat(chunks), Frames(Concat(chunks), 0))
    ensures msgs <= Slices(Concat(chunks), Frames(Concat(chunks), 0))
    ensures |Frames(Concat(chunks), 0)| < QUEUE_SIZE ==> msgs == Slices(Concat(chunks), Frames(Concat(chunks), 0))
  {
    var f := new Framer();
    msgs := [];
    for i := 0 to |chunks|
      invariant f.Valid() && f.completed.contents == []
      invariant fresh(f) && fresh(f.buffer) && fresh(f.buffer.data) && fresh(f.completed) && fresh(f.completed.buffer)
      invariant f.buffer.stream == Concat(chunks[..i])
      invariant Inside(f.buffer.stream, f.consumed) && msgs == Slices(f.buffer.stream, f.consumed)
      invariant f.consumed <= Frames(f.buffer.stream, 0)
      invariant |Frames(f.buffer.stream, 0)| < QUEUE_SIZE ==> f.consumed == Frames(f.buffer.stream, 0)
    {
      var more := OnRead(f, chunks[i], msgs);
      msgs := msgs + more;
      assert chunks[..i + 1][..i] == chunks[..i];
    }
    assert chunks[..|chunks|] == chunks;
    FramesInside(Concat(chunks));
  }

  lemma FramesInside(s: Wire)
    ensures Inside(s, Frames(s, 0))
  {
    FramesInOrder(s, 0);
    forall i | 0 <= i < |Frames(s, 0)| ensures Frames(s, 0)[i].begin <= Frames(s, 0)[i].end <= |s| {
      assert Placed(Frames(s, 0), 0, i) && Frames(s, 0)[i] in Frames(s, 0);
    }
  }
}
