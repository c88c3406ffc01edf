/** Framing as a function: cutting a byte stream, given at once, into FIX messages. */
module Framing {
  import opened Bytes
  import opened Decimals

  /** "8=FIX.4.4" and SOH. */
  const BEGIN: Wire := [56, 61, 70, 73, 88, 46, 52, 46, 52, 1]
  const MAX_MESSAGE_SIZE: nat := 1024 * 1024
  /** "10=", three digits and SOH. */
  const TRAILER_SIZE: nat := 7

  /** A message by its absolute offsets. */
  datatype Window = Window(begin: nat, end: nat)

  /** What the bytes after BEGIN say: not enough of them yet, no body length, or where the message
      ends. */
  datatype Head = Partial | Malformed | Ends(end: nat)

  function HeadAt(s: Wire, b: nat): Head {
    var h := b + |BEGIN|;
    if h + 2 > |s| then Partial
    else if s[h] != 57 || s[h + 1] != EQUALS then Malformed
    else
      match FindByte(s, SOH, h + 2)
      case None => Partial
      case Some(q) =>
        match ParseDec(s[h + 2..q])
        case None => Malformed
        case Some(n) => if n > MAX_MESSAGE_SIZE then Malformed else Ends(q + 1 + n + TRAILER_SIZE)
  }

  datatype Outcome = NeedMoreData | Resync(next: nat) | Message(window: Window)

  /** The first thing to be seen in `s` from `p` on. */
  function ScanAt(s: Wire, p: nat): (r: Outcome)
    ensures r.Resync? ==> p < r.next <= |s|
    ensures r.Message? ==> p <= r.window.begin < r.window.end <= |s|
  {
    match Find(s, BEGIN, p)
    case None => NeedMoreData
    case Some(b) =>
      match HeadAt(s, b)
      case Partial => NeedMoreData
      case Malformed => Resync(b + 1)
      case Ends(e) => if e > |s| then NeedMoreData else Message(Window(b, e))
  }

  /** All messages of `s` from `p` on. A malformed header is skipped byte by byte. */
  function Frames(s: Wire, p: nat): seq<Window>
    decreases |s| - p
  {
    match ScanAt(s, p)
    case NeedMoreData => []
    case Resync(next) => Frames(s, next)
    case Message(w) => [w] + Frames(s, w.end)
  }

  // ---- more bytes do not change what was seen ----

  lemma OccursAtExtended(s: Wire, t: Wire, pat: Wire, i: nat)
    requires i + |pat| <= |s|
    ensures OccursAt(s + t, pat, i) <==> OccursAt(s, pat, i)
  {
    assert (s + t)[i..i + |pat|] == s[i..i + |pat|];
  }

  lemma FindExtended(s: Wire, t: Wire, pat: Wire, from: nat)
    requires Find(s, pat, from).Some?
    ensures Find(s + t, pat, from) == Find(s, pat, from)
  {
    var at := Find(s, pat, from).value;
    OccursAtExtended(s, t, pat, at);
    forall j: nat | from <= j < at ensures !OccursAt(s + t, pat, j) {
      OccursAtExtended(s, t, pat, j);
    }
  }

  lemma HeadExtended(s: Wire, t: Wire, b: nat)
    requires HeadAt(s, b) != Partial
    ensures HeadAt(s + t, b) == HeadAt(s, b)
  {
    var h := b + |BEGIN|;
    assert (s + t)[h] == s[h] && (s + t)[h + 1] == s[h + 1];
    if s[h] == 57 && s[h + 1] == EQUALS {
      var q := FindByte(s, SOH, h + 2).value;
      FindByteIs(s + t, SOH, h + 2, q);
      assert (s + t)[h + 2..q] == s[h + 2..q];
    }
  }

  lemma ScanExtended(s: Wire, t: Wire, p: nat)
    requires ScanAt(s, p) != NeedMoreData
    ensures ScanAt(s + t, p) == ScanAt(s, p)
  {
    FindExtended(s, t, BEGIN, p);
    HeadExtended(s, t, Find(s, BEGIN, p).value);
  }

  /** What is framed of a stream is a prefix of what is framed of any extension. */
  lemma {:induction false} FramesExtended(s: Wire, t: Wire, p: nat)
    ensures Frames(s, p) <= Frames(s + t, p)
    decreases |s| - p
  {
    match ScanAt(s, p)
    case NeedMoreData =>
    case Resync(next) =>
      ScanExtended(s, t, p);
      FramesExtended(s, t, next);
    case Message(w) =>
      ScanExtended(s, t, p);
      FramesExtended(s, t, w.end);
  }

  // ---- how far an incremental scan has got ----

  /** Having framed `done`, the scan may go on at `p`: whatever follows `s`, the rest is found from
      there. */
  ghost predicate Sync(s: Wire, done: seq<Window>, p: nat) {
    forall t: Wire {:trigger SyncWith(s + t, done, p)} :: SyncWith(s + t, done, p)
  }

  predicate SyncWith(st: Wire, done: seq<Window>, p: nat) {
    Frames(st, 0) == done + Frames(st, p)
  }

  lemma SyncAtStart()
    ensures Sync([], [], 0)
  {
  }

  lemma SyncPushed(s: Wire, more: Wire, done: seq<Window>, p: nat)
    requires Sync(s, done, p)
    ensures Sync(s + more, done, p)
  {
    forall t: Wire ensures SyncWith((s + more) + t, done, p) {
      assert (s + more) + t == s + (more + t);
      assert SyncWith(s + (more + t), done, p);
    }
  }

  lemma SyncResync(s: Wire, done: seq<Window>, p: nat)
    requires Sync(s, done, p) && ScanAt(s, p).Resync?
    ensures Sync(s, done, ScanAt(s, p).next)
  {
    forall t: Wire ensures SyncWith(s + t, done, ScanAt(s, p).next) {
      assert SyncWith(s + t, done, p);
      ScanExtended(s, t, p);
    }
  }

  lemma SyncMessage(s: Wire, done: seq<Window>, p: nat)
    requires Sync(s, done, p) && ScanAt(s, p).Message?
    ensures Sync(s, done + [ScanAt(s, p).window], ScanAt(s, p).window.end)
  {
    var w := ScanAt(s, p).window;
    forall t: Wire ensures SyncWith(s + t, done + [w], w.end) {
      assert SyncWith(s + t, done, p);
      ScanExtended(s, t, p);
      assert done + ([w] + Frames(s + t, w.end)) == (done + [w]) + Frames(s + t, w.end);
    }
  }

  lemma FramesFrom(s: Wire, p: nat, p': nat)
    requires Find(s, BEGIN, p) == Find(s, BEGIN, p')
    ensures ScanAt(s, p) == ScanAt(s, p') && Frames(s, p) == Frames(s, p')
  {
  }

  /** The scan may move on to where BEGIN is found first. */
  lemma SyncFound(s: Wire, done: seq<Window>, p: nat)
    requires Sync(s, done, p) && Find(s, BEGIN, p).Some?
    ensures Sync(s, done, Find(s, BEGIN, p).value)
  {
    var b := Find(s, BEGIN, p).value;
    forall t: Wire ensures SyncWith(s + t, done, b) {
      assert SyncWith(s + t, done, p);
      FindExtended(s, t, BEGIN, p);
      FindExtended(s, t, BEGIN, b);
      FramesFrom(s + t, p, b);
    }
  }

  /** Where BEGIN does not occur, all but its length less one may be skipped, whatever follows. */
  lemma SyncSkip(s: Wire, done: seq<Window>, p: nat, p': nat)
    requires Sync(s, done, p) && Find(s, BEGIN, p).None?
    requires p <= p' && p' + |BEGIN| <= |s| + 1
    ensures Sync(s, done, p')
  {
    forall t: Wire ensures SyncWith(s + t, done, p') {
      assert SyncWith(s + t, done, p);
      forall j: nat | p <= j < p' ensures !OccursAt(s + t, BEGIN, j) {
        OccursAtExtended(s, t, BEGIN, j);
      }
      FindFrom(s + t, BEGIN, p, p');
      FramesFrom(s + t, p, p');
    }
  }

  lemma {:induction false} FindFrom(s: Wire, pat: Wire, p: nat, p': nat)
    requires p <= p' && forall j: nat | p <= j < p' :: !OccursAt(s, pat, j)
    ensures Find(s, pat, p) == Find(s, pat, p')
    decreases p' - p
  {
    if p < p' && p + |pat| <= |s| {
      FindFrom(s, pat, p + 1, p');
    }
  }

  /** With nothing more to be seen, what was framed so far is what a scan at once frames. */
  lemma SyncComplete(s: Wire, done: seq<Window>, p: nat)
    requires Sync(s, done, p)
    ensures done <= Frames(s, 0)
    ensures ScanAt(s, p) == NeedMoreData ==> done == Frames(s, 0)
  {
    assert s + [] == s;
    assert SyncWith(s + [], done, p);
  }

  // ---- the shape of what is framed ----

  function LastEnd(ws: seq<Window>): nat {
    if ws == [] then 0 else ws[|ws| - 1].end
  }

  predicate Placed(ws: seq<Window>, lo: nat, i: nat)
    requires i < |ws|
  {
    lo <= ws[i].begin < ws[i].end
  }

  predicate Before(ws: seq<Window>, i: nat, j: nat)
    requires i < |ws| && j < |ws|
  {
    ws[i].end <= ws[j].begin
  }

  /** Windows follow one another without overlap, from `lo` on. */
  predicate InOrder(ws: seq<Window>, lo: nat) {
    && (forall i {:trigger Placed(ws, lo, i)} | 0 <= i < |ws| :: Placed(ws, lo, i))
    && (forall i, j {:trigger Before(ws, i, j)} | 0 <= i < j < |ws| :: Before(ws, i, j))
  }

  lemma InOrderCons(w: Window, ws: seq<Window>, lo: nat)
    requires lo <= w.begin < w.end && InOrder(ws, w.end)
    ensures InOrder([w] + ws, lo)
  {
    forall i | 0 <= i < |ws| + 1 ensures Placed([w] + ws, lo, i) {
      if i > 0 { assert Placed(ws, w.end, i - 1); }
    }
    forall i, j | 0 <= i < j < |ws| + 1 ensures Before([w] + ws, i, j) {
      assert Placed(ws, w.end, j - 1);
      if i > 0 { assert Before(ws, i - 1, j - 1); }
    }
  }

  lemma InOrderFrom(ws: seq<Window>, lo: nat, lo': nat)
    requires lo' <= lo && InOrder(ws, lo)
    ensures InOrder(ws, lo')
  {
    forall i | 0 <= i < |ws| ensures Placed(ws, lo', i) {
      assert Placed(ws, lo, i);
    }
  }

  lemma InOrderAppended(ws: seq<Window>, w: Window)
    requires InOrder(ws, 0) && LastEnd(ws) <= w.begin < w.end
    ensures InOrder(ws + [w], 0)
  {
    forall i | 0 <= i <= |ws| ensures Placed(ws + [w], 0, i) {
      if i < |ws| { assert Placed(ws, 0, i); }
    }
    forall i, j | 0 <= i < j <= |ws| ensures Before(ws + [w], i, j) {
      if j < |ws| {
        assert Before(ws, i, j);
      } else if i < |ws| - 1 {
        assert Before(ws, i, |ws| - 1) && Placed(ws, 0, |ws| - 1);
      }
    }
  }

  /** What is framed of a stream: windows in order, without overlap, inside it. */
  lemma {:induction false} FramesInOrder(s: Wire, p: nat)
    ensures InOrder(Frames(s, p), p)
    ensures forall w | w in Frames(s, p) :: w.end <= |s|
    decreases |s| - p
  {
    match ScanAt(s, p)
    case NeedMoreData =>
    case Resync(next) =>
      FramesInOrder(s, next);
      InOrderFrom(Frames(s, next), next, p);
    case Message(w) =>
      FramesInOrder(s, w.end);
      InOrderCons(w, Frames(s, w.end), p);
  }
}
