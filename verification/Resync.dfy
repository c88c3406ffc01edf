/** Getting back in step with a stream: which bytes are skipped, and which messages are found behind them. */
module Resyncing {
  import opened Bytes
  import opened Decimals
  import opened Framing
  import opened Wires
  import opened Framers
  import opened Reader
  import opened FrameRoundTrip

  // ---- headers, told from the bytes ----

  /** Behind BEGIN at `b`: "9=" and a length of at most 1 MiB, in digits up to the SOH at `q`. */
  predicate LengthAt(s: Wire, b: nat, q: nat) {
    && b + 12 < q < |s| && s[b + 10] == 57 && s[b + 11] == 61 && s[q] == SOH
    && AllDigits(s[b + 12..q]) && DecValue(s[b + 12..q]) <= 1048576
  }

  /** Behind BEGIN at `b`: something that is no length, from "9=" to the SOH at `q`. */
  predicate NoLengthTo(s: Wire, b: nat, q: nat) {
    && b + 12 <= q < |s| && s[q] == SOH && SOH !in s[b + 12..q]
    && (q == b + 12 || !AllDigits(s[b + 12..q]) || DecValue(s[b + 12..q]) > 1048576)
  }

  /** Behind BEGIN at `b`: not "9=", or no length. */
  ghost predicate BadAt(s: Wire, b: nat) {
    && b + 12 <= |s|
    && (s[b + 10] != 57 || s[b + 11] != 61 || exists q: nat :: NoLengthTo(s, b, q))
  }

  /** BEGIN occurs at `b`, with a header that says where the message ends. */
  ghost predicate GoodAt(s: Wire, b: nat) {
    OccursAt(s, BEGIN, b) && exists q: nat :: LengthAt(s, b, q)
  }

  lemma DigitsEnd(s: Wire, lo: nat, q: nat)
    requires lo <= q < |s| && s[q] == SOH && (AllDigits(s[lo..q]) || SOH !in s[lo..q])
    ensures FindByte(s, SOH, lo) == Some(q)
  {
    forall j: nat | lo <= j < q ensures s[j] != SOH {
      assert s[lo..q][j - lo] == s[j];
    }
    FindByteIs(s, SOH, lo, q);
  }

  /** What the framer makes of a header, exactly. */
  lemma HeadExactly(s: Wire, b: nat)
    ensures HeadAt(s, b) == Malformed <==> BadAt(s, b)
    ensures forall q: nat | LengthAt(s, b, q) :: HeadAt(s, b) == Ends(q + 1 + DecValue(s[b + 12..q]) + 7)
    ensures HeadAt(s, b).Ends? <==> exists q: nat :: LengthAt(s, b, q)
  {
    forall q: nat | LengthAt(s, b, q) || NoLengthTo(s, b, q) ensures FindByte(s, SOH, b + 12) == Some(q) {
      DigitsEnd(s, b + 12, q);
    }
    if b + 12 <= |s| && s[b + 10] == 57 && s[b + 11] == 61 && FindByte(s, SOH, b + 12).Some? {
      var q := FindByte(s, SOH, b + 12).value;
      assert LengthAt(s, b, q) || NoLengthTo(s, b, q);
    }
  }

  // ---- skipping ----

  /** Headers that say no length are passed over, whatever comes behind them. */
  lemma {:induction false} BadHeadersSkipped(s: Wire, p: nat, end: nat)
    requires p <= end && forall b: nat | p <= b < end && OccursAt(s, BEGIN, b) :: BadAt(s, b)
    ensures Frames(s, p) == Frames(s, end)
    decreases end - p
  {
    var found := Find(s, BEGIN, p);
    if found.None? || found.value >= end {
      FindFrom(s, BEGIN, p, end);
      FramesFrom(s, p, end);
    } else {
      HeadExactly(s, found.value);
      BadHeadersSkipped(s, found.value + 1, end);
    }
  }

  // ---- messages behind garbage ----

  /** BEGIN does not overlap itself: where it begins, none is under way. */
  lemma BeginsApart(s: Wire, b: nat, n: nat)
    requires OccursAt(s, BEGIN, b) && OccursAt(s, BEGIN, n) && b < n
    ensures b + 10 <= n
  {
    OccursByte(s, BEGIN, n, 0);
    if n < b + 10 {
      OccursByte(s, BEGIN, b, n - b);
    }
  }

  /** A header that is cut off by the begin of the next message is a bad one. */
  lemma CutOffIsBad(s: Wire, b: nat, n: nat)
    requires OccursAt(s, BEGIN, n) && b + 10 <= n
    requires b + 12 <= n ==> s[b + 10] == 57 && s[b + 11] == 61 && SOH !in s[b + 12..n]
    ensures BadAt(s, b)
  {
    OccursByte(s, BEGIN, n, 0);
    OccursByte(s, BEGIN, n, 1);
    OccursByte(s, BEGIN, n, 9);
    if b + 12 <= n {
      forall i | b + 12 <= i < n + 9 ensures s[i] != SOH {
        if i < n {
          assert s[b + 12..n][i - (b + 12)] == s[i];
        } else {
          OccursByte(s, BEGIN, n, i - n);
        }
      }
      assert s[b + 12..n + 9][n + 1 - (b + 12)] == 61;
      assert NoLengthTo(s, b, n + 9);
    }
  }

  /** Where no good header begins in front of the next message, it is a bad one. */
  lemma NotGoodIsBad(g: Wire, t: Wire, b: nat)
    requires OccursAt(g + t, BEGIN, |g|) && OccursAt(g, BEGIN, b) && !GoodAt(g, b)
    ensures BadAt(g + t, b)
  {
    var s := g + t;
    if b + 12 > |g| || FindByte(g, SOH, b + 12).None? {
      if b + 12 <= |g| && (g[b + 10] != 57 || g[b + 11] != 61) {
        assert s[b + 10] == g[b + 10] && s[b + 11] == g[b + 11];
      } else {
        assert b + 12 <= |g| ==> s[b + 12..|g|] == g[b + 12..];
        CutOffIsBad(s, b, |g|);
      }
    } else {
      var q := FindByte(g, SOH, b + 12).value;
      assert s[b + 10] == g[b + 10] && s[b + 11] == g[b + 11];
      assert s[b + 12..q] == g[b + 12..q];
      assert !LengthAt(g, b, q);
      assert (g[b + 10] == 57 && g[b + 11] == 61) ==> NoLengthTo(s, b, q);
    }
  }

  lemma GoodExtended(g: Wire, t: Wire, b: nat)
    requires GoodAt(g, b)
    ensures GoodAt(g + t, b)
  {
    var q: nat :| LengthAt(g, b, q);
    OccursAtExtended(g, t, BEGIN, b);
    assert (g + t)[b + 12..q] == g[b + 12..q];
    assert LengthAt(g + t, b, q);
  }

  lemma AllBad(g: Wire, t: Wire, end: nat)
    requires OccursAt(g + t, BEGIN, |g|) && end <= |g| && forall b: nat | b < end :: !GoodAt(g, b)
    ensures forall b: nat | b < end && OccursAt(g + t, BEGIN, b) :: BadAt(g + t, b)
  {
    forall b: nat | b < end && OccursAt(g + t, BEGIN, b) ensures BadAt(g + t, b) {
      BeginsApart(g + t, b, |g|);
      OccursAtExtended(g, t, BEGIN, b);
      NotGoodIsBad(g, t, b);
    }
  }

  lemma OccursBehind(g: Wire, t: Wire)
    ensures OccursAt(g + t, t, |g|)
  {
  }

  lemma StreamBegins(s: Wire, n: nat, bodies: seq<Wire>)
    requires bodies != [] && |bodies[0]| <= MAX_MESSAGE_SIZE && OccursAt(s, BuildAll(bodies), n)
    ensures OccursAt(s, BEGIN, n)
  {
    OccursSplit(s, Build(bodies[0]), BuildAll(bodies[1..]), n);
    HeadOfBuild(s, n, bodies[0]);
  }

  /** Behind bytes in which no header is a good one, the messages of a stream are found. */
  lemma GarbageSkipped(g: Wire, bodies: seq<Wire>)
    requires bodies != [] && forall b | b in bodies :: |b| <= MAX_MESSAGE_SIZE
    requires forall b: nat :: !GoodAt(g, b)
    ensures Frames(g + BuildAll(bodies), 0) == WindowsOf(bodies, |g|)
  {
    var t := BuildAll(bodies);
    OccursBehind(g, t);
    StreamBegins(g + t, |g|, bodies);
    AllBad(g, t, |g|);
    BadHeadersSkipped(g + t, 0, |g|);
    FramesOfBuildAll(g + t, |g|, bodies);
  }

  /** The first good header in front of them is framed instead, or waited for. */
  lemma GoodIsFramed(s: Wire, b: nat)
    requires GoodAt(s, b) && forall c: nat | c < b && OccursAt(s, BEGIN, c) :: BadAt(s, c)
    ensures Frames(s, 0) == [] || Frames(s, 0)[0].begin == b
  {
    BadHeadersSkipped(s, 0, b);
    HeadExactly(s, b);
    assert Find(s, BEGIN, b) == Some(b);
  }

  lemma {:induction false} FirstGood(g: Wire, b: nat) returns (c: nat)
    requires GoodAt(g, b)
    ensures c <= b && GoodAt(g, c) && forall d: nat | d < c :: !GoodAt(g, d)
    decreases b
  {
    if exists d: nat :: d < b && GoodAt(g, d) {
      var d: nat :| d < b && GoodAt(g, d);
      c := FirstGood(g, d);
    } else {
      c := b;
    }
  }

  /** Messages that are sent behind other bytes are framed, all of them and nothing else, exactly if none of the
      headers in these bytes is a good one. Bytes without a header, and any number of bad or cut-off headers, are
      passed over. */
  lemma ResyncsExactly(g: Wire, bodies: seq<Wire>)
    requires bodies != [] && forall b | b in bodies :: |b| <= MAX_MESSAGE_SIZE
    ensures Frames(g + BuildAll(bodies), 0) == WindowsOf(bodies, |g|) <==> forall b: nat :: !GoodAt(g, b)
  {
    if b: nat :| GoodAt(g, b) {
      var c := FirstGood(g, b);
      var t := BuildAll(bodies);
      OccursBehind(g, t);
      StreamBegins(g + t, |g|, bodies);
      AllBad(g, t, c);
      GoodExtended(g, t, c);
      GoodIsFramed(g + t, c);
      assert WindowsOf(bodies, |g|)[0].begin == |g|;
    } else {
      GarbageSkipped(g, bodies);
    }
  }

  predicate AreBuilt(msgs: seq<Wire>, bodies: seq<Wire>) {
    |msgs| == |bodies| && forall i | 0 <= i < |bodies| :: msgs[i] == Build(bodies[i])
  }

  lemma FoundBehind(s: Wire, n: nat, bodies: seq<Wire>)
    requires OccursAt(s, BuildAll(bodies), n) && Inside(s, WindowsOf(bodies, n))
    ensures AreBuilt(Slices(s, WindowsOf(bodies, n)), bodies)
  {
    forall i | 0 <= i < |bodies| ensures Slices(s, WindowsOf(bodies, n))[i] == Build(bodies[i]) {
      SlicesOfBuildAll(s, n, bodies, i);
    }
  }

  /** The messages of a stream, from the read loop: however garbage without a good header and the messages behind
      it are cut into reads, exactly these messages are handed out. */
  method ReadBehindGarbage(chunks: seq<Wire>, ghost g: Wire, ghost bodies: seq<Wire>) returns (msgs: seq<Wire>)
    requires bodies != [] && |bodies| < QUEUE_SIZE && forall b | b in bodies :: |b| <= MAX_MESSAGE_SIZE
    requires Concat(chunks) == g + BuildAll(bodies) && forall b: nat :: !GoodAt(g, b)
    ensures AreBuilt(msgs, bodies)
  {
    GarbageSkipped(g, bodies);
    msgs := ReadAll(chunks);
    OccursBehind(g, BuildAll(bodies));
    FoundBehind(g + BuildAll(bodies), |g|, bodies);
  }
}
