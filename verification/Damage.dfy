/** Damaged messages: which damage the checksum shows, and what a session does with a damaged message. */
module Damage {
  import opened Bytes
  import opened Decimals
  import opened Wires
  import opened Lexing
  import opened Protocol
  import opened SessionSpec
  import opened SessionRuns
  import opened Draining
  import opened RecoveryPhase
  import opened Arriving
  import opened MessageStores
  import opened MessageFields
  import opened ValidatorSpec
  import opened Validators
  import opened WireRecovery
  import opened AcceptedRecovery

  /** Bytes with three digits in a checksum field behind them. */
  function Sealed(s: Wire, digits: Wire): Wire {
    s + CHECKSUM_TAG + digits + [SOH]
  }

  predicate ThreeDigits(d: Wire) {
    |d| == 3 && AllDigits(d)
  }

  lemma LastOfSealed(s: Wire, d: Wire)
    requires ThreeDigits(d)
    ensures LastTagAt(Sealed(s, d), |s|) && DigitsAt(Sealed(s, d), |s|) == d && Sealed(s, d)[..|s|] == s
  {
    var w, p := Sealed(s, d), |s|;
    assert w[p..p + 3] == CHECKSUM_TAG;
    assert w[p + 3..p + 6] == d;
    forall i | p + 3 <= i < p + 7 ensures w[i] != EQUALS {
      assert i < p + 6 ==> w[i] == d[i - (p + 3)];
    }
    forall j: nat | p < j <= |w| ensures !OccursAt(w, CHECKSUM_TAG, j) {
      OccursByte(w, CHECKSUM_TAG, j, 2);
    }
  }

  /** Whatever the bytes, the checksum fails exactly if the digits do not say their sum. */
  lemma SealFailsExactly(s: Wire, d: Wire)
    requires ThreeDigits(d)
    ensures Parse(Sealed(s, d)) == ParseFailed(10, FailedChecksum) <==> DecValue(d) != Sum(s) % 256
  {
    var w := Sealed(s, d);
    LastOfSealed(s, d);
    ChecksumFailsExactly(w);
    assert SumHolds(w, |s|) <==> DecValue(d) == Sum(s) % 256;
    forall at: nat | SumHolds(w, at) ensures at == |s| {
      assert LastTagAt(w, at) && LastTagAt(w, |s|);
    }
  }

  lemma BuildIsSealed(body: Wire)
    ensures Build(body) == Sealed(Prefix(body), Pad3(Checksum(Prefix(body))))
    ensures ThreeDigits(Pad3(Checksum(Prefix(body))))
    ensures DecValue(Pad3(Checksum(Prefix(body)))) == Sum(Prefix(body)) % 256
  {
    Pad3IsThreeDigits(Checksum(Prefix(body)));
  }

  // ---- which damage shows ----

  lemma {:induction false} SumConcat(a: Wire, b: Wire)
    ensures Sum(a + b) == Sum(a) + Sum(b)
    decreases |b|
  {
    if b == [] {
      assert a + b == a;
    } else {
      assert (a + b)[..|a + b| - 1] == a + b[..|b| - 1];
      SumConcat(a, b[..|b| - 1]);
    }
  }

  lemma SumOne(b: byte)
    ensures Sum([b]) == b
  {
    assert [b][..0] == [];
    assert Sum([b][..0]) == 0;
  }

  lemma SumAround(a: Wire, b: byte, c: Wire)
    ensures Sum(a + [b] + c) == Sum(a) + b + Sum(c)
  {
    SumConcat(a + [b], c);
    SumConcat(a, [b]);
    SumOne(b);
  }

  lemma SumOfUpdate(s: Wire, i: nat, b: byte)
    requires i < |s|
    ensures Sum(s[i := b]) == Sum(s) - s[i] + b
  {
    assert s == s[..i] + [s[i]] + s[i + 1..];
    assert s[i := b] == s[..i] + [b] + s[i + 1..];
    SumAround(s[..i], s[i], s[i + 1..]);
    SumAround(s[..i], b, s[i + 1..]);
  }

  lemma SumOfRemoval(s: Wire, i: nat)
    requires i < |s|
    ensures Sum(s[..i] + s[i + 1..]) == Sum(s) - s[i]
  {
    assert s == s[..i] + [s[i]] + s[i + 1..];
    SumAround(s[..i], s[i], s[i + 1..]);
    SumConcat(s[..i], s[i + 1..]);
  }

  lemma SealedUpdated(s: Wire, d: Wire, i: nat, b: byte)
    requires i < |s|
    ensures Sealed(s, d)[i := b] == Sealed(s[i := b], d)
  {
  }

  lemma SealedWithout(s: Wire, d: Wire, i: nat)
    requires i < |s|
    ensures Sealed(s, d)[..i] + Sealed(s, d)[i + 1..] == Sealed(s[..i] + s[i + 1..], d)
  {
  }

  /** Two numbers less than 256 apart have the same remainder only if they are equal. */
  lemma RemaindersDiffer(x: nat, y: nat)
    requires x - 256 < y < x + 256
    ensures x % 256 == y % 256 <==> x == y
  {
  }

  lemma ChangedSealShows(s: Wire, d: Wire, i: nat, b: byte, s': Wire)
    requires ThreeDigits(d) && DecValue(d) == Sum(s) % 256 && i < |s| && b != s[i] && s' == s[i := b]
    ensures Parse(Sealed(s', d)) == ParseFailed(10, FailedChecksum)
  {
    SumOfUpdate(s, i, b);
    RemaindersDiffer(Sum(s), Sum(s'));
    SealFailsExactly(s', d);
  }

  lemma LostSealShows(s: Wire, d: Wire, i: nat, s': Wire)
    requires ThreeDigits(d) && DecValue(d) == Sum(s) % 256 && i < |s| && s' == s[..i] + s[i + 1..]
    ensures Parse(Sealed(s', d)) == ParseFailed(10, FailedChecksum) <==> s[i] != 0
  {
    SumOfRemoval(s, i);
    RemaindersDiffer(Sum(s), Sum(s'));
    SealFailsExactly(s', d);
  }

  /** One byte of a built message, in front of its trailer, that is another one shows, whatever byte it is. */
  lemma ChangedByteShows(body: Wire, i: nat, b: byte)
    requires i < |Prefix(body)| && b != Prefix(body)[i]
    ensures Parse(Build(body)[i := b]) == ParseFailed(10, FailedChecksum)
  {
    BuildIsSealed(body);
    SealedUpdated(Prefix(body), Pad3(Checksum(Prefix(body))), i, b);
    ChangedSealShows(Prefix(body), Pad3(Checksum(Prefix(body))), i, b, Prefix(body)[i := b]);
  }

  /** One that got lost shows exactly if it is not zero. */
  lemma LostByteShowsExactly(body: Wire, i: nat)
    requires i < |Prefix(body)|
    ensures Parse(Build(body)[..i] + Build(body)[i + 1..]) == ParseFailed(10, FailedChecksum) <==> Prefix(body)[i] != 0
  {
    BuildIsSealed(body);
    var s := Prefix(body);
    SealedWithout(s, Pad3(Checksum(s)), i);
    LostSealShows(s, Pad3(Checksum(s)), i, s[..i] + s[i + 1..]);
  }

  /** Three other digits in the trailer show exactly if they say another number. */
  lemma OtherDigitsShowExactly(body: Wire, d: Wire)
    requires ThreeDigits(d)
    ensures Parse(Sealed(Prefix(body), d)) == ParseFailed(10, FailedChecksum)
            <==> DecValue(d) != DecValue(Pad3(Checksum(Prefix(body))))
  {
    BuildIsSealed(body);
    SealFailsExactly(Prefix(body), d);
  }

  // ---- what a session does with it ----

  /** Through the parser and the validator: a wire that does not parse is neither handled nor delivered, filed or
      answered, and the session asks for logout; from then on, whatever comes before and after it in a run, a
      Logout has been said, and nothing of it is handled. */
  lemma DamagedLogsOut(t: Tables, params: SessionParameters, s: State, es: seq<Event>, w: Wire, fs: seq<Event>)
    requires |t.header| >= 3 && Parse(w).ParseFailed?
    requires s.Ok() && CacheReads(AcceptedView(t, params), s) && !Run(AcceptedView(t, params), s, es).stopped
    ensures
      var view := AcceptedView(t, params);
      var q, r := Run(view, s, es), Run(view, s, es + [Receive(w)] + fs);
      && OnlySaid(q, Process(view, q, w), Logout, AwaitingLogout)
      && s.sent <= r.sent && SaysLogout(Said(s, r))
      && forall m: Msg :: !CameIn(view, {w}, m)
  {
    var view := AcceptedView(t, params);
    assert view(w) == ParseError;
    OffenceLogsOut(view, Run(view, s, es), w);
    OffenceShows(view, s, es, w, fs);
  }

  /** A message that parses and is not accepted is rejected by its number, or, if it is none of the session's
      business, makes it ask for logout. Either way nothing is handled, delivered, filed or expected anew. */
  lemma UnacceptedIsRefused(t: Tables, params: SessionParameters, s: State, w: Wire, all: seq<Field>)
    requires |t.header| >= 3 && Parse(w) == Fields(all) && !Accepts(t, all, params)
    requires s.Ok() && CacheReads(AcceptedView(t, params), s) && !s.stopped && RecoveryOk(s)
    ensures
      var r := Process(AcceptedView(t, params), s, w);
      if LastValue(all, 35).Some? && t.registry(LastValue(all, 35).value).Some?
         && HeaderFatal(t, all, LastValue(all, 35).value, params)
      then OnlySaid(s, r, Logout, AwaitingLogout)
      else OnlySaid(s, r, Reject(Number(LastValue(all, 34))), s.phase)
  {
    var view := AcceptedView(t, params);
    if view(w).Invalid? {
      FaultIsRejected(view, s, w);
    } else {
      OffenceLogsOut(view, s, w);
    }
  }
}
