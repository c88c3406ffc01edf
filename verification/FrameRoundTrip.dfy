/** What is built and sent back to back is framed back, and each message parses to its fields. */
module FrameRoundTrip {
  import opened Bytes
  import opened Decimals
  import opened Framing
  import opened Wires
  import opened Reader

  function BuildAll(bodies: seq<Wire>): Wire {
    if bodies == [] then [] else Build(bodies[0]) + BuildAll(bodies[1..])
  }

  function WindowsOf(bodies: seq<Wire>, p: nat): (ws: seq<Window>)
    ensures |ws| == |bodies|
  {
    if bodies == [] then []
    else [Window(p, p + |Build(bodies[0])|)] + WindowsOf(bodies[1..], p + |Build(bodies[0])|)
  }

  /** The header of a built message says where it ends. */
  lemma HeadOfBuild(s: Wire, p: nat, body: Wire)
    requires OccursAt(s, Build(body), p) && |body| <= MAX_MESSAGE_SIZE
    ensures OccursAt(s, BEGIN, p)
    ensures HeadAt(s, p) == Ends(p + |Build(body)|)
  {
    var n := |body|;
    OccursSplit(s, Prefix(body), Trailer(Prefix(body)), p);
    OccursSplit(s, BEGIN + LengthPart(n), body, p);
    OccursSplit(s, BEGIN, LengthPart(n), p);
    LengthRead(s, p + |BEGIN|, n);
    Pad3IsThreeDigits(Checksum(Prefix(body)));
  }

  lemma LengthRead(s: Wire, h: nat, n: nat)
    requires OccursAt(s, LengthPart(n), h)
    ensures h + 2 <= |s| && s[h] == 57 && s[h + 1] == EQUALS
    ensures FindByte(s, SOH, h + 2) == Some(h + 2 + |Dec(n)|)
    ensures ParseDec(s[h + 2..h + 2 + |Dec(n)|]) == Some(n)
  {
    OccursSplit(s, LENGTH_TAG, Dec(n) + [SOH], h);
    OccursByte(s, LENGTH_TAG, h, 0);
    OccursByte(s, LENGTH_TAG, h, 1);
    DecHas(n, SOH);
    FindAfter(s, Dec(n), SOH, h + 2);
    OccursSplit(s, Dec(n), [SOH], h + 2);
    ParseDecOfDec(n);
  }

  lemma ScanOfBuild(s: Wire, p: nat, body: Wire)
    requires OccursAt(s, Build(body), p) && |body| <= MAX_MESSAGE_SIZE
    ensures ScanAt(s, p) == Message(Window(p, p + |Build(body)|))
  {
    HeadOfBuild(s, p, body);
    assert Find(s, BEGIN, p) == Some(p);
  }

  lemma {:induction false} FramesOfBuildAll(s: Wire, p: nat, bodies: seq<Wire>)
    requires OccursAt(s, BuildAll(bodies), p) && p + |BuildAll(bodies)| == |s|
    requires forall b | b in bodies :: |b| <= MAX_MESSAGE_SIZE
    ensures Frames(s, p) == WindowsOf(bodies, p)
    decreases |bodies|
  {
    if bodies == [] {
    } else {
      var b := bodies[0];
      OccursSplit(s, Build(b), BuildAll(bodies[1..]), p);
      ScanOfBuild(s, p, b);
      FramesOfBuildAll(s, p + |Build(b)|, bodies[1..]);
    }
  }

  ghost predicate Holds(s: Wire, w: Window, body: Wire) {
    w.begin <= w.end <= |s| && s[w.begin..w.end] == Build(body)
  }

  lemma {:induction false} SlicesOfBuildAll(s: Wire, p: nat, bodies: seq<Wire>, i: nat)
    requires OccursAt(s, BuildAll(bodies), p) && i < |bodies|
    ensures Holds(s, WindowsOf(bodies, p)[i], bodies[i])
    decreases |bodies|
  {
    OccursSplit(s, Build(bodies[0]), BuildAll(bodies[1..]), p);
    if i > 0 {
      SlicesOfBuildAll(s, p + |Build(bodies[0])|, bodies[1..], i - 1);
      assert WindowsOf(bodies, p)[i] == WindowsOf(bodies[1..], p + |Build(bodies[0])|)[i - 1];
    }
  }

  /** Framing a stream of built messages, bodies of at most 1 MiB, gives exactly these messages back,
      and each of them parses to its fields. */
  lemma BuiltStreamFramesAndParses(messages: seq<seq<Field>>, bodies: seq<Wire>)
    requires |bodies| == |messages|
    requires forall i | 0 <= i < |messages| ::
      FieldsOk(messages[i]) && bodies[i] == Encode(messages[i]) && |bodies[i]| <= MAX_MESSAGE_SIZE
    ensures
      var s := BuildAll(bodies);
      && Inside(s, Frames(s, 0)) && |Frames(s, 0)| == |messages|
      && forall i | 0 <= i < |messages| ::
           && Slices(s, Frames(s, 0))[i] == Build(bodies[i])
           && Parse(Slices(s, Frames(s, 0))[i]) == Fields(AllFields(messages[i]))
  {
    var s := BuildAll(bodies);
    assert s[0..|s|] == s;
    FramesOfBuildAll(s, 0, bodies);
    forall i | 0 <= i < |messages|
      ensures Holds(s, Frames(s, 0)[i], bodies[i]) && Parse(Build(bodies[i])) == Fields(AllFields(messages[i]))
    {
      SlicesOfBuildAll(s, 0, bodies, i);
      ParseOfBuild(messages[i]);
    }
  }
}
