/** Byte strings and the searches the C++ code makes on them (`string_view::find`, `rfind`). */
module Bytes {

  type byte = b: int | 0 <= b < 256

  type Wire = seq<byte>

  datatype Option<+T> = None | Some(value: T)

  const SOH: byte := 1
  const EQUALS: byte := 61

  function Max(a: int, b: int): int {
    if a < b then b else a
  }

  function Concat(chunks: seq<Wire>): Wire {
    if chunks == [] then [] else Concat(chunks[..|chunks| - 1]) + chunks[|chunks| - 1]
  }

  /** `pat` occurs in `s` at index `i`. */
  predicate OccursAt(s: Wire, pat: Wire, i: nat) {
    i + |pat| <= |s| && s[i..i + |pat|] == pat
  }

  /** `s.find(pat, from)`: the first occurrence at or after `from`. */
  function Find(s: Wire, pat: Wire, from: nat): (r: Option<nat>)
    ensures r.Some? ==> from <= r.value && OccursAt(s, pat, r.value)
    ensures r.Some? ==> forall j: nat | from <= j < r.value :: !OccursAt(s, pat, j)
    ensures r.None? ==> forall j: nat | from <= j :: !OccursAt(s, pat, j)
    decreases |s| - from
  {
    if from + |pat| > |s| then None
    else if OccursAt(s, pat, from) then Some(from)
    else Find(s, pat, from + 1)
  }

  /** `s.find(b, from)` for a single byte. */
  function FindByte(s: Wire, b: byte, from: nat): (r: Option<nat>)
    ensures r.Some? ==> from <= r.value < |s| && s[r.value] == b
    ensures r.Some? ==> forall j: nat | from <= j < r.value :: s[j] != b
    ensures r.None? ==> forall j: nat | from <= j < |s| :: s[j] != b
    decreases |s| - from
  {
    if from >= |s| then None
    else if s[from] == b then Some(from)
    else FindByte(s, b, from + 1)
  }

  lemma FindByteIs(s: Wire, b: byte, from: nat, at: nat)
    requires from <= at < |s| && s[at] == b
    requires forall j: nat | from <= j < at :: s[j] != b
    ensures FindByte(s, b, from) == Some(at)
  {
    assert s[at] == b;
  }

  lemma OccursByte(s: Wire, pat: Wire, i: nat, k: nat)
    requires k < |pat|
    ensures OccursAt(s, pat, i) ==> i + k < |s| && s[i + k] == pat[k]
  {
    if OccursAt(s, pat, i) {
      assert s[i..i + |pat|][k] == s[i + k];
    }
  }

  lemma OccursSplit(s: Wire, a: Wire, b: Wire, i: nat)
    ensures OccursAt(s, a + b, i) <==> OccursAt(s, a, i) && OccursAt(s, b, i + |a|)
  {
    if i + |a| + |b| <= |s| {
      assert s[i..i + |a + b|] == s[i..i + |a|] + s[i + |a|..i + |a| + |b|];
      if OccursAt(s, a + b, i) {
        assert s[i..i + |a|] == (a + b)[..|a|] == a;
        assert s[i + |a|..i + |a| + |b|] == (a + b)[|a|..] == b;
      }
    }
  }
}
