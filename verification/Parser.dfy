/** The parser as the loop it is, proved to compute `Wires.Parse`. */
module Parsers {
  import opened Bytes
  import opened Decimals
  import opened Wires

  method AddUp(s: Wire, n: nat) returns (r: nat)
    requires n <= |s|
    ensures r == Checksum(s[..n])
  {
    var sum: nat := 0;
    for i := 0 to n
      invariant sum == Sum(s[..i])
    {
      assert s[..i + 1][..i] == s[..i];
      sum := sum + s[i];
    }
    r := sum % 256;
  }

  /** What `rest` adds behind the fields already read. */
  function Behind(done: seq<Field>, rest: Parsed): Parsed {
    match rest
    case ParseFailed(_, _) => rest
    case Fields(fs) => Fields(done + fs)
  }

  method ParseMessage(w: Wire) returns (r: Parsed)
    ensures r == Parse(w)
  {
    var found := FindLast(w, CHECKSUM_TAG, |w|);
    if found.None? {
      return ParseFailed(10, FailedChecksum);
    }
    var checksumPos := found.value;
    var digits := ChecksumDigits(w, checksumPos);
    var checksum := ParseDec(digits);
    if checksum.None? {
      return ParseFailed(10, FailedChecksum);
    }
    var computed := AddUp(w, checksumPos);
    if computed != checksum.value {
      return ParseFailed(10, FailedChecksum);
    }
    r := ReadFields(w, checksumPos);
    if r.Fields? {
      r := Fields(r.fields + [Field(10, digits)]);
    }
  }

  /** The field loop. */
  method ReadFields(w: Wire, end: nat) returns (r: Parsed)
    requires end <= |w|
    ensures r == ParseFields(w, 0, end)
  {
    var fields: seq<Field> := [];
    var pos := 0;
    while pos < end
      invariant Behind(fields, ParseFields(w, pos, end)) == ParseFields(w, 0, end)
      invariant pos <= |w|
      decreases |w| - pos
    {
      var one := ReadField(w, pos);
      if one.Bad? {
        return ParseFailed(one.tag, one.code);
      }
      ghost var rest := ParseFields(w, one.next, end);
      if rest.Fields? {
        assert fields + ([one.field] + rest.fields) == (fields + [one.field]) + rest.fields;
      }
      fields := fields + [one.field];
      pos := one.next;
    }
    r := Fields(fields);
  }

  method ReadField(w: Wire, pos: nat) returns (r: OneField)
    ensures r == ParseField(w, pos)
  {
    var equalPos := FindByte(w, EQUALS, pos);
    if equalPos.None? {
      return Bad(UNDEFINED_TAG, MalformedTag);
    }
    if equalPos.value - pos > MAX_TAG_SIZE {
      return Bad(UNDEFINED_TAG, MalformedTag);
    }
    var tag := ParseDec(w[pos..equalPos.value]);
    if tag.None? {
      return Bad(UNDEFINED_TAG, MalformedTag);
    }
    var start := equalPos.value + 1;
    var sohPos := FindByte(w, SOH, start);
    if sohPos.None? {
      return Bad(tag.value, MissingSoh);
    }
    var value := w[start..sohPos.value];
    if value == [] {
      return Bad(tag.value, MissingValue);
    }
    r := Good(Field(tag.value, value), sohPos.value + 1);
  }
}
