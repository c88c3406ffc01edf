/** The scratch buffer messages are printed into, and the parser that reads them, in place. */
module Scratch {
  import opened Bytes
  import opened Decimals
  import opened Framing
  import opened Wires

  class FactoryScratch {
    static const MIN_GROW_SIZE: nat := 1024
    static const START_SIZE: nat := 64 * 1024
    static const PLACEHOLDER_SIZE: nat := 10

    var buffer: array<byte>
    var position: nat
    var bodyLengthOffset: nat
    var bodyLengthDigitSize: nat
    var checksumOffset: nat

    ghost predicate Valid()
      reads this, buffer
    {
      position <= buffer.Length
    }

    /** What was printed so far. */
    function View(): Wire
      reads this, buffer
      requires Valid()
    {
      buffer[..position]
    }

    constructor ()
      ensures Valid() && View() == [] && fresh(buffer)
    {
      buffer := new byte[START_SIZE];
      position, bodyLengthOffset, bodyLengthDigitSize, checksumOffset := 0, 0, PLACEHOLDER_SIZE, 0;
    }

    method Reset()
      modifies this`position, this`bodyLengthOffset, this`bodyLengthDigitSize, this`checksumOffset
      ensures Valid() && View() == [] && bodyLengthDigitSize == PLACEHOLDER_SIZE
    {
      position, bodyLengthOffset, bodyLengthDigitSize, checksumOffset := 0, 0, PLACEHOLDER_SIZE, 0;
    }

    method Grow(extra: nat)
      requires Valid()
      modifies this`buffer
      ensures Valid() && View() == old(View()) && fresh(buffer) && buffer.Length == old(buffer.Length) + extra
    {
      var newBuffer := new byte[buffer.Length + extra];
      forall i | 0 <= i < position { newBuffer[i] := buffer[i]; }
      assert newBuffer[..position] == buffer[..position];
      buffer := newBuffer;
    }

    method AddString(s: Wire)
      requires Valid()
      modifies this`buffer, this`position, buffer
      ensures Valid() && View() == old(View()) + s
      ensures buffer == old(buffer) || fresh(buffer)
    {
      if position + |s| > buffer.Length {
        var extra := position + |s| - buffer.Length;
        Grow(Max(extra, MIN_GROW_SIZE));
      }
      forall i | 0 <= i < |s| { buffer[position + i] := s[i]; }
      position := position + |s|;
      assert View() == old(View()) + s;
    }

    method AddChar(c: byte)
      requires Valid()
      modifies this`buffer, this`position, buffer
      ensures Valid() && View() == old(View()) + [c]
      ensures buffer == old(buffer) || fresh(buffer)
    {
      if position + 1 > buffer.Length {
        Grow(MIN_GROW_SIZE);
      }
      buffer[position] := c;
      position := position + 1;
    }

    method AddInt(n: int)
      requires Valid()
      modifies this`buffer, this`position, buffer
      ensures Valid() && View() == old(View()) + Signed(n)
      ensures buffer == old(buffer) || fresh(buffer)
    {
      AddString(Signed(n));
    }

    /** A field with a text for a value. */
    method AddField(tag: int, value: Wire)
      requires Valid()
      modifies this`buffer, this`position, buffer
      ensures Valid() && View() == old(View()) + (Signed(tag) + [EQUALS] + value + [SOH])
      ensures buffer == old(buffer) || fresh(buffer)
    {
      AddInt(tag);
      AddChar(EQUALS);
      AddString(value);
      AddChar(SOH);
      assert View() == old(View()) + (Signed(tag) + [EQUALS] + value + [SOH]);
    }

    /** A field with a number for a value. */
    method AddIntField(tag: int, value: int)
      requires Valid()
      modifies this`buffer, this`position, buffer
      ensures Valid() && View() == old(View()) + (Signed(tag) + [EQUALS] + Signed(value) + [SOH])
      ensures buffer == old(buffer) || fresh(buffer)
    {
      AddField(tag, Signed(value));
    }

    /** Leaves room for the digits of the body length. */
    method AddBodyLengthPlaceholder()
      requires Valid() && bodyLengthDigitSize == PLACEHOLDER_SIZE
      modifies this`buffer, this`position, this`bodyLengthOffset, buffer
      ensures Valid() && View() == old(View()) + LENGTH_TAG + Zeros(PLACEHOLDER_SIZE) + [SOH]
      ensures bodyLengthOffset == |old(View())| + |LENGTH_TAG|
      ensures buffer == old(buffer) || fresh(buffer)
    {
      AddInt(9);
      AddChar(EQUALS);
      assert Dec(9) == [57];
      assert View() == old(View()) + LENGTH_TAG;
      assert |View()| == position && |old(View())| == old(position);
      bodyLengthOffset := position;
      for i := 0 to bodyLengthDigitSize
        invariant Valid() && bodyLengthDigitSize == PLACEHOLDER_SIZE
        invariant bodyLengthOffset == |old(View())| + |LENGTH_TAG|
        invariant View() == old(View()) + LENGTH_TAG + Zeros(i)
        invariant buffer == old(buffer) || fresh(buffer)
      {
        AddChar(48);
        assert Zeros(i + 1) == Zeros(i) + [48];
      }
      AddChar(SOH);
    }

    /** The bytes behind the body length field. */
    function ComputeBodyLength(): nat
      reads this
      requires bodyLengthOffset + bodyLengthDigitSize + 1 <= position
    {
      position - (bodyLengthOffset + bodyLengthDigitSize + 1)
    }

    /** Digits put over the front of a placeholder leave what is around it. */
    lemma Overprinted(front: Wire, blank: Wire, rest: Wire, digits: Wire, was: Wire, now: Wire, dst: nat, src: nat)
      requires was == front + blank + rest && |digits| <= |blank|
      requires dst == |front| + |digits| && src == |front| + |blank|
      requires now == was[..|front|] + digits + was[dst..]
      ensures dst <= src <= |now| && now[..dst] + now[src..] == front + digits + rest
    {
      assert was[dst..] == blank[|digits|..] + rest;
    }

    /** Puts the digits of the body length where the placeholder is, and closes the rest up to them. */
    method InsertBodyLength(ghost front: Wire, ghost body: Wire)
      requires Valid() && bodyLengthDigitSize == PLACEHOLDER_SIZE && bodyLengthOffset == |front|
      requires View() == front + Zeros(PLACEHOLDER_SIZE) + [SOH] + body
      requires |body| < Pow10(PLACEHOLDER_SIZE)
      modifies this`position, this`bodyLengthDigitSize, buffer
      ensures Valid() && View() == front + Dec(|body|) + [SOH] + body
    {
      assert |View()| == position;
      var digits := Dec(ComputeBodyLength());
      DecLength(|body|, PLACEHOLDER_SIZE);
      var len := |digits|;
      var dst, src := bodyLengthOffset + len, bodyLengthOffset + bodyLengthDigitSize;
      ghost var blank, rest, was := Zeros(PLACEHOLDER_SIZE), [SOH] + body, View();
      assert was == front + blank + rest;
      EditWindow(bodyLengthOffset, len, digits);
      Overprinted(front, blank, rest, digits, was, View(), dst, src);
      CloseUp(dst, src);
      assert View() == front + digits + [SOH] + body;
      bodyLengthDigitSize := len;
    }

    /** Moves everything from `src` on down to `dst`. */
    method CloseUp(dst: nat, src: nat)
      requires Valid() && dst <= src <= position
      modifies this`position, buffer
      ensures Valid() && View() == old(View()[..dst] + View()[src..])
    {
      ghost var was := View();
      forall i | 0 <= i < position - src { buffer[dst + i] := buffer[src + i]; }
      position := position - (src - dst);
      assert View()[..dst] == was[..dst];
      assert View()[dst..] == was[src..];
    }

    /** The bytes before `checksumOffset`, added up. */
    method ComputeChecksum() returns (r: nat)
      requires Valid() && checksumOffset <= position
      ensures r == Checksum(View()[..checksumOffset])
    {
      var sum: nat := 0;
      for i := 0 to checksumOffset
        invariant sum == Sum(View()[..i])
      {
        assert View()[..i + 1][..i] == View()[..i];
        sum := sum + buffer[i];
      }
      r := sum % 256;
    }

    lemma Bracketed(before: Wire, tag: Wire, digits: Wire)
      ensures ((before + tag) + digits) + [SOH] == before + (tag + digits + [SOH])
    {
    }

    method InsertChecksum()
      requires Valid()
      modifies this`buffer, this`position, this`checksumOffset, buffer
      ensures Valid() && View() == old(View()) + Trailer(old(View()))
      ensures buffer == old(buffer) || fresh(buffer)
    {
      checksumOffset := position;
      ghost var before := View();
      var checksum := ComputeChecksum();
      assert before[..checksumOffset] == before;
      AddString([49, 48]);
      AddChar(EQUALS);
      assert View() == before + CHECKSUM_TAG;
      AddPadded(checksum);
      AddChar(SOH);
      Bracketed(before, CHECKSUM_TAG, Pad3(checksum));
    }

    /** Three digits, with leading zeros. */
    method AddPadded(n: nat)
      requires Valid() && n < 256
      modifies this`buffer, this`position, buffer
      ensures Valid() && View() == old(View()) + Pad3(n)
      ensures buffer == old(buffer) || fresh(buffer)
    {
      var digits := Dec(n);
      DecLength(n, 3);
      assert Pow10(3) == 1000;
      var len := |digits|;
      if len < 3 {
        for i := 0 to 3 - len
          invariant Valid() && View() == old(View()) + Zeros(i)
          invariant buffer == old(buffer) || fresh(buffer)
        {
          AddChar(48);
          assert Zeros(i + 1) == Zeros(i) + [48];
        }
      }
      AddString(digits);
      assert View() == old(View()) + (Zeros(3 - len) + digits);
    }

    /** Overwrites a window of what was printed with as many bytes. */
    method EditWindow(offset: nat, length: nat, newData: Wire)
      requires Valid() && |newData| == length && offset + length <= position
      modifies buffer
      ensures Valid() && View() == old(View())[..offset] + newData + old(View())[offset + length..]
    {
      ghost var was := View();
      forall i | 0 <= i < length { buffer[offset + i] := newData[i]; }
      assert View()[..offset] == was[..offset];
      assert View()[offset + length..] == was[offset + length..];
    }
  }
}
