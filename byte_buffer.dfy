/** The `ByteBuffer` struct: a byte sequence with a read cursor, used to decode
    ISO/IEC 8211 (S-57) records.

    The struct is a Swift value type whose `mutating` methods update its two
    fields; it is modelled as a class whose methods modify `buffer` or `index` and
    say what the new value is. Non-mutating members are functions reading `this`
    (or methods, where they call the stripping loop). A Swift trap (an index out of
    range, a reversed range, a force-unwrapped ASCII decoding) is a precondition. */
module ByteBuffers {
  import opened Bytes
  import opened Decimal
  import opened Delimiters

  class ByteBuffer {
    /** The stored bytes. */
    var buffer: seq<uint8>
    /** The cursor of the sequential API; random-access readers ignore it. */
    var index: int

    /** `init()`: an empty buffer. */
    constructor ()
      ensures buffer == [] && index == 0
    {
      buffer := [];
      index := 0;
    }

    /** `init(slice:)`, `init(buffer:)` on a byte array, and `init(array:)`. */
    constructor FromBytes(bytes: seq<uint8>)
      ensures buffer == bytes && index == 0
    {
      buffer := bytes;
      index := 0;
    }

    /** `init(byteBuffer:)`: the other buffer's bytes, but not its cursor. */
    constructor FromByteBuffer(other: ByteBuffer)
      ensures buffer == other.buffer && index == 0
    {
      buffer := other.buffer;
      index := 0;
    }

    /** `init(length:)`: `length` zero bytes (a negative count traps). */
    constructor Zeroed(length: int)
      requires length >= 0
      ensures |buffer| == length && index == 0
      ensures forall k :: 0 <= k < length ==> buffer[k] == NUL
    {
      buffer := seq(length, _ => NUL);
      index := 0;
    }

    method Append(b: uint8)
      modifies this`buffer
      ensures buffer == old(buffer) + [b]
    {
      buffer := buffer + [b];
    }

    // -------------------------------------------------------------------------
    // Random-access readers: explicit positions, the cursor is not involved

    /** `byte(at:)`: 0 on an empty buffer, otherwise the stored byte. */
    function ByteAt(i: int): (b: uint8)
      reads this
      requires buffer == [] || 0 <= i < |buffer|
      ensures buffer == [] ==> b == 0
      ensures buffer != [] ==> b == buffer[i]
    {
      if buffer == [] then 0 else buffer[i]
    }

    /** `bytes(at:count:)`: the closed range `i...i+count`, so `count + 1` bytes,
        each the byte `ByteAt` gives; empty when the buffer is empty or the range
        ends past the buffer. An end equal to the length passes the guard and traps. */
    function BytesAt(i: int, count: int): (r: seq<uint8>)
      reads this
      requires buffer != [] && i + count <= |buffer| ==> 0 <= i && 0 <= count && i + count < |buffer|
      ensures r != [] <==> buffer != [] && i + count <= |buffer|
      ensures r != [] ==> |r| == count + 1 && forall k :: 0 <= k <= count ==> r[k] == ByteAt(i + k)
    {
      if buffer == [] then []
      else if i + count > |buffer| then []
      else buffer[i..i + count + 1]
    }

    /** `string(at:length:)`: present only when `i + length` is strictly below the
        length, and then the `length` bytes at `i` followed by a NUL byte. */
    function StringAt(i: int, length: int): (r: Option<seq<uint8>>)
      reads this
      requires i + length < |buffer| ==> 0 <= i && 0 <= length && IsAscii(buffer[i..i + length])
      ensures r.Some? <==> i + length < |buffer|
      ensures r.Some? ==> |r.value| == length + 1 && r.value[..length] == buffer[i..i + length]
      ensures r.Some? ==> r.value[length] == NUL
    {
      if i + length < |buffer| then
        var sub := buffer[i..i + length] + [NUL];
        assert sub[..length] == buffer[i..i + length];
        Some(AsciiString(sub, |sub|))
      else None
    }

    /** `int(at:)`: the numeric value of the byte `byte(at:)` reads; never nil. */
    function IntAt(i: int): (r: Option<int>)
      reads this
      requires buffer == [] || 0 <= i < |buffer|
      ensures r.Some? && 0 <= r.value < 0x100
      ensures r.value == ByteAt(i) as int
    {
      Some(ByteAt(i) as int)
    }

    /** `int(at:length:)`: nil exactly when `string(at:length:)` is, otherwise the
        value of the leading decimal digits of the field (the NUL ends them). */
    function IntAtLength(i: int, length: int): (r: Option<int>)
      reads this
      requires i + length < |buffer| ==> 0 <= i && 0 <= length && IsAscii(buffer[i..i + length])
      ensures r.None? <==> StringAt(i, length).None?
      ensures r.Some? ==> r.value == LeadingDigitsValue(buffer[i..i + length])
    {
      match StringAt(i, length)
      case None => None
      case Some(s) =>
        assert s == buffer[i..i + length] + [NUL];
        LeadingDigitsIgnoreTerminator(buffer[i..i + length], NUL);
        Some(LeadingDigitsValue(s))
    }

    /** `isAlphaNumeric()`: every byte is an ASCII letter, digit or space (the
        ASCII decoding that guards the check never fails on such bytes). */
    function IsAlphaNumeric(): (r: bool)
      reads this
      ensures r <==> forall k :: 0 <= k < |buffer| ==> IsAlphaNumericOrSpace(buffer[k])
    {
      IsAscii(buffer) && forall k :: 0 <= k < |buffer| ==> IsAlphaNumericOrSpace(buffer[k])
    }

    /** `getUInt8(offset:)`: the stored byte, on a position that must exist. */
    function GetUInt8At(offset: int): (b: uint8)
      reads this
      requires 0 <= offset < |buffer|
      ensures b == ByteAt(offset)
    {
      buffer[offset]
    }

    /** `getString(offset:size:)`: the closed range `offset...offset+size` decoded
        whole, so the `size + 1` bytes `bytes(at:count:)` returns. */
    function GetStringAt(offset: int, size: int): (r: seq<uint8>)
      reads this
      requires 0 <= offset && 0 <= size && offset + size < |buffer|
      requires IsAscii(buffer[offset..offset + size + 1])
      ensures |r| == size + 1 && r == BytesAt(offset, size)
    {
      var sub := buffer[offset..offset + size + 1];
      AsciiString(sub, |sub|)
    }

    /** `getString(array:size:)`: empty for an empty array, otherwise its first
        `size` bytes. */
    function GetStringOfArray(bytes: seq<uint8>, size: int): (r: seq<uint8>)
      requires bytes != [] ==> 0 <= size <= |bytes| && IsAscii(bytes[..size])
      ensures bytes == [] ==> r == []
      ensures bytes != [] ==> |r| == size && bytes == r + bytes[size..]
    {
      if bytes == [] then [] else AsciiString(bytes, size)
    }

    /** `getString(byteBuffer:size:)`: the same read on another buffer's bytes. */
    function GetStringOfBuffer(other: ByteBuffer, size: int): (r: seq<uint8>)
      reads other
      requires other.buffer != [] ==> 0 <= size <= |other.buffer| && IsAscii(other.buffer[..size])
      ensures r == GetStringOfArray(other.buffer, size)
    {
      if other.buffer == [] then [] else AsciiString(other.buffer, size)
    }

    /** `getString(array:offset:size:)`: empty for an empty array or an offset past
        its end, otherwise the closed range `offset...offset+size` (`size + 1`
        bytes); an offset equal to the length passes the guard and traps. */
    function GetStringOfArrayAt(bytes: seq<uint8>, offset: int, size: int): (r: seq<uint8>)
      requires bytes != [] && offset <= |bytes| ==>
                 0 <= offset && 0 <= size && offset + size < |bytes| && IsAscii(bytes[offset..offset + size + 1])
      ensures bytes == [] || offset > |bytes| ==> r == []
      ensures bytes != [] && offset <= |bytes| ==>
                |r| == size + 1 && bytes == bytes[..offset] + r + bytes[offset + size + 1..]
    {
      if bytes == [] then []
      else if offset > |bytes| then []
      else
        var sub := bytes[offset..offset + size + 1];
        AsciiString(sub, |sub|)
    }

    /** `getString(byteBuffer:offset:size:)`: the same read on another buffer's
        bytes, but without the offset guard, so an offset past the end traps. */
    function GetStringOfBufferAt(other: ByteBuffer, offset: int, size: int): (r: seq<uint8>)
      reads other
      requires other.buffer != [] ==>
                 0 <= offset && 0 <= size && offset + size < |other.buffer| &&
                 IsAscii(other.buffer[offset..offset + size + 1])
      ensures r == GetStringOfArrayAt(other.buffer, offset, size)
    {
      if other.buffer == [] then []
      else
        var sub := other.buffer[offset..offset + size + 1];
        AsciiString(sub, |sub|)
    }

    /** `getUInt8Array()`: the stored bytes. */
    function GetUInt8Array(): (r: seq<uint8>)
      reads this
      ensures |r| == |buffer| && forall k :: 0 <= k < |r| ==> r[k] == GetUInt8At(k)
    {
      buffer
    }

    /** `getUInt8Array(array:offset:)`: the bytes from `offset` to the end; empty
        past the end (a negative offset traps). */
    function GetUInt8ArrayOf(bytes: seq<uint8>, offset: int): (r: seq<uint8>)
      requires offset <= |bytes| ==> 0 <= offset
      ensures offset > |bytes| ==> r == []
      ensures offset <= |bytes| ==> bytes == bytes[..offset] + r
    {
      if offset > |bytes| then [] else bytes[offset..]
    }

    /** `getUInt8Array(offset:)`: the same on the stored bytes. */
    function GetUInt8ArrayFrom(offset: int): (r: seq<uint8>)
      reads this
      requires offset <= |buffer| ==> 0 <= offset
      ensures r == GetUInt8ArrayOf(buffer, offset)
    {
      if offset > |buffer| then [] else buffer[offset..]
    }

    /** `substring(from:length:)`: exactly the `length` bytes at `from` when they
        lie in a non-empty buffer and decode as UTF-8; empty otherwise. */
    function Substring(from: int, length: int): (r: seq<uint8>)
      reads this
      requires buffer != [] && from + length <= |buffer| ==> 0 <= from && 0 <= length
      ensures buffer != [] && from + length <= |buffer| && ValidUtf8(buffer[from..from + length]) ==>
                r == buffer[from..from + length]
      ensures !(buffer != [] && from + length <= |buffer| && ValidUtf8(buffer[from..from + length])) ==>
                r == []
    {
      if buffer == [] then []
      else if from + length > |buffer| then []
      else
        var sub := buffer[from..from + length];
        if ValidUtf8(sub) then sub else []
    }

    /** `substring(from:)`: the bytes from `from` to the end when they decode as
        UTF-8, empty otherwise; the same as `substring(from:length:)` with the
        remaining length. */
    function SubstringFrom(from: int): (r: seq<uint8>)
      reads this
      requires buffer != [] && from <= |buffer| ==> 0 <= from
      ensures r != [] ==> 0 <= from <= |buffer| && ValidUtf8(r) && buffer == buffer[..from] + r
      ensures 0 <= from <= |buffer| ==> r == Substring(from, |buffer| - from)
    {
      if buffer == [] then []
      else if from > |buffer| then []
      else
        var sub := buffer[from..];
        assert sub == buffer[from..from + (|buffer| - from)];
        if ValidUtf8(sub) then sub else []
    }

    /** `isValidHeader()`: leader position 5 (interchange level) is '1', '2' or
        '3', position 6 (leader identifier) is 'L', and position 8 is '1' or a
        space. An empty buffer reads 0 everywhere and is not a valid leader. */
    function IsValidHeader(): (r: bool)
      reads this
      requires buffer == [] || |buffer| > 8
      ensures r <==> buffer != [] && buffer[5] in {0x31, 0x32, 0x33} && buffer[6] == 0x4C &&
                     buffer[8] in {0x31, SPACE}
    {
      var five, six, eight := IntAt(5).value, IntAt(6).value, IntAt(8).value;
      if five != 49 && five != 50 && five != 51 then false
      else if six != 76 then false
      else if eight != 49 && eight != 32 then false
      else true
    }

    // -------------------------------------------------------------------------
    // Delimiter scanners

    /** `fetchArray(maximumLength:firstDelimiter:secondDelimiter:)`: scans from the
        start for either terminator, passing at most `maximumLength - 1` bytes.
        Returns the bytes before the stop and the count consumed, which also counts
        the terminator when the scan stopped on one. The scan traps when it runs
        off the bytes, so a terminator must exist or the limit lie inside them. */
    method FetchArray(maximumLength: int, firstDelimiter: uint8, secondDelimiter: uint8)
      returns (consumed: int, field: seq<uint8>)
      requires maximumLength <= |buffer| || HasDelimiter(buffer, firstDelimiter, secondDelimiter)
      ensures StopsAt(buffer, maximumLength - 1, firstDelimiter, secondDelimiter, |field|)
      ensures |field| == ScanEnd(buffer, maximumLength - 1, firstDelimiter, secondDelimiter)
      ensures field == buffer[..|field|]
      ensures consumed == |field| || consumed == |field| + 1
      ensures consumed == |field| + 1 <==>
                0 < maximumLength && |field| < |buffer| &&
                IsDelimiter(buffer[|field|], firstDelimiter, secondDelimiter)
    {
      var i := 0;
      while i < maximumLength - 1 && buffer[i] != firstDelimiter && buffer[i] != secondDelimiter
        invariant 0 <= i <= |buffer| && i <= Clamp(maximumLength - 1)
        invariant forall k :: 0 <= k < i ==> !IsDelimiter(buffer[k], firstDelimiter, secondDelimiter)
        decreases maximumLength - i
      {
        i := i + 1;
      }
      consumed := i;
      if i < maximumLength && (buffer[i] == firstDelimiter || buffer[i] == secondDelimiter) {
        consumed := consumed + 1;
      }
      field := buffer[..i];
      ScanEndStopsAt(buffer, maximumLength - 1, firstDelimiter, secondDelimiter, i);
    }

    /** `variableLength(maximumLength:delimiter:)`: the same scan for one
        terminator; returns where it stopped. It traps when it runs off the bytes
        before reaching the limit. */
    method VariableLength(maximumLength: int, delimiter: uint8) returns (length: int)
      requires maximumLength - 1 <= |buffer| || HasDelimiter(buffer, delimiter, delimiter)
      ensures StopsAt(buffer, maximumLength - 1, delimiter, delimiter, length)
      ensures length == ScanEnd(buffer, maximumLength - 1, delimiter, delimiter)
    {
      var i := 0;
      while i < maximumLength - 1 && buffer[i] != delimiter
        invariant 0 <= i <= |buffer| && i <= Clamp(maximumLength - 1)
        invariant forall k :: 0 <= k < i ==> buffer[k] != delimiter
        decreases maximumLength - i
      {
        i := i + 1;
      }
      length := i;
      ScanEndStopsAt(buffer, maximumLength - 1, delimiter, delimiter, i);
    }

    // -------------------------------------------------------------------------
    // The cursor

    /** `skip(offset:)`: moves the cursor, unchecked. */
    method Skip(offset: int)
      modifies this`index
      ensures index == old(index) + offset
    {
      index := index + offset;
    }

    /** `getUInt8()`: the byte under the cursor, which then moves past it; 0 and no
        move on an empty buffer. */
    method GetUInt8() returns (b: uint8)
      requires buffer != [] ==> 0 <= index < |buffer|
      modifies this`index
      ensures buffer == [] ==> b == 0 && index == old(index)
      ensures buffer != [] ==> b == buffer[old(index)] && index == old(index) + 1
    {
      if |buffer| > 0 {
        b := buffer[index];
        index := index + 1;
        return;
      }
      b := 0;
    }

    /** `getString(size:)`: the `size` bytes under the cursor, which then moves past
        them; empty and no move when they would run past the end. The slice is the
        closed range `index...index+size`, so a read ending exactly at the end of
        the buffer passes the guard and traps. */
    method GetString(size: int) returns (s: seq<uint8>)
      requires index + size <= |buffer| ==>
                 0 <= index && 0 <= size && index + size < |buffer| && IsAscii(buffer[index..index + size])
      modifies this`index
      ensures old(index) + size > |buffer| ==> s == [] && index == old(index)
      ensures old(index) + size <= |buffer| ==>
                s == buffer[old(index)..old(index) + size] && index == old(index) + size
    {
      if index + size > |buffer| {
        return [];
      }
      var window := buffer[index..index + size + 1];
      assert window[..size] == buffer[index..index + size];
      s := AsciiString(window, size);
      index := index + size;
    }

    /** `stripLeadingZeros(source:)`: the loop keeps every byte other than '0', and
        a '0' only once `firstNonZero`, the index of the last non-'0' byte seen,
        is not 0. */
    method StripLeadingZeros(source: seq<uint8>) returns (result: seq<uint8>)
      ensures result == Stripped(source)
    {
      result := [];
      var firstNonZero := 0;
      for i := 0 to |source|
        invariant result == StrippedPrefix(source, i)
        invariant firstNonZero != 0 <==> exists j :: 1 <= j < i && source[j] != ZERO
      {
        if source[i] == ZERO {
          if firstNonZero == 0 {
            continue;
          } else {
            result := result + [source[i]];
          }
        } else {
          firstNonZero := i;
          result := result + [source[i]];
        }
      }
    }

    /** `getInteger(array:offset:size:)`: the field at `offset`, stripped and parsed
        as a decimal number; None where the source's force-unwrapped parse fails, and
        on signed, grouped or fractional text, which the parse here does not read. */
    method GetInteger(bytes: seq<uint8>, offset: int, size: int) returns (r: Option<int>)
      requires 0 <= offset && 0 <= size && offset + size <= |bytes|
      requires IsAscii(bytes[offset..offset + size])
      ensures r == FieldValue(bytes[offset..offset + size])
    {
      var subArray := bytes[offset..offset + size];
      StrippedKeepsAscii(subArray);
      subArray := StripLeadingZeros(subArray);
      var s := AsciiString(subArray, |subArray|);
      assert s == subArray;
      r := ParseDecimal(s);
    }

    /** `decodeInteger(size:)`: the field under the cursor, decoded by
        `getInteger`, and the cursor moves past it; 0 and no move on an empty
        buffer. Where the parse fails (the source traps) the cursor stays. */
    method DecodeInteger(size: int) returns (r: Option<int>)
      requires buffer != [] ==>
                 0 <= index && 0 <= size && index + size <= |buffer| && IsAscii(buffer[index..index + size])
      modifies this`index
      ensures buffer == [] ==> r == Some(0) && index == old(index)
      ensures buffer != [] ==> r == FieldValue(buffer[old(index)..old(index) + size])
      ensures r.Some? && buffer != [] ==> index == old(index) + size
      ensures r.None? ==> index == old(index)
    {
      if buffer == [] {
        return Some(0);
      }
      r := GetInteger(buffer, index, size);
      if r.Some? {
        index := index + size;
      }
    }

    /** `decodeInteger(offset:size:)`: the same decoding at an explicit offset. */
    method DecodeIntegerAt(offset: int, size: int) returns (r: Option<int>)
      requires buffer != [] ==>
                 0 <= offset && 0 <= size && offset + size <= |buffer| && IsAscii(buffer[offset..offset + size])
      ensures buffer == [] ==> r == Some(0)
      ensures buffer != [] ==> r == FieldValue(buffer[offset..offset + size])
    {
      if buffer == [] {
        return Some(0);
      }
      r := GetInteger(buffer, offset, size);
    }

    /** `rewind()`: the cursor back to the start. */
    method Rewind()
      modifies this`index
      ensures index == 0
    {
      index := 0;
    }

    /** `position()`: where the cursor is. */
    function Position(): (p: int)
      reads this
      ensures p == index
    {
      index
    }

    /** `gotoPosition(newPosition:)`: moves the cursor, unchecked. */
    method GotoPosition(newPosition: int)
      modifies this`index
      ensures index == newPosition
    {
      index := newPosition;
    }
  }

  // ---------------------------------------------------------------------------
  // Relations between the readers

  /** When `string(at:length:)` succeeds, it is `substring(from:length:)` with a
      NUL terminator: ASCII bytes always decode as UTF-8. */
  lemma StringAtIsTerminatedSubstring(b: ByteBuffer, i: int, length: int)
    requires 0 <= i && 0 <= length && i + length < |b.buffer|
    requires IsAscii(b.buffer[i..i + length])
    ensures b.StringAt(i, length) == Some(b.Substring(i, length) + [NUL])
  {
    AsciiIsValidUtf8(b.buffer[i..i + length]);
    var s := b.StringAt(i, length).value;
    assert s == s[..length] + [s[length]];
  }

  /** A zero-padded decimal field followed by at least one more byte reads back
      through `int(at:length:)` as the number written into it. */
  lemma IntAtLengthReadsPaddedField(b: ByteBuffer, i: int, n: nat, width: nat)
    requires 0 <= i && i + width < |b.buffer|
    requires n < Pow10(width) && b.buffer[i..i + width] == EncodeDecimal(n, width)
    ensures b.IntAtLength(i, width) == Some(n)
  {
    var field := EncodeDecimal(n, width);
    LeadingDigitsOfDigits(field);
    EncodeDecimalValue(n, width);
  }

  /** A leader is recognised by its positions 5, 6 and 8; letters, digits and
      spaces are alphanumeric, '#' is not. */
  method HeaderAndTextExamples()
  {
    var leader := new ByteBuffer.FromBytes([0x30, 0x30, 0x32, 0x34, 0x31, 0x32, 0x4C, 0x20, 0x20, 0x30, 0x36]);
    assert leader.IsValidHeader();
    var notLeader := new ByteBuffer.FromBytes([0x30, 0x30, 0x32, 0x34, 0x31, 0x32, 0x58, 0x20, 0x20, 0x30, 0x36]);
    assert !notLeader.IsValidHeader();
    var empty := new ByteBuffer();
    assert !empty.IsValidHeader() && empty.IsAlphaNumeric();

    var text := new ByteBuffer.FromBytes([0x41, 0x42, 0x43, SPACE, 0x31, 0x32, 0x33]);
    assert text.IsAlphaNumeric();
    var symbols := new ByteBuffer.FromBytes([0x41, 0x42, 0x23, 0x31]);
    assert !IsAlphaNumericOrSpace(symbols.buffer[2]);
    assert !symbols.IsAlphaNumeric();
  }

  /** The scanners stop on the field terminator. */
  method ScannerExamples()
  {
    var record := new ByteBuffer.FromBytes([0x41, 0x42, 0x43, FIELD_TERMINATOR, 0x78, 0x79, 0x7A]);
    assert IsDelimiter(record.buffer[3], FIELD_TERMINATOR, UNIT_TERMINATOR);
    var consumed, field := record.FetchArray(10, FIELD_TERMINATOR, UNIT_TERMINATOR);
    assert consumed == 4 && field == [0x41, 0x42, 0x43];

    var short := new ByteBuffer.FromBytes([0x41, 0x42, FIELD_TERMINATOR]);
    assert IsDelimiter(short.buffer[2], FIELD_TERMINATOR, FIELD_TERMINATOR);
    var length := short.VariableLength(5, FIELD_TERMINATOR);
    assert length == 2;
  }

  /** `decodeInteger` reads "0042" as 42 and moves past it. */
  method DecodeExample()
  {
    var number := new ByteBuffer.FromBytes([0x30, 0x30, 0x34, 0x32]);
    assert number.buffer[0..4] == [0x30, 0x30, 0x34, 0x32];
    GetIntegerExample();
    var value := number.DecodeInteger(4);
    assert value == Some(42) && number.index == 4;
  }

  /** Sequential string reads on eight bytes: two reads of three succeed, and a
      third, which would pass the end, returns nothing and does not move. */
  method SequentialReadExample()
  {
    var eight := new ByteBuffer.FromBytes([0x41, 0x42, 0x43, 0x44, 0x45, 0x46, 0x47, 0x48]);
    var first := eight.GetString(3);
    assert first == [0x41, 0x42, 0x43] && eight.index == 3;
    var second := eight.GetString(3);
    assert second == [0x44, 0x45, 0x46] && eight.index == 6;
    var third := eight.GetString(3);
    assert third == [] && eight.index == 6;
  }
}
