/** Bytes, byte classes and the text decodings the buffer relies on.

    Swift's `UInt8` becomes `uint8`; a Swift `String` produced from buffer bytes is
    modelled by the byte sequence it was decoded from, together with the condition
    under which Foundation's decoder accepts those bytes. */
module Bytes {

  newtype uint8 = x: int | 0 <= x < 0x100

  datatype Option<+T> = None | Some(value: T)

  /** Byte values named by the ISO/IEC 8211 record layout and by the decoders. */
  const NUL: uint8 := 0x00
  const FIELD_TERMINATOR: uint8 := 0x1E
  const UNIT_TERMINATOR: uint8 := 0x1F
  const SPACE: uint8 := 0x20
  const ZERO: uint8 := 0x30

  /** `UInt8.isAlpha`: the ASCII letters 'a'...'z' and 'A'...'Z'. */
  predicate IsAlpha(b: uint8)
    ensures IsAlpha(b) ==> b < 0x80
  {
    (0x61 <= b <= 0x7A) || (0x41 <= b <= 0x5A)
  }

  /** `UInt8.isDigit`: the ASCII digits '0'...'9'. */
  predicate IsDigit(b: uint8)
    ensures IsDigit(b) ==> b < 0x80 && !IsAlpha(b)
  {
    0x30 <= b <= 0x39
  }

  /** The numeric value of an ASCII digit. */
  function DigitValue(b: uint8): (d: nat)
    requires IsDigit(b)
    ensures d <= 9 && b as int == ZERO as int + d
  {
    b as int - ZERO as int
  }

  predicate AllDigits(s: seq<uint8>)
  {
    forall k :: 0 <= k < |s| ==> IsDigit(s[k])
  }

  /** Foundation's `.ascii` decoding succeeds exactly on 7-bit bytes. */
  predicate IsAscii(s: seq<uint8>)
  {
    forall k :: 0 <= k < |s| ==> s[k] < 0x80
  }

  /** `Array.asUTF8String(length:)`, and `asUTF8String()` with the whole length:
      the first `length` bytes decoded as ASCII; the source force-unwraps the
      decoding, so every one of them must be below 0x80. */
  function AsciiString(a: seq<uint8>, length: int): (r: seq<uint8>)
    requires 0 <= length <= |a| && IsAscii(a[..length])
    ensures r == a[..length] && IsAscii(r)
  {
    a[..length]
  }

  predicate IsContinuation(b: uint8)
  {
    0x80 <= b <= 0xBF
  }

  /** Length of the well-formed UTF-8 sequence that starts `s` (Table 3-7 of the
      Unicode Standard, as restated in section 4 of RFC 3629), or 0 when the
      leading bytes are ill-formed. */
  function Utf8SequenceLength(s: seq<uint8>): (n: nat)
    requires s != []
    ensures n <= |s| && n <= 4
    ensures n == 1 <==> s[0] < 0x80
  {
    var b := s[0];
    if b < 0x80 then 1
    else if 0xC2 <= b <= 0xDF then
      if |s| >= 2 && IsContinuation(s[1]) then 2 else 0
    else if 0xE0 <= b <= 0xEF then
      var lo: uint8 := if b == 0xE0 then 0xA0 else 0x80;
      var hi: uint8 := if b == 0xED then 0x9F else 0xBF;
      if |s| >= 3 && lo <= s[1] <= hi && IsContinuation(s[2]) then 3 else 0
    else if 0xF0 <= b <= 0xF4 then
      var lo: uint8 := if b == 0xF0 then 0x90 else 0x80;
      var hi: uint8 := if b == 0xF4 then 0x8F else 0xBF;
      if |s| >= 4 && lo <= s[1] <= hi && IsContinuation(s[2]) && IsContinuation(s[3]) then 4 else 0
    else 0
  }

  /** Foundation's `.utf8` decoding succeeds exactly on well-formed UTF-8. It
      accepts more than the `.ascii` decoding: the two bytes 0xC3 0xA9 are
      well-formed UTF-8 but not ASCII. */
  predicate ValidUtf8(s: seq<uint8>)
    decreases |s|
  {
    s == [] || (Utf8SequenceLength(s) > 0 && ValidUtf8(s[Utf8SequenceLength(s)..]))
  }

  /** Every byte sequence the ASCII decoder accepts, the UTF-8 decoder accepts too. */
  lemma {:induction false} AsciiIsValidUtf8(s: seq<uint8>)
    requires IsAscii(s)
    ensures ValidUtf8(s)
    decreases |s|
  {
    if s != [] {
      assert Utf8SequenceLength(s) == 1;
      assert IsAscii(s[1..]) by {
        forall k | 0 <= k < |s[1..]| ensures s[1..][k] < 0x80 {
          assert s[1..][k] == s[k + 1];
        }
      }
      AsciiIsValidUtf8(s[1..]);
    }
  }

  /** A byte the alphanumeric check accepts. */
  predicate IsAlphaNumericOrSpace(b: uint8)
  {
    IsAlpha(b) || IsDigit(b) || b == SPACE
  }
}
