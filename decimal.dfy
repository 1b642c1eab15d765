/** Decimal fields: leading-zero stripping and integer parsing.

    `Stripped` is the byte sequence that `ByteBuffer.stripLeadingZeros` returns and
    `FieldValue` the integer that `ByteBuffer.getInteger` returns for a field (None
    where the source force-unwraps a failed parse, and on signed, grouped or
    fractional text, which the parse here does not read). The lemmas state what the
    stripping does to a field, when the parse reads a zero-padded field back, and
    where it does not. */
module Decimal {
  import opened Bytes

  function Pow10(n: nat): (p: nat)
    ensures p >= 1
  {
    if n == 0 then 1 else 10 * Pow10(n - 1)
  }

  /** Value of a digit string, most significant digit first. */
  function DigitsValue(s: seq<uint8>): (v: nat)
    requires AllDigits(s)
    ensures v < Pow10(|s|)
  {
    if s == [] then 0
    else
      var v' := DigitsValue(s[..|s| - 1]);
      assert v' * 10 <= (Pow10(|s| - 1) - 1) * 10;
      v' * 10 + DigitValue(s[|s| - 1])
  }

  /** The parse `NumberFormatter` (decimal style) performs, restricted to plain
      digit strings: no value for an empty or non-numeric string. */
  function ParseDecimal(s: seq<uint8>): (r: Option<int>)
    ensures r.Some? <==> s != [] && AllDigits(s)
    ensures r.Some? ==> r.value == DigitsValue(s) && 0 <= r.value < Pow10(|s|)
  {
    if s != [] && AllDigits(s) then Some(DigitsValue(s)) else None
  }

  /** The zero-padded decimal field of width `width` holding `n` (modulo 10^width). */
  function EncodeDecimal(n: nat, width: nat): (s: seq<uint8>)
    ensures |s| == width && AllDigits(s)
  {
    if width == 0 then []
    else EncodeDecimal(n / 10, width - 1) + [(ZERO as int + n % 10) as uint8]
  }

  // ---------------------------------------------------------------------------
  // stripLeadingZeros as written

  /** Whether the stripping loop keeps `s[k]`: the loop records the index of the
      last non-'0' byte in `firstNonZero`, and a '0' byte is kept only while that
      index is not 0, i.e. once a non-'0' byte has been seen at an index >= 1. */
  predicate Kept(s: seq<uint8>, k: int)
    requires 0 <= k < |s|
  {
    s[k] != ZERO || exists j :: 1 <= j < k && s[j] != ZERO
  }

  /** The bytes of `s[..n]` that the stripping loop keeps, in order. */
  function StrippedPrefix(s: seq<uint8>, n: nat): seq<uint8>
    requires n <= |s|
  {
    if n == 0 then []
    else StrippedPrefix(s, n - 1) + (if Kept(s, n - 1) then [s[n - 1]] else [])
  }

  function Stripped(s: seq<uint8>): seq<uint8>
  {
    StrippedPrefix(s, |s|)
  }

  /** The first byte, if it survives stripping. */
  function Head(s: seq<uint8>): seq<uint8>
  {
    if |s| > 0 && s[0] != ZERO then [s[0]] else []
  }

  /** The first index >= i holding a byte other than '0', or |s|. */
  function NextNonZero(s: seq<uint8>, i: nat): (p: nat)
    requires i <= |s|
    ensures i <= p <= |s|
    ensures forall k :: i <= k < p ==> s[k] == ZERO
    ensures p < |s| ==> s[p] != ZERO
    decreases |s| - i
  {
    if i == |s| || s[i] != ZERO then i else NextNonZero(s, i + 1)
  }

  /** Where stripping stops dropping bytes: the first non-'0' byte at index >= 1. */
  function Resume(s: seq<uint8>): nat
  {
    if s == [] then 0 else NextNonZero(s, 1)
  }

  lemma {:induction false} StrippedPrefixShape(s: seq<uint8>, n: nat)
    requires n <= |s|
    ensures StrippedPrefix(s, n) ==
              if n == 0 then [] else if n <= Resume(s) then Head(s) else Head(s) + s[Resume(s)..n]
  {
    if n > 0 {
      StrippedPrefixShape(s, n - 1);
      var k, p := n - 1, Resume(s);
      if k == 0 {
        assert Kept(s, 0) <==> s[0] != ZERO;
      } else if k < p {
        assert s[k] == ZERO;
        assert !Kept(s, k);
      } else {
        assert s[p] != ZERO;
        assert Kept(s, k) by {
          if s[k] == ZERO { assert 1 <= p < k; }
        }
        if k > p {
          assert s[p..k] + [s[k]] == s[p..n];
        }
      }
    }
  }

  /** What stripping does to a whole field: it keeps the first byte unless that
      byte is '0', drops the run of '0' bytes that follows it, and keeps everything
      from the first non-'0' byte at an index >= 1 on, interior zeros included. */
  lemma StrippedShape(s: seq<uint8>)
    ensures Stripped(s) == Head(s) + s[Resume(s)..]
  {
    StrippedPrefixShape(s, |s|);
    if s != [] && |s| <= Resume(s) {
      assert s[Resume(s)..] == [];
    }
  }

  /** A stripped field never starts with '0'. */
  lemma StrippedNoLeadingZero(s: seq<uint8>)
    ensures Stripped(s) != [] ==> Stripped(s)[0] != ZERO
  {
    StrippedShape(s);
  }

  /** Stripping yields nothing exactly when every byte is '0'. */
  lemma StrippedEmptyIffAllZeros(s: seq<uint8>)
    ensures Stripped(s) == [] <==> forall k :: 0 <= k < |s| ==> s[k] == ZERO
  {
    StrippedShape(s);
    if Stripped(s) == [] && s != [] {
      forall k | 0 <= k < |s| ensures s[k] == ZERO {
      }
    }
  }

  /** Stripping only removes bytes, so it keeps an ASCII field ASCII. */
  lemma StrippedKeepsAscii(s: seq<uint8>)
    requires IsAscii(s)
    ensures IsAscii(Stripped(s))
  {
    StrippedShape(s);
    var t := Stripped(s);
    forall k | 0 <= k < |t| ensures t[k] < 0x80 {
      if |Head(s)| <= k {
        assert t[k] == s[Resume(s) + k - |Head(s)|];
      }
    }
  }

  /** The non-'0' bytes of a sequence, in order. */
  function NonZeros(s: seq<uint8>): seq<uint8>
  {
    if s == [] then []
    else NonZeros(s[..|s| - 1]) + (if s[|s| - 1] != ZERO then [s[|s| - 1]] else [])
  }

  lemma {:induction false} StrippedPrefixNonZeros(s: seq<uint8>, n: nat)
    requires n <= |s|
    ensures NonZeros(StrippedPrefix(s, n)) == NonZeros(s[..n])
  {
    if n > 0 {
      StrippedPrefixNonZeros(s, n - 1);
      var prev := StrippedPrefix(s, n - 1);
      assert s[..n][..n - 1] == s[..n - 1];
      if Kept(s, n - 1) {
        assert (prev + [s[n - 1]])[..|prev|] == prev;
      } else {
        assert StrippedPrefix(s, n) == prev;
      }
    }
  }

  /** Stripping removes only '0' bytes: every other byte survives, in order. */
  lemma StrippedKeepsNonZeros(s: seq<uint8>)
    ensures NonZeros(Stripped(s)) == NonZeros(s)
  {
    StrippedPrefixNonZeros(s, |s|);
    assert s[..|s|] == s;
  }

  /** Concrete traces of the loop: a non-'0' first byte makes the loop drop the
      zeros right after it ("1002" gives "12"), a zero-padded field loses only its
      padding ("0042" gives "42"), trailing zeros stay ("120"), an all-'0' field
      vanishes, and stripping is not idempotent ("0102" gives "102", which gives
      "12"). */
  lemma StrippedExamples()
    ensures Stripped([0x31, 0x30, 0x30, 0x32]) == [0x31, 0x32]
    ensures Stripped([0x30, 0x30, 0x34, 0x32]) == [0x34, 0x32]
    ensures Stripped([0x31, 0x32, 0x30]) == [0x31, 0x32, 0x30]
    ensures Stripped([0x30, 0x30, 0x30, 0x30]) == []
    ensures Stripped([0x30, 0x31, 0x30, 0x32]) == [0x31, 0x30, 0x32]
    ensures Stripped(Stripped([0x30, 0x31, 0x30, 0x32])) == [0x31, 0x32]
  {
    var a: seq<uint8> := [0x31, 0x30, 0x30, 0x32];
    StrippedShape(a);
    assert Resume(a) == 3;
    var b: seq<uint8> := [0x30, 0x30, 0x34, 0x32];
    StrippedShape(b);
    assert Resume(b) == 2;
    var c: seq<uint8> := [0x31, 0x32, 0x30];
    StrippedShape(c);
    assert Resume(c) == 1;
    var d: seq<uint8> := [0x30, 0x30, 0x30, 0x30];
    StrippedEmptyIffAllZeros(d);
    var e: seq<uint8> := [0x30, 0x31, 0x30, 0x32];
    StrippedShape(e);
    assert Resume(e) == 1;
    var f: seq<uint8> := [0x31, 0x30, 0x32];
    StrippedShape(f);
    assert Resume(f) == 2;
  }

  /** Only the run of '0' bytes right after a non-'0' first byte is dropped: once
      a non-'0' byte has been seen at index 1 or more, every later '0' is kept
      ("1202" stays as it is, "1020" gives "120"). */
  lemma StrippedKeepsLaterZeros()
    ensures Stripped([0x31, 0x32, 0x30, 0x32]) == [0x31, 0x32, 0x30, 0x32]
    ensures Stripped([0x31, 0x30, 0x32, 0x30]) == [0x31, 0x32, 0x30]
  {
    var a: seq<uint8> := [0x31, 0x32, 0x30, 0x32];
    StrippedShape(a);
    assert Resume(a) == 1;
    var b: seq<uint8> := [0x31, 0x30, 0x32, 0x30];
    StrippedShape(b);
    assert Resume(b) == 2;
  }

  // ---------------------------------------------------------------------------
  // Leading zeros removed the way the field format intends

  /** Drops every '0' byte before the first other byte, and nothing else. */
  function TrimLeadingZeros(s: seq<uint8>): (t: seq<uint8>)
    ensures |t| <= |s| && t == s[|s| - |t|..]
    ensures forall k :: 0 <= k < |s| - |t| ==> s[k] == ZERO
    ensures t != [] ==> t[0] != ZERO
  {
    if s != [] && s[0] == ZERO then TrimLeadingZeros(s[1..]) else s
  }

  lemma {:induction false} TrimFrom(s: seq<uint8>, i: nat)
    requires i <= |s|
    ensures TrimLeadingZeros(s[i..]) == s[NextNonZero(s, i)..]
    decreases |s| - i
  {
    if i < |s| && s[i] == ZERO {
      assert s[i..][1..] == s[i + 1..];
      TrimFrom(s, i + 1);
    }
  }

  /** When a field starts with a padding '0' (or is empty), the source's loop
      strips exactly its leading zeros. */
  lemma StrippedIsTrimWhenPadded(s: seq<uint8>)
    requires s == [] || s[0] == ZERO
    ensures Stripped(s) == TrimLeadingZeros(s)
  {
    StrippedShape(s);
    if s != [] {
      TrimFrom(s, 1);
      assert TrimLeadingZeros(s) == TrimLeadingZeros(s[1..]);
      assert Head(s) == [];
    }
  }

  lemma Regroup(d: int, p: int, x: int, last: int)
    ensures (d * p + x) * 10 + last == d * (p * 10) + (x * 10 + last)
  {
  }

  lemma {:induction false} DigitsValueCons(s: seq<uint8>)
    requires AllDigits(s) && s != []
    ensures DigitsValue(s) == DigitValue(s[0]) * Pow10(|s| - 1) + DigitsValue(s[1..])
    decreases |s|
  {
    if |s| > 1 {
      var init := s[..|s| - 1];
      DigitsValueCons(init);
      assert init[1..] == s[1..][..|s| - 2];
      var d0, last := DigitValue(s[0]), DigitValue(s[|s| - 1]);
      var p, x := Pow10(|s| - 2), DigitsValue(init[1..]);
      assert DigitsValue(s) == DigitsValue(init) * 10 + last;
      assert DigitsValue(s[1..]) == x * 10 + last;
      assert Pow10(|s| - 1) == p * 10;
      Regroup(d0, p, x, last);
    }
  }

  lemma DropLeadingZero(s: seq<uint8>)
    requires AllDigits(s) && s != [] && s[0] == ZERO
    ensures AllDigits(s[1..]) && DigitsValue(s) == DigitsValue(s[1..])
  {
    assert AllDigits(s[1..]) by {
      forall k | 0 <= k < |s| - 1 ensures IsDigit(s[1..][k]) {
        assert s[1..][k] == s[k + 1];
      }
    }
    DigitsValueCons(s);
    var p := Pow10(|s| - 1);
    assert DigitValue(s[0]) * p == 0 * p == 0;
  }

  /** Removing leading zeros does not change the value of a digit string. */
  lemma {:induction false} TrimPreservesValue(s: seq<uint8>)
    requires AllDigits(s)
    ensures AllDigits(TrimLeadingZeros(s))
    ensures DigitsValue(TrimLeadingZeros(s)) == DigitsValue(s)
    decreases |s|
  {
    if s != [] && s[0] == ZERO {
      DropLeadingZero(s);
      TrimPreservesValue(s[1..]);
    }
  }

  lemma {:induction false} EncodeDecimalValue(n: nat, width: nat)
    requires n < Pow10(width)
    ensures DigitsValue(EncodeDecimal(n, width)) == n
  {
    if width > 0 {
      var e := EncodeDecimal(n / 10, width - 1);
      EncodeDecimalValue(n / 10, width - 1);
      assert (e + [(ZERO as int + n % 10) as uint8])[..|e|] == e;
    }
  }

  /** The parse reads back every number written as a decimal field wide enough
      to hold it. */
  lemma ParseEncodeRoundTrip(n: nat, width: nat)
    requires 1 <= width && n < Pow10(width)
    ensures ParseDecimal(EncodeDecimal(n, width)) == Some(n)
  {
    EncodeDecimalValue(n, width);
  }

  lemma {:induction false} EncodeDecimalLeadingZero(n: nat, width: nat)
    requires 1 <= width && n < Pow10(width - 1)
    ensures EncodeDecimal(n, width)[0] == ZERO
  {
    if width > 1 {
      EncodeDecimalLeadingZero(n / 10, width - 1);
    }
  }

  lemma {:induction false} EncodeZeroIsZeros(width: nat)
    ensures forall k :: 0 <= k < width ==> EncodeDecimal(0, width)[k] == ZERO
  {
    if width > 0 {
      EncodeZeroIsZeros(width - 1);
    }
  }

  // ---------------------------------------------------------------------------
  // getInteger's value

  /** The value `getInteger` returns for a field: strip, then parse; None where the
      source force-unwraps a failed parse, and on signed, grouped or fractional
      text. */
  function FieldValue(field: seq<uint8>): Option<int>
  {
    ParseDecimal(Stripped(field))
  }

  /** A zero-padded field holding a positive number that leaves its first digit a
      padding '0' reads back as that number ("0042" gives 42). */
  lemma GetIntegerReadsPaddedField(n: nat, width: nat)
    requires 0 < n && 1 <= width && n < Pow10(width - 1)
    ensures FieldValue(EncodeDecimal(n, width)) == Some(n)
  {
    var e := EncodeDecimal(n, width);
    EncodeDecimalLeadingZero(n, width);
    StrippedIsTrimWhenPadded(e);
    TrimPreservesValue(e);
    EncodeDecimalValue(n, width);
  }

  lemma GetIntegerExample()
    ensures FieldValue([0x30, 0x30, 0x34, 0x32]) == Some(42)
  {
    GetIntegerReadsPaddedField(42, 4);
    assert EncodeDecimal(42, 4) == [0x30, 0x30, 0x34, 0x32];
  }

  /** As written: a field of '0' bytes strips to nothing, and the parse fails
      (the source traps) instead of giving 0. */
  lemma GetIntegerZeroFieldFails(width: nat)
    ensures FieldValue(EncodeDecimal(0, width)) == None
  {
    EncodeZeroIsZeros(width);
    StrippedEmptyIffAllZeros(EncodeDecimal(0, width));
  }

  /** As written: the field "1002" reads back as 12. */
  lemma GetIntegerDropsInteriorZeros()
    ensures EncodeDecimal(1002, 4) == [0x31, 0x30, 0x30, 0x32]
    ensures FieldValue([0x31, 0x30, 0x30, 0x32]) == Some(12)
  {
    assert EncodeDecimal(1, 1) == [0x31];
    assert EncodeDecimal(10, 2) == [0x31, 0x30];
    assert EncodeDecimal(100, 3) == [0x31, 0x30, 0x30];
    var a: seq<uint8> := [0x31, 0x30, 0x30, 0x32];
    StrippedShape(a);
    assert Resume(a) == 3;
    var t: seq<uint8> := [0x31, 0x32];
    assert Stripped(a) == t;
    assert t[..1] == [0x31];
    assert DigitsValue(t) == 12;
  }

  /** The decoder the field format intends: a field of digits, leading zeros
      removed, an all-'0' field meaning 0; no value for anything else. */
  function DecodeIntended(field: seq<uint8>): (r: Option<int>)
    ensures r.Some? <==> AllDigits(field)
    ensures r.Some? ==> r.value == DigitsValue(field)
  {
    if !AllDigits(field) then None
    else
      var t := TrimLeadingZeros(field);
      TrimPreservesValue(field);
      if t == [] then Some(0) else ParseDecimal(t)
  }

  /** Every zero-padded field reads back as the number written into it. */
  lemma DecodeIntendedRoundTrip(n: nat, width: nat)
    requires n < Pow10(width)
    ensures DecodeIntended(EncodeDecimal(n, width)) == Some(n)
  {
    EncodeDecimalValue(n, width);
  }

  /** Where the source's field is zero-padded and non-zero, it agrees with the
      intended decoder. */
  lemma GetIntegerAgreesWhenPadded(field: seq<uint8>)
    requires AllDigits(field) && field != [] && field[0] == ZERO
    requires exists k :: 0 <= k < |field| && field[k] != ZERO
    ensures FieldValue(field) == DecodeIntended(field)
  {
    StrippedIsTrimWhenPadded(field);
    StrippedEmptyIffAllZeros(field);
    TrimPreservesValue(field);
  }

  // ---------------------------------------------------------------------------
  // NSString.integerValue, as `int(at:length:)` uses it

  /** Number of leading digit bytes. */
  function LeadingDigitCount(s: seq<uint8>): (n: nat)
    ensures n <= |s| && AllDigits(s[..n])
    ensures n < |s| ==> !IsDigit(s[n])
  {
    if s == [] || !IsDigit(s[0]) then 0
    else
      var n := 1 + LeadingDigitCount(s[1..]);
      assert s[..n] == [s[0]] + s[1..][..n - 1];
      n
  }

  /** The value of the leading digits (0 when there are none). */
  function LeadingDigitsValue(s: seq<uint8>): nat
  {
    DigitsValue(s[..LeadingDigitCount(s)])
  }

  lemma {:induction false} LeadingDigitCountIgnoresTerminator(s: seq<uint8>, t: uint8)
    requires !IsDigit(t)
    ensures LeadingDigitCount(s + [t]) == LeadingDigitCount(s)
  {
    if s != [] {
      assert (s + [t])[0] == s[0];
      if IsDigit(s[0]) {
        assert (s + [t])[1..] == s[1..] + [t];
        LeadingDigitCountIgnoresTerminator(s[1..], t);
      }
    }
  }

  /** A non-digit terminator, such as the NUL `string(at:length:)` appends, does not
      change the leading-digit value. */
  lemma LeadingDigitsIgnoreTerminator(s: seq<uint8>, t: uint8)
    requires !IsDigit(t)
    ensures LeadingDigitsValue(s + [t]) == LeadingDigitsValue(s)
  {
    LeadingDigitCountIgnoresTerminator(s, t);
    var n := LeadingDigitCount(s);
    assert (s + [t])[..n] == s[..n];
  }

  /** A digit string reads back as its value. */
  lemma LeadingDigitsOfDigits(s: seq<uint8>)
    requires AllDigits(s)
    ensures LeadingDigitsValue(s) == DigitsValue(s)
  {
    var n := LeadingDigitCount(s);
    assert n == |s|;
    assert s[..n] == s;
  }
}
