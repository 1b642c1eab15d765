/** The scan behind `fetchArray` and `variableLength` (after GDAL's
    DDFFetchVariable and DDFScanVariable): walk from the start of a variable-length
    ISO/IEC 8211 subfield until a terminator byte or until `limit` bytes have been
    passed, whichever comes first. */
module Delimiters {
  import opened Bytes

  predicate IsDelimiter(b: uint8, first: uint8, second: uint8)
  {
    b == first || b == second
  }

  /** Bytes that may be scanned: a negative limit scans nothing. */
  function Clamp(limit: int): nat
  {
    if limit < 0 then 0 else limit
  }

  /** Some terminator occurs in `s`. */
  predicate HasDelimiter(s: seq<uint8>, first: uint8, second: uint8)
  {
    exists k :: 0 <= k < |s| && IsDelimiter(s[k], first, second)
  }

  /** The scan's end, as a recursive reference definition. */
  function ScanEnd(s: seq<uint8>, limit: int, first: uint8, second: uint8): nat
    decreases |s|
  {
    if limit <= 0 || s == [] || IsDelimiter(s[0], first, second) then 0
    else 1 + ScanEnd(s[1..], limit - 1, first, second)
  }

  /** `r` is where the scan stops: no terminator before it, and it is the clamped
      limit, the end of the bytes, or a terminator. */
  predicate StopsAt(s: seq<uint8>, limit: int, first: uint8, second: uint8, r: int)
  {
    0 <= r <= |s| && r <= Clamp(limit) &&
    (forall k :: 0 <= k < r ==> !IsDelimiter(s[k], first, second)) &&
    (r == Clamp(limit) || r == |s| || IsDelimiter(s[r], first, second))
  }

  /** The reference definition is exactly the stopping condition: `ScanEnd` is the
      one position that satisfies it. */
  lemma {:induction false} ScanEndStopsAt(s: seq<uint8>, limit: int, first: uint8, second: uint8, r: int)
    ensures ScanEnd(s, limit, first, second) == r <==> StopsAt(s, limit, first, second, r)
    decreases |s|
  {
    if limit <= 0 || s == [] || IsDelimiter(s[0], first, second) {
    } else {
      ScanEndStopsAt(s[1..], limit - 1, first, second, r - 1);
      if r >= 1 {
        if StopsAt(s, limit, first, second, r) {
          forall k | 0 <= k < r - 1 ensures !IsDelimiter(s[1..][k], first, second) {
            assert s[1..][k] == s[k + 1];
          }
          assert StopsAt(s[1..], limit - 1, first, second, r - 1);
        }
        if StopsAt(s[1..], limit - 1, first, second, r - 1) {
          forall k | 0 <= k < r ensures !IsDelimiter(s[k], first, second) {
            if k > 0 { assert s[k] == s[1..][k - 1]; }
          }
          assert StopsAt(s, limit, first, second, r);
        }
      }
    }
  }
}
