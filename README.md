# ByteBuffer: a verified model of an ISO/IEC 8211 byte buffer

`ByteBuffer` is the Swift struct that an S-57 (nautical chart) reader uses to
decode ISO/IEC 8211 records. It holds the record's bytes and a read cursor. It
offers:

- random-access readers at explicit positions;
- a sequential API that moves the cursor;
- the two delimiter scans that GDAL uses for variable-length subfields
  (DDFFetchVariable and DDFScanVariable);
- decimal decoding with leading-zero stripping;
- the check of the Data Descriptive Record leader.

This project models that struct in Dafny and proves what its operations return.

## Layout

- `bytes.dfy`, module `Bytes`:
  - `uint8`, `Option` and the byte constants (unit terminator 0x1F, field terminator 0x1E);
  - `UInt8.isDigit` and `UInt8.isAlpha`;
  - the conditions under which Foundation decodes bytes. `.ascii` needs every byte below 0x80. `.utf8` needs well-formed UTF-8, as in section 4 of RFC 3629.
- `decimal.dfy`, module `Decimal`:
  - `Stripped`, the reference definition of what `stripLeadingZeros` returns, with lemmas on what stripping does to a field;
  - `ParseDecimal`, the number parse;
  - `FieldValue`, what `getInteger` returns;
  - `DecodeIntended`, the corrected decoder used by the Findings below;
  - the leading-digit value that `int(at:length:)` reads.
- `delimiters.dfy`, module `Delimiters`: `ScanEnd`, the reference definition of where the two scans stop. It is proved equal to the stopping condition `StopsAt`, in both directions.
- `byte_buffer.dfy`, module `ByteBuffers`: class `ByteBuffer` with fields `buffer: seq<uint8>` and `index: int`.
  - Mutating methods name the field they change in their `modifies` frame: `this`index` for the cursor, `this`buffer` for `append`. The other field stays as it was.
  - Non-mutating readers are functions, except where they call the stripping loop.
  - The stripping loop and the two scans are methods with loops, proved against `Stripped` and `ScanEnd`.
  - Four example methods check concrete inputs (a leader, a scan, "0042", three sequential reads) using the contracts. In the last, reading 3 bytes twice from an 8-byte buffer succeeds, and a third read from cursor 6 returns nothing and leaves the cursor there.

How the model represents the source:

- A Swift string decoded from buffer bytes is represented by those bytes.
- Every place where Swift would trap is a precondition:
  - a subscript out of range;
  - a range whose bounds are reversed;
  - a force-unwrapped ASCII decoding (lines 68, 447 and 453).
- One precondition stands for undefined behaviour rather than a trap: `asUTF8String(length:)` with a length beyond the array (see `Bytes.AsciiString` under "## Left out").
- The closed ranges at lines 52, 189, 195, 212 and 232 are kept as written. They return `count + 1` bytes. They also trap when the range ends at the buffer's length, even where the guard lets that case through.
- `getInteger` force-unwraps its parse (line 243). Its result is an `Option`: None where the source traps, and also on signed, grouped or fractional text, which the parse abstraction does not read.

Some behaviour of the code differs from what its names and comments suggest; the model follows the code:

- `stripLeadingZeros` drops the run of '0' bytes right after a non-'0' first byte: "1002" strips to "12", while "1202" stays as it is.
- `stripLeadingZeros` is not idempotent: "0102" gives "102", which gives "12".
- An all-'0' field does not decode to 0. The parse fails, and the source traps.
- `getString(size:)` guards with `index + size <= count` (line 186), but the closed range at line 189 then traps when `index + size == count`: a read of exactly the remaining bytes fails.

## Model

| member | source | states |
|---|---|---|
| `ByteBuffers.ByteBuffer.constructor` | Sources/ByteBuffer/ByteBuffer.swift:11 | a new buffer is empty with the cursor at 0 |
| `ByteBuffers.ByteBuffer.FromBytes` | Sources/ByteBuffer/ByteBuffer.swift:13-19 | wrapping a byte sequence stores exactly those bytes, cursor at 0 |
| `ByteBuffers.ByteBuffer.FromByteBuffer` | Sources/ByteBuffer/ByteBuffer.swift:156-158 | copying another buffer takes its bytes but not its cursor (cursor 0) |
| `ByteBuffers.ByteBuffer.Zeroed` | Sources/ByteBuffer/ByteBuffer.swift:164-166 | `length` zero bytes, cursor 0 |
| `ByteBuffers.ByteBuffer.Append` | Sources/ByteBuffer/ByteBuffer.swift:34-36 | the new bytes are the old ones plus the byte at the end; the cursor is outside the frame |
| `ByteBuffers.ByteBuffer.ByteAt` | Sources/ByteBuffer/ByteBuffer.swift:38-43 | 0 on an empty buffer, otherwise the byte stored at `i`, which must exist |
| `ByteBuffers.ByteBuffer.BytesAt` | Sources/ByteBuffer/ByteBuffer.swift:45-53 | non-empty exactly when the buffer is non-empty and `i + count` does not pass its end; then `count + 1` bytes, each equal to `ByteAt` at its position; an end equal to the length traps |
| `ByteBuffers.ByteBuffer.StringAt` | Sources/ByteBuffer/ByteBuffer.swift:63-71 | present exactly when `i + length` is strictly below the length; then the `length` bytes at `i` followed by one NUL byte |
| `ByteBuffers.ByteBuffer.IntAt` | Sources/ByteBuffer/ByteBuffer.swift:120-123 | never nil; the value (0..255) of the byte `ByteAt` reads |
| `ByteBuffers.ByteBuffer.IntAtLength` | Sources/ByteBuffer/ByteBuffer.swift:126-130 | nil exactly when `StringAt` is nil; otherwise the value of the field's leading digits, unaffected by the appended NUL |
| `ByteBuffers.ByteBuffer.IsAlphaNumeric` | Sources/ByteBuffer/ByteBuffer.swift:135-141 | true iff every byte is a letter, a digit or a space; the ASCII-decoding guard adds no further condition; true on an empty buffer |
| `ByteBuffers.ByteBuffer.GetUInt8At` | Sources/ByteBuffer/ByteBuffer.swift:172-174 | on an existing position, the byte `ByteAt` reads |
| `ByteBuffers.ByteBuffer.GetStringAt` | Sources/ByteBuffer/ByteBuffer.swift:194-197 | `size + 1` bytes, the same closed range `BytesAt` returns |
| `ByteBuffers.ByteBuffer.GetStringOfArray` | Sources/ByteBuffer/ByteBuffer.swift:217-222 | empty for empty bytes, otherwise a `size`-byte prefix of them |
| `ByteBuffers.ByteBuffer.GetStringOfBuffer` | Sources/ByteBuffer/ByteBuffer.swift:199-205 | the same result as `GetStringOfArray` on the other buffer's bytes |
| `ByteBuffers.ByteBuffer.GetStringOfArrayAt` | Sources/ByteBuffer/ByteBuffer.swift:224-234 | empty for empty bytes or an offset past the end; otherwise the `size + 1` bytes that sit between `bytes[..offset]` and the rest |
| `ByteBuffers.ByteBuffer.GetStringOfBufferAt` | Sources/ByteBuffer/ByteBuffer.swift:207-214 | the same result as `GetStringOfArrayAt` on the other buffer's bytes; without the offset guard, an offset past the end traps |
| `ByteBuffers.ByteBuffer.GetUInt8Array` | Sources/ByteBuffer/ByteBuffer.swift:284-286 | as long as the buffer, each byte the one `GetUInt8At` reads |
| `ByteBuffers.ByteBuffer.GetUInt8ArrayOf` | Sources/ByteBuffer/ByteBuffer.swift:288-293 | empty past the end; otherwise the suffix that completes `bytes[..offset]` to the whole input |
| `ByteBuffers.ByteBuffer.GetUInt8ArrayFrom` | Sources/ByteBuffer/ByteBuffer.swift:295-300 | the same result as `GetUInt8ArrayOf` on the stored bytes |
| `ByteBuffers.ByteBuffer.Substring` | Sources/ByteBuffer/ByteBuffer.swift:331-343 | exactly `buffer[from..from+length]` when the buffer is non-empty, the range fits and the bytes are well-formed UTF-8; empty in every other case |
| `ByteBuffers.ByteBuffer.SubstringFrom` | Sources/ByteBuffer/ByteBuffer.swift:317-329 | a non-empty result is well-formed UTF-8 and completes `buffer[..from]` to the buffer; in range it equals `Substring` with the remaining length |
| `ByteBuffers.ByteBuffer.IsValidHeader` | Sources/ByteBuffer/ByteBuffer.swift:415-434 | true iff the buffer is non-empty, position 5 is '1', '2' or '3', position 6 is 'L' and position 8 is '1' or a space; false on an empty buffer |
| `ByteBuffers.ByteBuffer.FetchArray` | Sources/ByteBuffer/ByteBuffer.swift:77-93 | the field is the prefix before the scan's stop. No byte in it is either delimiter. Its length is at most `max(maximumLength - 1, 0)` and equals `ScanEnd`. `consumed` is the field length plus 1 exactly when `maximumLength > 0` and the scan stopped on a delimiter, otherwise the field length |
| `ByteBuffers.ByteBuffer.VariableLength` | Sources/ByteBuffer/ByteBuffer.swift:148-154 | the first position of `delimiter`, capped at `max(maximumLength - 1, 0)`. No byte before it is the delimiter. It equals `ScanEnd`, so it is the field length `FetchArray` finds when both delimiters are this one |
| `Delimiters.ScanEndStopsAt` | Sources/ByteBuffer/ByteBuffer.swift:84-86 | a position equals `ScanEnd` iff the scan stops there: no delimiter before it, and it is the clamped limit, the end of the bytes, or a delimiter |
| `ByteBuffers.ByteBuffer.Skip` | Sources/ByteBuffer/ByteBuffer.swift:168-170 | the cursor moves by `offset`, unchecked; the bytes are outside the frame |
| `ByteBuffers.ByteBuffer.GetUInt8` | Sources/ByteBuffer/ByteBuffer.swift:176-183 | on a non-empty buffer, the byte under the cursor, and the cursor moves by exactly 1; on an empty buffer, 0 and no move |
| `ByteBuffers.ByteBuffer.GetString` | Sources/ByteBuffer/ByteBuffer.swift:185-192 | past the end: empty, and the cursor does not move; otherwise the `size` bytes at the cursor, and the cursor moves by exactly `size`; a read that ends at the buffer's length traps |
| `ByteBuffers.ByteBuffer.StripLeadingZeros` | Sources/ByteBuffer/ByteBuffer.swift:354-372 | the loop returns `Stripped(source)` |
| `Decimal.StrippedShape` | Sources/ByteBuffer/ByteBuffer.swift:354-372 | stripping keeps the first byte unless it is '0', drops the run of '0' bytes right after it, and keeps everything from the first non-'0' byte at an index of 1 or more |
| `Decimal.StrippedNoLeadingZero` | Sources/ByteBuffer/ByteBuffer.swift:354-372 | a stripped field never starts with '0' |
| `Decimal.StrippedEmptyIffAllZeros` | Sources/ByteBuffer/ByteBuffer.swift:354-372 | stripping yields nothing iff every byte is '0' |
| `Decimal.StrippedKeepsNonZeros` | Sources/ByteBuffer/ByteBuffer.swift:354-372 | every byte other than '0' survives stripping, in order |
| `Decimal.StrippedKeepsAscii` | Sources/ByteBuffer/ByteBuffer.swift:354-372 | stripping an ASCII field leaves it ASCII, so the decoding at line 447 cannot trap after it |
| `Decimal.StrippedExamples` | Sources/ByteBuffer/ByteBuffer.swift:354-372 | "1002" gives "12", "0042" gives "42", "120" stays, "0000" gives nothing; "0102" gives "102", and stripping that again gives "12" (not idempotent) |
| `Decimal.StrippedKeepsLaterZeros` | Sources/ByteBuffer/ByteBuffer.swift:359-370 | only the zeros right after a non-'0' first byte are dropped: "1202" stays as it is, and "1020" gives "120" |
| `Decimal.ParseDecimal` | Sources/ByteBuffer/ByteBuffer.swift:240-243 | the parse has a value iff the string is non-empty and all digits; that value is the string's decimal value `DigitsValue`, below 10^length |
| `Decimal.ParseEncodeRoundTrip` | Sources/ByteBuffer/ByteBuffer.swift:240-243 | the parse reads back every number written as a zero-padded decimal field wide enough to hold it |
| `ByteBuffers.ByteBuffer.GetInteger` | Sources/ByteBuffer/ByteBuffer.swift:236-244 | the field at `offset`, stripped and parsed, is `FieldValue` of the field; None where the source traps, and also on signed, grouped or fractional text, which the parse abstraction does not read |
| `Decimal.GetIntegerReadsPaddedField` | Sources/ByteBuffer/ByteBuffer.swift:236-244 | a zero-padded field with a positive value whose first digit is padding reads back as that value |
| `Decimal.GetIntegerExample` | Sources/ByteBuffer/ByteBuffer.swift:236-244 | "0042" reads as 42 |
| `Decimal.GetIntegerZeroFieldFails` | Sources/ByteBuffer/ByteBuffer.swift:236-244 | a field of '0' bytes of any width has no value (the source traps) |
| `Decimal.GetIntegerDropsInteriorZeros` | Sources/ByteBuffer/ByteBuffer.swift:236-244 | the field "1002" reads as 12 |
| `Decimal.StrippedIsTrimWhenPadded` | Sources/ByteBuffer/ByteBuffer.swift:354-372 | on a field that starts with '0', the loop removes exactly the leading zeros |
| `Decimal.GetIntegerAgreesWhenPadded` | Sources/ByteBuffer/ByteBuffer.swift:236-244 | on a zero-padded digit field that is not all zeros, `getInteger` agrees with the corrected decoder |
| `Decimal.DecodeIntended` | Sources/ByteBuffer/ByteBuffer.swift:236-244 | corrected decoder: a value iff the field is all digits, and then the field's decimal value |
| `Decimal.DecodeIntendedRoundTrip` | Sources/ByteBuffer/ByteBuffer.swift:236-244 | corrected decoder: every zero-padded field reads back as the number written into it, 0 and 1002 included |
| `ByteBuffers.ByteBuffer.DecodeInteger` | Sources/ByteBuffer/ByteBuffer.swift:246-254 | on an empty buffer, 0 and no move; otherwise `FieldValue` of the `size` bytes at the cursor, and on success the cursor moves by exactly `size` |
| `ByteBuffers.ByteBuffer.DecodeIntegerAt` | Sources/ByteBuffer/ByteBuffer.swift:256-261 | 0 on an empty buffer, otherwise `FieldValue` of the `size` bytes at `offset` |
| `ByteBuffers.ByteBuffer.Rewind` | Sources/ByteBuffer/ByteBuffer.swift:272-274 | the cursor is 0; the bytes are outside the frame |
| `ByteBuffers.ByteBuffer.Position` | Sources/ByteBuffer/ByteBuffer.swift:276-278 | the cursor |
| `ByteBuffers.ByteBuffer.GotoPosition` | Sources/ByteBuffer/ByteBuffer.swift:280-282 | the cursor is `newPosition`, unchecked; the bytes are outside the frame |
| `ByteBuffers.StringAtIsTerminatedSubstring` | Sources/ByteBuffer/ByteBuffer.swift:63-71 | when `string(at:length:)` succeeds, its result is `substring(from:length:)` followed by NUL |
| `ByteBuffers.IntAtLengthReadsPaddedField` | Sources/ByteBuffer/ByteBuffer.swift:126-130 | a zero-padded decimal field followed by at least one more byte reads back through `int(at:length:)` as the number written into it |
| `Bytes.IsDigit` | Sources/ByteBuffer/ByteBuffer.swift:396-398 | digits are ASCII and never letters |
| `Bytes.IsAlpha` | Sources/ByteBuffer/ByteBuffer.swift:400-410 | letters are ASCII |
| `Bytes.AsciiString` | Sources/ByteBuffer/ByteBuffer.swift:444-454 | the first `length` bytes, all of them ASCII; every one must be below 0x80, where the source force-unwraps the decoding; `length` may not exceed the array's count, where the source reads past the array's storage |

## Left out

- `init(buffer: NSData)`: copying from foreign memory is not modelled. `FromBytes` covers the bytes it would produce.
- `init(string:)`: the UTF-8 encoding of a Swift string is not modelled. `FromBytes` takes the encoded bytes.
- `count` is not a member of its own: it is `|buffer|` throughout.
- `character(at:)`: building a Unicode scalar and a Character is not modelled.
- `getFieldAsString(terminator:)`: this is Foundation string splitting (`components(separatedBy:)`) and is not modelled.
- `fetchArray(...completion:)` and `fetchString(...)`: these callback wrappers re-deliver `fetchArray`'s result (`fetchString` after a UTF-8 decode, delivering "" when it fails), and they may call the completion more than once. Only the direct-return `fetchArray` is modelled.
- `setSize(size:)` is not modelled. It either traps or truncates the buffer to one byte, whatever `size` is.
- The commented-out `readFrom` file reading is not modelled.
- Swift's `Int` is 64 bits wide. Overflow traps in the cursor and offset arithmetic are not modelled, because the model uses unbounded integers.
- Value semantics are not modelled. Swift copies the struct on assignment, whereas the Dafny class is a reference that callers could share.
- `ByteBuffers.ByteBuffer.IntAtLength`: `NSString.integerValue` is modelled as the value of the leading decimal digits. Skipping leading whitespace, an optional sign, and saturation on overflow are not modelled.
- `Decimal.ParseDecimal`: the `NumberFormatter` decimal style is modelled as plain digit strings. Locale grouping separators, signs and fractional parts are not modelled, so such inputs get no value where the source gives one ("-012" strips to "-12", which the source reads as -12). The value is an unbounded integer: the conversion to a 64-bit `Int` at line 243, and the double-precision rounding of `NumberFormatter` on long inputs, are not modelled, so fields of 19 or more digits may decode differently.
- `ByteBuffers.ByteBuffer.DecodeInteger`: where the parse fails, the source traps. The model returns None and leaves the cursor where it was.
- `Bytes.AsciiString`: `asUTF8String(length:)` with a length beyond the array reads past its storage, which is undefined behaviour rather than a trap. The model requires `length <= |a|`, and so do `ByteBuffers.ByteBuffer.GetStringOfArray` and `ByteBuffers.ByteBuffer.GetStringOfBuffer`, whose callers at lines 204 and 221 pass `size` unchecked.
- `Bytes.ValidUtf8`: Foundation's `.utf8` decoding is modelled as well-formedness under section 4 of RFC 3629. Any byte-order-mark handling is not modelled.

## Findings

| source | as written | input that shows it | evidently intended | confidence | as-written member | corrected member |
|---|---|---|---|---|---|---|
| Sources/ByteBuffer/ByteBuffer.swift:354-372 | `firstNonZero` holds the index of the last non-'0' byte. When that byte is at index 0, the flag still reads 0, so the '0' bytes after it are dropped | the field "1002": stripping gives "12" and `getInteger` returns 12 | remove only the leading '0' bytes and read 1002 | high, not executed | `Decimal.GetIntegerDropsInteriorZeros` | `Decimal.DecodeIntendedRoundTrip` |
| Sources/ByteBuffer/ByteBuffer.swift:236-244 | an all-'0' field strips to an empty string, and the parse of it is force-unwrapped | the field "0000" (any width of '0' bytes): the parse fails and the source traps | a zero-padded zero reads as 0 | high, not executed | `Decimal.GetIntegerZeroFieldFails` | `Decimal.DecodeIntendedRoundTrip` |

`Decimal.DecodeIntended` is the corrected decoder. It removes only the leading zeros and reads an all-'0' field as 0. `Decimal.DecodeIntendedRoundTrip` proves that every zero-padded field reads back as the number written into it. `Decimal.GetIntegerAgreesWhenPadded` shows that the source already agrees with it on zero-padded fields that are not all zeros. The `ByteBuffer` class still decodes integers the way the code is written. A caller that needs the intended behaviour would use `DecodeIntended`.
