# tidb-ctl key decoder, in Dafny

A model of the key decoder of `tidb-ctl decoder` (cmd/decoder.go). The model
covers two parts.

The first is the escape decoder `decodeKey`. It turns the text a user types
for a TiKV key into the raw key bytes:

- a byte other than `\` is copied;
- `\a \b \f \n \r \t \v \\ \' \"` stand for the control byte at the same index
  of a second table;
- `\x` is followed by a hex window of up to two bytes, scanned with
  `fmt.Sscanf("%02x")`; a failed scan is ignored;
- any other escape is a window of up to three bytes, scanned with
  `fmt.Sscanf("%03o")`; a failed scan fails the decode with the scan's own
  error;
- a `\` that starts an escape and is the last byte fails with `io.EOF`. A
  final `\` that falls inside an earlier escape's window is consumed without
  error: `\\` and `\x\` decode to a backslash, `\1\` to the byte 1.

The second is the key-layout decoders `decodeTableRow` and `decodeTableIndex`.
They check the 19-byte `t<tableID>_r<rowID>` / `t<tableID>_i<indexID>` layout
and decode both ids with TiDB's comparable-int codec: eight big-endian bytes
with the sign bit flipped. `decodeIndexValue`, the loop over the value bytes
of an index key, is modelled over an abstract single-datum decoder.

Files (one module each):

- `wrappers.dfy`: `Option` and `Result`.
- `bytes.dfy`: bytes, the big-endian reading and writing of a byte string, and
  its round trips. It also proves that lexicographic order on equal-length
  strings is numeric order.
- `codec.dfy`: `codec.DecodeInt` and its inverse `EncodeInt`: round trips and
  order preservation.
- `key_layout.dfy`: `decodeTableRow` and `decodeTableIndex` as functions
  returning a `Result`, the key encoders that invert them, and the sort order
  of row keys.
- `escape.dfy`: `decodeKey`. `Unescape` states the decoder as a function on the
  unread text. `DecodeKey` is Go's reader loop as a method proved equal to it.
  The module also proves what each kind of escape does, and an escaper
  (`EscapeText`, octal or hex style) that `Unescape` inverts.
- `index_value.dfy`: the `decodeIndexValue` loop over a decoder parameter, and
  `decodeTableIndex` followed by that loop.
- `test_vectors.dfy`: the keys of cmd/decoder_test.go.

How the model follows the code:

- **Sscanf.** `fmt.Sscanf` into a `uint8` is modelled byte by byte as
  `ScanUint8`. It skips the ASCII spaces tab, VT, FF, CR and space; a newline
  is an error. If nothing is left after the spaces, the scan returns `io.EOF`
  (`EndOfInput`). It then takes the longest run of digits and `_`. It fails
  (`SyntaxError`) on an empty run, on a `_` (strconv refuses it when the base
  is explicit) and on a value over 255. This is the scanner of Go 1.13 and
  later; before 1.13 `fmt` did not take `_` into the token, so `\1_2` gave 1
  and `\x5_` gave 5.
- **Errors.** `decodeKey` has two error results, and the model keeps them
  apart. `EndOfInput` is `io.EOF`: it comes from a `\` that starts an escape
  as the last byte (line 66) and
  also from an octal window that holds only spaces, such as `\` followed by a
  space at the end of the text or by three spaces anywhere (line 82).
  `SyntaxError` is every other `Sscanf` error.
- **Hex escapes.** In the `\x` branch the scan error is discarded. `c` then
  still holds the `\` just read, so the model emits 0x5C and consumes the
  window.
- **Short windows.** `bytes.Buffer.Next` returns fewer bytes at the end of the
  text, so `\x4` or `\12` at the end are scanned as they are and decode to 4
  and 10.
- **Integers.** `codec.DecodeInt` is not part of this model's sources. It is
  defined as `int64(BigEndian(b[0:8]) XOR 0x8000000000000000)`, written out as
  `FlipSignBit` followed by Go's `int64` conversion `ToInt64`. Its contract
  proves this equals `BigEndian(b[0:8]) - 2^63`.
- **Test keys.** cmd/decoder_test.go writes its keys as Go string literals
  (`"t\x80..."`, `"t\200..."`), so each key is a string of raw bytes without
  any backslash. The model uses these vectors only as bytes and numbers:
  `decodeKey` returns such a key unchanged, the layout decoders give the
  expected ids, and the octal form of the row key, typed as text, decodes to
  the same key.

## Model

| member | source | states |
|---|---|---|
| Escape.DecodeKey | cmd/decoder.go:49-88 | the reader loop returns exactly `Unescape(text)`: the same bytes, or the same error |
| Escape.Unescape | cmd/decoder.go:49-88 | a successful decode is never longer than its text |
| Escape.NextStep | cmd/decoder.go:53-85 | one iteration consumes between 1 and all remaining bytes, and stops the decode only at a backslash |
| Escape.NextStepEndOfInput | cmd/decoder.go:64-83 | an iteration returns `io.EOF` exactly at a backslash whose following window of up to three bytes holds only skippable spaces: the lone final backslash, or an octal window the scan finds empty |
| Escape.IndexOf | cmd/decoder.go:69 | `strings.IndexByte`: -1 exactly when the byte is absent, else the index of its first occurrence |
| Escape.Next | cmd/decoder.go:64 | `bytes.Buffer.Next(k)`: the next k bytes, or all that are left when fewer remain |
| Escape.DigitValue | cmd/decoder.go:76 | the value of a hex digit of either case lies in 0..15, and is -1 exactly for a non-digit |
| Escape.DigitValueIndexesTables | cmd/decoder.go:76 | a digit's value is its index in the lower-case or the upper-case digit table, and -1 means the byte is in neither |
| Escape.SkipSpace | cmd/decoder.go:80 | what is left is a suffix of the window after a run of skippable spaces, and starts with neither a space nor a newline; the scan fails exactly when a newline ends the run of spaces |
| Escape.TokenLength | cmd/decoder.go:80 | the scanned token is the longest prefix of digits and underscores |
| Escape.ScanUint8 | cmd/decoder.go:76-80 | the scan returns `io.EOF` exactly when the window holds only skippable spaces |
| Escape.ScanDigits | cmd/decoder.go:76-80 | a window of digits scans to its value, or fails when the value is over 255 |
| Escape.UnescapePlainPrefix | cmd/decoder.go:60-62 | bytes other than `\` are copied to the output in order, whatever follows them |
| Escape.UnescapeIdentity | cmd/decoder.go:60-62 | a text without a backslash decodes to itself |
| Escape.UnescapeNamedEscape | cmd/decoder.go:69-71 | `\c` for c in `abfnrtv\'"` emits the byte at c's index in the parallel table |
| Escape.UnescapeHexEscape | cmd/decoder.go:75-77 | `\xHL` with two hex digits emits v = 16H + L and consumes four bytes (`x` and v are parameters fixed by the precondition) |
| Escape.UnescapeHexFallback | cmd/decoder.go:75-77 | `\x` followed by a byte that is neither a hex digit nor a space: the scan error is discarded and the backslash is emitted for the four bytes |
| Escape.UnescapeHexShort | cmd/decoder.go:75-77 | `\x` and one hex digit at the end of the text decode to that digit's value |
| Escape.UnescapeOctalEscape | cmd/decoder.go:78-84 | `\abc` with three octal digits emits 64a + 8b + c when that is at most 255, and otherwise fails the decode |
| Escape.UnescapeUnknownEscape | cmd/decoder.go:78-83 | a backslash before an ASCII byte that is no letter, no `x`, no octal digit and no space fails the decode with a syntax error |
| Escape.UnescapeEndOfInput | cmd/decoder.go:64-83 | the decode returns `io.EOF` only if some backslash in the text is followed, within its window of three bytes, by nothing but skippable spaces |
| Escape.UnescapeBlankOctalWindow | cmd/decoder.go:79-83 | a backslash whose octal window is filled with one to three spaces ends the decode with `io.EOF` |
| Escape.UnescapeTrailingBackslash | cmd/decoder.go:64-67 | a backslash after any complete escapes fails the decode with `io.EOF` |
| Escape.UnescapeEscapeByte | cmd/decoder.go:60-85 | the escape written for any byte, in either style, decodes to that byte and leaves what follows untouched |
| Escape.UnescapeEscapeText | cmd/decoder.go:52-86 | the escaped text of any bytes decodes to those bytes, followed by the decode of what comes after |
| Escape.UnescapeRoundTrip | cmd/decoder.go:49-88 | decoding the escaped text of any bytes gives back those bytes |
| Codec.DecodeInt | cmd/decoder.go:124-126 | succeeds exactly on eight or more bytes; the rest follows the first eight; the value is their big-endian reading minus 2^63 |
| Codec.FlipSignBit | cmd/decoder.go:124 | XOR with 2^63 keeps the low 63 bits and toggles the top bit |
| Codec.ToInt64 | cmd/decoder.go:124 | `int64(u)` is negative exactly when the top bit is set, and is congruent to u modulo 2^64 |
| Codec.DecodeEncodeInt | cmd/decoder.go:110-112 | every int64 decodes back from its eight bytes, leaving the bytes after them |
| Codec.EncodeDecodeInt | cmd/decoder.go:110-112 | every eight bytes are the encoding of the int64 they decode to |
| Codec.DecodeIntPreservesOrder | cmd/decoder.go:124-126 | eight-byte ids compare bytewise as their decoded values compare |
| Codec.EncodeIntPreservesOrder | cmd/decoder.go:124-126 | encodings compare bytewise as the integers do, and distinct integers have distinct encodings |
| Bytes.LexLessIsNumericOrder | cmd/decoder.go:124-126 | on equal lengths, lexicographic byte order is numeric big-endian order |
| Bytes.BigEndianOfToBigEndian | cmd/decoder.go:110-112 | reading back the n big-endian bytes of u gives u |
| Bytes.ToBigEndianOfBigEndian | cmd/decoder.go:110-112 | writing the big-endian value of a byte string gives back that string |
| KeyLayout.DecodeTableRow | cmd/decoder.go:120-131 | succeeds exactly when the key has 19 bytes with `t`, `_`, `r` at 0, 9, 10; otherwise "illegal code format"; the ids are the comparable ints at 1..9 and 11..19 |
| KeyLayout.DecodeTableIndex | cmd/decoder.go:105-113 | succeeds exactly when the key has at least 19 bytes with `t`, `_`, `i` at 0, 9, 10; otherwise "illegal code format"; the ids are decoded from 1..9 and 11..19, and the value bytes are exactly those from 19 on |
| KeyLayout.DecodeTableRowKey | cmd/decoder.go:120-128 | every (table id, row id) pair decodes back from its row key |
| KeyLayout.TableRowKeyOfDecoded | cmd/decoder.go:121-126 | a key that decodes as a row is exactly that row's key: the layout has no slack |
| KeyLayout.DecodeTableIndexKey | cmd/decoder.go:105-113 | every index prefix followed by any value bytes decodes back to its ids and those bytes |
| KeyLayout.TableIndexKeyOfDecoded | cmd/decoder.go:106-109 | a key that decodes as an index key is its prefix followed by the reported value bytes |
| KeyLayout.TableRowKeysSortByIds | cmd/decoder.go:121-126 | row keys sort by table id, then by row id |
| IndexValue.DecodeValues | cmd/decoder.go:90-103 | the loop yields no more data than there are bytes, and yields none exactly when the input is empty or its first decode fails |
| IndexValue.DecodeIndexValue | cmd/decoder.go:90-103 | the loop that reassigns `key = remain` yields exactly `DecodeValues(buf)` |
| IndexValue.DecodeTableIndexValues | cmd/decoder.go:105-117 | an index key is accepted exactly when `DecodeTableIndex` accepts it, and its data are those decoded from byte 19 on |
| IndexValue.DecodeValuesConcat | cmd/decoder.go:92-101 | over a decoder that inverts an encoder, a run of encodings yields their data, then what the tail yields |
| IndexValue.DecodeValuesRoundTrip | cmd/decoder.go:92-101 | a value suffix made of encodings yields exactly those data |
| IndexValue.DecodeValuesKeepsPrefix | cmd/decoder.go:93-95 | a failing decode ends the loop and keeps every datum read before it |
| TestVectors.TestKeysArePlain | cmd/decoder_test.go:13-33 | the test keys contain no backslash |
| TestVectors.RowTestKeyUnescapes | cmd/decoder_test.go:13-14 | `decodeKey` returns the row test key unchanged |
| TestVectors.IndexTestKeyUnescapes | cmd/decoder_test.go:26-27 | `decodeKey` returns the index test key unchanged |
| TestVectors.RowTestKeyOctalText | cmd/decoder_test.go:18 | the row key written with octal escapes, typed as text, decodes to the row key |
| TestVectors.RowTestKeyDecodes | cmd/decoder_test.go:13-21 | the row test key decodes to table 1935, row 539578 |
| TestVectors.IndexTestKeyDecodes | cmd/decoder_test.go:26-33 | the index test key decodes to table 95, index 1, and the 18 value bytes after the prefix |

## Left out

- `decodeKeyFunc` and `init` (cmd/decoder.go:133-164) are CLI glue and are not modelled. This covers cobra flags, the argument checks, base64 decoding of `value` keys and the choice of format. That glue discards `decodeKey`'s error at lines 144 and 148, and returns nil for an unknown format.
- Printing with `fmt.Printf` is not modelled. Each decoder returns the values it would print: the ids as a record and the data as a sequence.
- `codec.DecodeOne`, `types.KindStr` and `Datum.ToString` belong to the TiDB library, which is not part of this model. The single-datum decoder is a parameter of `DecodeIndexValue`. The model assumes only that a successful decode returns a strictly shorter suffix of its input; without that, the Go loop need not end. The value kinds, their byte formats and the third test (`TestIndexValueDecode`, base64 input) are therefore left out.
- `ScanUint8`: its contract states only when it returns `io.EOF`. Its values are stated by `ScanDigits` (windows of digits), and its other failures by `UnescapeUnknownEscape` and `UnescapeHexFallback` (a window that starts with no digit).
- `ScanUint8`: skips only the ASCII spaces. Go's `fmt` reads runes and also skips the multi-byte UTF-8 spaces: U+0085, U+00A0, U+1680, U+2000 to U+200A, U+2028, U+2029, U+202F, U+205F and U+3000. An octal window that starts with a two-byte space followed by a digit (`\` C2 A0 `7`) decodes to 7 in Go but fails in the model. A window holding one three-byte space (`\` E3 80 80) returns `io.EOF` in Go and `SyntaxError` in the model.
- `UnescapeUnknownEscape`: is stated for an ASCII byte after the backslash only, because of the multi-byte spaces above.
- Only `io.EOF` is modelled as a `ReadByte` error (cmd/decoder.go:55-56). `bytes.Buffer.ReadByte` returns no other error.
- The error values are not modelled as Go errors. The model uses `EndOfInput` for `io.EOF`, `SyntaxError` for any other `Sscanf` error, and `IllegalCodeFormat` for the layout error.
- The expected output strings of cmd/decoder_test.go are not modelled: the `format:` headers, and `row_id:` printed for an index key, which decoder.go prints as `index_id:`. Only the numbers and bytes are. The tests also pass each key as a positional argument without `--format` or `--key`, while `decodeKeyFunc` reads only those flags (cmd/decoder.go:137-141, 162-163); with the code shown, the test keys never reach `decodeKey`, so the tests belong to another version of the command.
- Some descriptions of the decoder differ from the code; the model follows the code. A short `\x` or `\ddd` window at the end of the text is scanned as it is rather than reported as truncated. `\x` accepts a single digit, and its scan errors are never reported.
