# FLV demuxer model

A Dafny model of go2rtc's FLV demuxer (`pkg/flv/flv.go`). The demuxer reads a
Flash Video stream in one pass. `NewTransport` reads the 9-byte file header:
the "FLV" signature, a version byte and a flags byte that are both ignored,
and a big-endian `headerLength`. It then skips `headerLength - 9` trailer
bytes. After that, each `ReadTag` reads one tag record: the 4-byte size of the
previous tag, which is dropped, then the 11-byte tag header, then the body.
It returns the raw type byte, the 32-bit millisecond time (24 low bits plus
an extended top byte) and the body. `TimeToRTP` converts milliseconds into
ticks of an RTP clock.

Layout:

- `wrappers.dfy`: `Option` and `Result`.
- `bytes.dfy` (module `Bytes`): Go's `uint8` and `uint32`, with `uint32`
  subtraction and multiplication modulo 2^32, and the big-endian helpers of
  `encoding/binary`. Go's `<<` and `|` over disjoint byte fields are written
  as multiplications and additions.
- `io.dfy` (module `Io`): the `io.Reader` is a fixed byte sequence with a
  cursor (`Reader`). `io.ReadFull` is a method on it, specified by the
  function `FullRead`.
- `flv.dfy` (module `Flv`): the constants, the tag type, and `ParseHeader` and
  `ParseTag`, which say what `readHeader` and `ReadTag` do at a cursor. It also
  holds the `Transport` class, whose methods are proved against those
  functions, plus `NewTransport` and `TimeToRTP`.
- `flv_properties.dfy` (module `FlvProperties`): what the reads promise, an
  encoder for headers and tag records whose output the demuxer reads back
  exactly, and the behaviour of `TimeToRTP`, wrap-around included.

Behaviours of the code that a reader of the FLV format might not expect:

- **Header length below 9.** Nothing rejects it. The code computes
  `headerLength - 9` in `uint32`, so the skip wraps to
  `2^32 - (9 - headerLength)` bytes, and when fewer bytes than that follow the
  header the header read fails with a read error (`HeaderLengthBelowNine`).
  There is no separate "invalid header length" error.
- **`TimeToRTP`.** The multiplication is done in `uint32`, so the product
  wraps before the division. For example, 50 s at 90 kHz gives 205032, not
  4500000. `TimeToRTPExactIff` states exactly when the result is the true
  rounded-down quotient.
- **End of stream.** `ReadTag` reports it as the error `io.EOF`, modelled as
  `ReadFailed(EOF)`. A tag boundary with no bytes left gives EOF. A stream
  that stops right after a complete tag header with a non-zero size also
  gives EOF, not unexpected EOF (`TagReadErrors`). A complete FLV file ends
  with the 4-byte size of its last tag, so the read that follows the last tag
  fails with unexpected EOF, not EOF.

## Model

| member | source | states |
|---|---|---|
| Bytes.Sub32 | pkg/flv/flv.go:76 | `uint32` subtraction: the exact difference when it is non-negative, otherwise the difference plus 2^32 |
| Bytes.Mul32 | pkg/flv/flv.go:86 | `uint32` multiplication: the product modulo 2^32, which is the exact product when it fits |
| Bytes.BigEndianUint32 | pkg/flv/flv.go:76 | `binary.BigEndian.Uint32`: the result's four big-endian bytes are exactly the first four input bytes |
| Bytes.BigEndianOfPut | pkg/flv/flv.go:76 | decoding the four bytes of a `uint32` gives the value back |
| Bytes.Uint24 | pkg/flv/flv.go:46-47 | three bytes ORed with shifts 16, 8, 0: a value below 2^24 whose base-256 digits are the three bytes |
| Io.FullRead | pkg/flv/flv.go:39-41 | `io.ReadFull` for n bytes: succeeds iff n bytes remain, then returns exactly them and advances n. EOF iff nothing remains and n > 0. Unexpected EOF iff some but fewer than n remain. A failure consumes the rest |
| Io.Reader.ReadFull | pkg/flv/flv.go:50-52 | reading n bytes from the reader gives `FullRead`'s result and cursor |
| Flv.HeaderLength | pkg/flv/flv.go:76 | the header length's big-endian bytes are header bytes 5..8 |
| Flv.HeaderSkip | pkg/flv/flv.go:76 | the skip is `headerLength - 9` when `headerLength >= 9`, else `2^32 - (9 - headerLength)` |
| Flv.TagSize | pkg/flv/flv.go:46 | the body size is below 2^24 and its digits are tag-header bytes 1, 2, 3 |
| Flv.TagTimestamp | pkg/flv/flv.go:47 | the time's top byte is tag-header byte 7 and its low 24 bits are bytes 4..6 big-endian |
| Flv.ParseHeader | pkg/flv/flv.go:64-83 | reading the header never moves the cursor back or past the end |
| Flv.ParseTag | pkg/flv/flv.go:36-55 | reading a tag stays within the stream, and a success advances exactly 15 bytes plus the body length |
| Flv.Transport.constructor | pkg/flv/flv.go:25 | the transport holds the given reader |
| Flv.Transport.ReadHeader | pkg/flv/flv.go:64-83 | `readHeader` on the reader: the new cursor and the error are those of `ParseHeader` at the old cursor |
| Flv.Transport.ReadTag | pkg/flv/flv.go:36-55 | `ReadTag` on the reader: the new cursor, the tag and the error are those of `ParseTag`. On error it returns type 0, time 0 and no body |
| Flv.NewTransport | pkg/flv/flv.go:24-30 | the header is read. On error no transport is returned. On success a new transport over the same reader is returned, with the cursor at the first tag |
| Flv.TimeToRTP | pkg/flv/flv.go:85-87 | the result never exceeds (2^32-1)/1000. Without wrap-around it is the rounded-down quotient `timeMS * clockRate / 1000` |
| FlvProperties.WrongHeaderExactly | pkg/flv/flv.go:70-72 | "wrong header" happens iff 9 bytes are there and bytes 0..2 are not "FLV". It consumes exactly those 9 bytes |
| FlvProperties.HeaderIgnoresVersionAndFlags | pkg/flv/flv.go:74 | changing bytes 3 and 4 of the header changes neither the outcome nor the cursor |
| FlvProperties.HeaderSuccess | pkg/flv/flv.go:76-82 | the header read succeeds iff the signature is there and `skip` bytes follow the 9. Then the cursor is 9 + skip further on, which is `headerLength` for `headerLength >= 9` |
| FlvProperties.HeaderLengthBytes | pkg/flv/flv.go:76 | the header length is the big-endian value of the stream's header bytes 5..8 |
| FlvProperties.HeaderReadErrors | pkg/flv/flv.go:66-68 | a short header gives EOF (no byte) or unexpected EOF. A short trailer gives EOF (no byte after the 9) or unexpected EOF. Both leave the cursor at the end |
| FlvProperties.HeaderLengthBelowNine | pkg/flv/flv.go:76-79 | `headerLength < 9` is not rejected. The skip is at least 2^32 - 9, so when fewer than 2^32 - 9 bytes follow the header the read fails with a read error |
| FlvProperties.EncodeHeader | pkg/flv/flv.go:65-76 | a file header with signature, version, flags, header length and trailer takes 9 bytes plus the trailer |
| FlvProperties.ParseEncodedHeader | pkg/flv/flv.go:64-83 | every encoded header is accepted, inside any stream, and consumed exactly |
| FlvProperties.TagHeaderOfRead | pkg/flv/flv.go:43 | the decoded tag header is the 11 bytes after the previous tag size |
| FlvProperties.TagSuccess | pkg/flv/flv.go:38-54 | a tag read succeeds iff 15 bytes and then `size` bytes are there. It returns the raw type byte, the decoded time and exactly the `size` bytes after the header, and advances `15 + size` |
| FlvProperties.TagReadErrors | pkg/flv/flv.go:39-52 | a failing tag read consumes the rest and passes the read error on: EOF iff no byte was left, or the stream ends right after a header with non-zero size. Unexpected EOF iff the 15 bytes or the body are incomplete |
| FlvProperties.TagIgnoresPreviousSizeAndStreamId | pkg/flv/flv.go:43-47 | changing the previous tag size or the stream id changes nothing a tag read returns |
| FlvProperties.PutTimestamp | pkg/flv/flv.go:47 | the time is written as four bytes: low 24 bits big-endian, then the extended byte |
| FlvProperties.TimestampAsBigEndian | pkg/flv/flv.go:47 | the time is the big-endian value of bytes 7, 4, 5, 6 |
| FlvProperties.TimestampRoundTrip | pkg/flv/flv.go:47 | reading the written time bytes gives the time back |
| FlvProperties.TimestampBytes | pkg/flv/flv.go:47 | writing the decoded time gives the header's time bytes back |
| FlvProperties.ExtendedTimestampExample | pkg/flv/flv.go:47 | time bytes `FF FF FF 01` give 0x01FFFFFF |
| FlvProperties.EncodeTag | pkg/flv/flv.go:38-47 | a tag record is 15 bytes plus the body |
| FlvProperties.EncodeTagFields | pkg/flv/flv.go:43-47 | a tag record holds the previous size, type, size, time, stream id 0 and body at the offsets `ReadTag` reads them from |
| FlvProperties.ParseEncodedTag | pkg/flv/flv.go:36-55 | every encoded tag, inside any stream, is read back as that tag, and the cursor ends right after its record |
| FlvProperties.OneVideoTagExample | pkg/flv/flv.go:24-55 | a 9-byte header and one 5-byte video tag at time 1: the header, then that tag, then EOF |
| FlvProperties.TruncatedBodyExample | pkg/flv/flv.go:49-52 | a declared size of 10 with 5 bytes left gives unexpected EOF and never a short body |
| FlvProperties.WrongSignatureExample | pkg/flv/flv.go:70-72 | "XLV" is a wrong header after 9 bytes |
| FlvProperties.TimeToRTPExactIff | pkg/flv/flv.go:85-87 | the result is exactly `floor(t*r/1000)` iff `t*r < 2^32`. Otherwise it is strictly less |
| FlvProperties.TimeToRTPExamples | pkg/flv/flv.go:85-87 | 1000 ms and 500 ms at 90 kHz give 90000 and 45000. Time 0 gives 0 |
| FlvProperties.TimeToRTPWrapExample | pkg/flv/flv.go:86 | 50000 ms at 90 kHz gives 205032, where the exact value is 4500000 |

## Left out

- `Close` (pkg/flv/flv.go:57-62): it calls into `io.Closer` on the reader, which is foreign code with no state in this model.
- `CodecAAC` and `CodecAVC` (pkg/flv/flv.go:14-15): constants that the demuxer itself never uses.
- The `Transport` interface (pkg/flv/flv.go:19-21) is represented by the `Transport` class alone. Other implementations of the interface are not modelled.
- The reader is an in-memory byte sequence. Blocking, short reads inside `io.ReadFull`, and errors other than EOF and unexpected EOF (network or device failures) are not modelled.
- The allocation of up to 4 GiB for a wrapped skip count (pkg/flv/flv.go:77) is not modelled. The model only reads, or fails to read, that many bytes.
- Error values are modelled as `ReadFailed(EOF)`, `ReadFailed(UnexpectedEOF)` and `WrongHeader`. Their message strings are not.
- A whole stream read tag after tag is not stated as one lemma. `ParseEncodedTag` holds for a record anywhere in a stream and gives the exact cursor after it, so each read starts where the previous record ended and the records chain one by one.
- Flv.Transport.ReadTag: Go returns a nil body on error and a non-nil empty body for a tag of size 0; the model writes `[]` for both, so nil and empty are not told apart. The returned error still separates the two cases.
