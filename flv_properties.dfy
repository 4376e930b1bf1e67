/**
 * What the demuxer promises: how each read consumes the stream and what it
 * returns or fails with, an encoder for headers and tags whose output the
 * demuxer reads back, and the behaviour of the RTP time conversion.
 */
module FlvProperties {
  import opened Wrappers
  import opened Bytes
  import opened Io
  import opened Flv

  // ---------------------------------------------------------------------
  // The file header

  /** The 9 header bytes at `pos`, when they are there. */
  function HeaderAt(data: seq<uint8>, pos: nat): seq<uint8>
    requires pos + HeaderSize <= |data|
  {
    data[pos..pos + HeaderSize]
  }

  /**
   * The header is rejected as wrong exactly when 9 bytes are there and the
   * first three are not "FLV"; it has then consumed those 9 bytes and no more.
   */
  lemma WrongHeaderExactly(data: seq<uint8>, pos: nat)
    requires pos <= |data|
    ensures ParseHeader(data, pos).result == Fail(WrongHeader) <==>
      pos + HeaderSize <= |data| && data[pos..pos + 3] != Signature
    ensures ParseHeader(data, pos).result == Fail(WrongHeader) ==> ParseHeader(data, pos).next == pos + HeaderSize
  {
    if pos + HeaderSize <= |data| {
      assert HeaderAt(data, pos)[..3] == data[pos..pos + 3];
    }
  }

  /** The version byte (3) and the flags byte (4) never change what `readHeader` does. */
  lemma HeaderIgnoresVersionAndFlags(data: seq<uint8>, pos: nat, version: uint8, flags: uint8)
    requires pos + 5 <= |data|
    ensures ParseHeader(data[pos + 3 := version][pos + 4 := flags], pos) == ParseHeader(data, pos)
  {
    var data' := data[pos + 3 := version][pos + 4 := flags];
    if pos + HeaderSize <= |data| {
      var b, b' := HeaderAt(data, pos), HeaderAt(data', pos);
      assert b[..3] == b'[..3];
      assert b[5..] == b'[5..];
      assert data'[pos + HeaderSize..] == data[pos + HeaderSize..];
    }
  }

  /**
   * `readHeader` succeeds exactly when the 9 bytes are there, start with the
   * signature, and the skip count of bytes follows them. It then leaves the
   * cursor after the skipped bytes; for a header length of at least 9 that is
   * `headerLength` bytes after where it began.
   */
  lemma HeaderSuccess(data: seq<uint8>, pos: nat)
    requires pos <= |data|
    ensures ParseHeader(data, pos).result.Ok? <==>
      pos + HeaderSize <= |data| && data[pos..pos + 3] == Signature
      && HeaderSkip(HeaderAt(data, pos)) as int <= |data| - pos - HeaderSize
    ensures ParseHeader(data, pos).result.Ok? ==>
      ParseHeader(data, pos).next == pos + HeaderSize + HeaderSkip(HeaderAt(data, pos)) as int
    ensures ParseHeader(data, pos).result.Ok? && HeaderLength(HeaderAt(data, pos)) >= 9 ==>
      ParseHeader(data, pos).next == pos + HeaderLength(HeaderAt(data, pos)) as int
  {
    if pos + HeaderSize <= |data| {
      assert HeaderAt(data, pos)[..3] == data[pos..pos + 3];
    }
  }

  /** The header length is the big-endian value of bytes 5..8 of the stream's header. */
  lemma HeaderLengthBytes(data: seq<uint8>, pos: nat)
    requires pos + HeaderSize <= |data|
    ensures PutUint32(HeaderLength(HeaderAt(data, pos))) == data[pos + 5..pos + HeaderSize]
  {
    assert HeaderAt(data, pos)[5..] == data[pos + 5..pos + HeaderSize];
  }

  /**
   * A read failure in `readHeader` is passed on as it is: EOF when nothing
   * was there, unexpected EOF when the 9 bytes or the skipped bytes are
   * incomplete (EOF again when the skipped bytes are missing altogether).
   */
  lemma HeaderReadErrors(data: seq<uint8>, pos: nat)
    requires pos <= |data|
    ensures |data| - pos < HeaderSize ==>
      ParseHeader(data, pos) == Step(Fail(ReadFailed(if pos == |data| then EOF else UnexpectedEOF)), |data|)
    ensures (pos + HeaderSize <= |data| && data[pos..pos + 3] == Signature
             && |data| - pos - HeaderSize < HeaderSkip(HeaderAt(data, pos)) as int) ==>
      ParseHeader(data, pos) ==
        Step(Fail(ReadFailed(if pos + HeaderSize == |data| then EOF else UnexpectedEOF)), |data|)
  {
    if pos + HeaderSize <= |data| {
      assert HeaderAt(data, pos)[..3] == data[pos..pos + 3];
    }
  }

  /**
   * A header length below 9 is not rejected: the wrapped skip count asks for
   * more than 2^32 - 10 bytes, so when fewer than 2^32 - 9 bytes follow the
   * header the header read fails with a read error.
   */
  lemma HeaderLengthBelowNine(data: seq<uint8>, pos: nat)
    requires pos + HeaderSize <= |data| && data[pos..pos + 3] == Signature
    requires HeaderLength(HeaderAt(data, pos)) < 9
    ensures HeaderSkip(HeaderAt(data, pos)) as int >= TWO_32 - 9
    ensures |data| - pos - HeaderSize < TWO_32 - 9 ==>
      (ParseHeader(data, pos).result.Fail? && ParseHeader(data, pos).result.error.ReadFailed?)
  {
    HeaderReadErrors(data, pos);
  }

  /** A well-formed FLV file header with `trailer` as its extra bytes. */
  function EncodeHeader(version: uint8, flags: uint8, trailer: seq<uint8>): (b: seq<uint8>)
    requires HeaderSize + |trailer| < TWO_32
    ensures |b| == HeaderSize + |trailer|
  {
    Signature + [version, flags] + PutUint32((HeaderSize + |trailer|) as uint32) + trailer
  }

  /** `readHeader` accepts every encoded header and consumes exactly it. */
  lemma ParseEncodedHeader(data: seq<uint8>, pos: nat, version: uint8, flags: uint8, trailer: seq<uint8>)
    requires HeaderSize + |trailer| < TWO_32
    requires pos + HeaderSize + |trailer| <= |data|
    requires data[pos..pos + HeaderSize + |trailer|] == EncodeHeader(version, flags, trailer)
    ensures ParseHeader(data, pos) == Step(Ok(()), pos + HeaderSize + |trailer|)
  {
    var enc := EncodeHeader(version, flags, trailer);
    var b := HeaderAt(data, pos);
    assert b == enc[..HeaderSize];
    assert b[..3] == Signature;
    assert b[5..] == PutUint32((HeaderSize + |trailer|) as uint32);
    BigEndianOfPut((HeaderSize + |trailer|) as uint32);
    HeaderSuccess(data, pos);
  }

  // ---------------------------------------------------------------------
  // Tags

  /** The 11 tag-header bytes of the tag record at `pos`, after the previous tag size. */
  function TagHeaderAt(data: seq<uint8>, pos: nat): seq<uint8>
    requires pos + PreviousTagSizeLength + TagHeaderSize <= |data|
  {
    data[pos + PreviousTagSizeLength..pos + PreviousTagSizeLength + TagHeaderSize]
  }

  /** The tag header `ReadTag` decodes is the 11 bytes after the previous tag size. */
  lemma TagHeaderOfRead(data: seq<uint8>, pos: nat)
    requires pos + PreviousTagSizeLength + TagHeaderSize <= |data|
    ensures FullRead(data, pos, PreviousTagSizeLength + TagHeaderSize).result.value[PreviousTagSizeLength..]
      == TagHeaderAt(data, pos)
  {
  }

  /**
   * `ReadTag` succeeds exactly when the 15 bytes of previous tag size and tag
   * header are there and `size` more bytes follow. It then returns the raw
   * type byte (no check against audio, video or data), the time, and as body
   * the `size` bytes after the tag header, and leaves the cursor `15 + size`
   * bytes further on.
   */
  lemma TagSuccess(data: seq<uint8>, pos: nat)
    requires pos <= |data|
    ensures ParseTag(data, pos).result.Ok? <==>
      pos + PreviousTagSizeLength + TagHeaderSize <= |data|
      && TagSize(TagHeaderAt(data, pos)) as int <= |data| - pos - PreviousTagSizeLength - TagHeaderSize
    ensures ParseTag(data, pos).result.Ok? ==>
      var h := TagHeaderAt(data, pos);
      var start := pos + PreviousTagSizeLength + TagHeaderSize;
      && ParseTag(data, pos).next == start + TagSize(h) as int
      && ParseTag(data, pos).result.value
         == Tag(data[pos + PreviousTagSizeLength], TagTimestamp(h), data[start..start + TagSize(h) as int])
  {
    if pos + PreviousTagSizeLength + TagHeaderSize <= |data| {
      TagHeaderOfRead(data, pos);
    }
  }

  /**
   * When `ReadTag` fails it consumes the rest of the stream and passes the
   * read error on: EOF when no byte was left at the tag boundary, and also
   * when the stream ends right after a complete tag header whose size is not
   * zero; unexpected EOF whenever some but not all of a read's bytes are there.
   */
  lemma TagReadErrors(data: seq<uint8>, pos: nat)
    requires pos <= |data|
    ensures ParseTag(data, pos).result.Fail? ==> ParseTag(data, pos).next == |data|
    ensures ParseTag(data, pos).result.Fail? ==> ParseTag(data, pos).result.error.ReadFailed?
    ensures ParseTag(data, pos).result == Fail(ReadFailed(EOF)) <==>
      pos == |data|
      || (|data| == pos + PreviousTagSizeLength + TagHeaderSize && TagSize(TagHeaderAt(data, pos)) > 0)
    ensures ParseTag(data, pos).result == Fail(ReadFailed(UnexpectedEOF)) <==>
      0 < |data| - pos < PreviousTagSizeLength + TagHeaderSize
      || (pos + PreviousTagSizeLength + TagHeaderSize < |data|
          && |data| - pos - PreviousTagSizeLength - TagHeaderSize < TagSize(TagHeaderAt(data, pos)) as int)
  {
    if pos + PreviousTagSizeLength + TagHeaderSize <= |data| {
      TagHeaderOfRead(data, pos);
    }
  }

  /**
   * `ReadTag` does not look at the previous tag size (bytes 0..3 of the
   * record) nor at the stream id (bytes 12..14, the last three of the tag
   * header).
   */
  lemma TagIgnoresPreviousSizeAndStreamId(data: seq<uint8>, data': seq<uint8>, pos: nat)
    requires pos <= |data| == |data'|
    requires forall i :: 0 <= i < |data| && !(pos <= i < pos + 4) && !(pos + 12 <= i < pos + 15) ==> data'[i] == data[i]
    ensures ParseTag(data', pos) == ParseTag(data, pos)
  {
    if pos + PreviousTagSizeLength + TagHeaderSize <= |data| {
      var h, h' := TagHeaderAt(data, pos), TagHeaderAt(data', pos);
      forall k | 0 <= k < 8
        ensures h[k] == h'[k]
      {
        assert h[k] == data[pos + 4 + k] && h'[k] == data'[pos + 4 + k];
      }
      assert TagSize(h) == TagSize(h');
      assert TagTimestamp(h) == TagTimestamp(h');
      var start := pos + PreviousTagSizeLength + TagHeaderSize;
      var size := TagSize(h) as int;
      if size <= |data| - start {
        assert data'[start..start + size] == data[start..start + size] by {
          forall k | start <= k < start + size
            ensures data'[k] == data[k]
          {
          }
        }
      }
      TagHeaderOfRead(data, pos);
      TagHeaderOfRead(data', pos);
    }
  }

  /** The four time bytes of a tag header: the low 24 bits big-endian, then the top 8 bits. */
  function PutTimestamp(ts: uint32): (b: seq<uint8>)
    ensures |b| == 4
  {
    PutUint32(ts)[1..] + PutUint32(ts)[..1]
  }

  /** The time is the big-endian value of the time bytes taken with the extended byte first. */
  lemma TimestampAsBigEndian(h: seq<uint8>)
    requires |h| == TagHeaderSize
    ensures TagTimestamp(h) == BigEndianUint32([h[7], h[4], h[5], h[6]])
  {
  }

  /** Reading the time back from its four bytes gives it again. */
  lemma TimestampRoundTrip(ts: uint32, h: seq<uint8>)
    requires |h| == TagHeaderSize && h[4..8] == PutTimestamp(ts)
    ensures TagTimestamp(h) == ts
  {
    var b := PutUint32(ts);
    assert [h[7], h[4], h[5], h[6]] == b by {
      assert h[4] == b[1] && h[5] == b[2] && h[6] == b[3] && h[7] == b[0];
    }
    TimestampAsBigEndian(h);
    BigEndianOfPut(ts);
  }

  /** The time bytes of a tag header are exactly what encoding its time writes. */
  lemma TimestampBytes(h: seq<uint8>)
    requires |h| == TagHeaderSize
    ensures PutTimestamp(TagTimestamp(h)) == h[4..8]
  {
    TimestampAsBigEndian(h);
    var b := PutUint32(TagTimestamp(h));
    assert b == [h[7], h[4], h[5], h[6]][..4];
  }

  /** The extended byte supplies the top bits: `FF FF FF 01` is 0x01FFFFFF. */
  lemma ExtendedTimestampExample(h: seq<uint8>)
    requires |h| == TagHeaderSize && h[4..8] == [0xFF, 0xFF, 0xFF, 0x01]
    ensures TagTimestamp(h) == 0x01FF_FFFF
  {
    TimestampRoundTrip(0x01FF_FFFF, h);
  }

  /** A tag whose body size fits in the 24-bit size field. */
  predicate Encodable(t: Tag) {
    |t.payload| < 0x100_0000
  }

  /** A tag record: previous tag size, the 11-byte tag header with stream id 0, the body. */
  function EncodeTag(prevSize: uint32, t: Tag): (b: seq<uint8>)
    requires Encodable(t)
    ensures |b| == PreviousTagSizeLength + TagHeaderSize + |t.payload|
  {
    PutUint32(prevSize) + [t.tagType] + PutUint32(|t.payload| as uint32)[1..] + PutTimestamp(t.timeMS)
      + [0, 0, 0] + t.payload
  }

  /** Where each field sits in a tag record. */
  lemma EncodeTagFields(prevSize: uint32, t: Tag)
    requires Encodable(t)
    ensures var enc := EncodeTag(prevSize, t);
      && enc[..4] == PutUint32(prevSize)
      && enc[4] == t.tagType
      && enc[5..8] == PutUint32(|t.payload| as uint32)[1..]
      && enc[8..12] == PutTimestamp(t.timeMS)
      && enc[12..15] == [0, 0, 0]
      && enc[15..] == t.payload
  {
    RecordPieces(PutUint32(prevSize), [t.tagType], PutUint32(|t.payload| as uint32)[1..], PutTimestamp(t.timeMS),
      [0, 0, 0], t.payload);
  }

  /** The pieces of a record laid end to end are found again at their offsets. */
  lemma RecordPieces<T>(a: seq<T>, b: seq<T>, c: seq<T>, d: seq<T>, e: seq<T>, f: seq<T>)
    requires |a| == 4 && |b| == 1 && |c| == 3 && |d| == 4 && |e| == 3
    ensures var r := a + b + c + d + e + f;
      r[..4] == a && r[4] == b[0] && r[5..8] == c && r[8..12] == d && r[12..15] == e && r[15..] == f
  {
    var r := a + b + c + d + e + f;
    assert r[..4] == a;
    assert r[5..8] == c by { assert forall k | 0 <= k < 3 :: r[5 + k] == c[k]; }
    assert r[8..12] == d by { assert forall k | 0 <= k < 4 :: r[8 + k] == d[k]; }
    assert r[12..15] == e by { assert forall k | 0 <= k < 3 :: r[12 + k] == e[k]; }
    assert r[15..] == f by { assert forall k | 0 <= k < |f| :: r[15 + k] == f[k]; }
  }

  /** `ReadTag` gives back every encoded tag and consumes exactly its record. */
  lemma ParseEncodedTag(data: seq<uint8>, pos: nat, prevSize: uint32, t: Tag)
    requires Encodable(t)
    requires pos + |EncodeTag(prevSize, t)| <= |data|
    requires data[pos..pos + |EncodeTag(prevSize, t)|] == EncodeTag(prevSize, t)
    ensures ParseTag(data, pos) == Step(Ok(t), pos + |EncodeTag(prevSize, t)|)
  {
    var enc := EncodeTag(prevSize, t);
    EncodeTagFields(prevSize, t);
    var h := TagHeaderAt(data, pos);
    SubSlice(data, pos, enc, 4, 15);
    var sz := PutUint32(|t.payload| as uint32);
    assert h[1..4] == enc[5..8] == sz[1..];
    assert sz[0] == 0;
    BigEndianOfPut(|t.payload| as uint32);
    assert TagSize(h) == BigEndianUint32(sz);
    assert h[4..8] == enc[8..12];
    TimestampRoundTrip(t.timeMS, h);
    TagSuccess(data, pos);
    SubSlice(data, pos, enc, 15, |enc|);
  }

  /** A slice holding `enc` holds each piece of `enc` at the matching offset. */
  lemma SubSlice(data: seq<uint8>, pos: nat, enc: seq<uint8>, i: nat, j: nat)
    requires pos + |enc| <= |data| && data[pos..pos + |enc|] == enc
    requires i <= j <= |enc|
    ensures data[pos + i..pos + j] == enc[i..j]
  {
    forall k | 0 <= k < j - i
      ensures data[pos + i..pos + j][k] == enc[i..j][k]
    {
      assert data[pos + i + k] == data[pos..pos + |enc|][i + k];
    }
  }

  /** A file with a bare 9-byte header and one 5-byte video tag at time 1 reads as that tag, then EOF. */
  lemma OneVideoTagExample(payload: seq<uint8>)
    requires |payload| == 5
    ensures var file := [0x46, 0x4C, 0x56, 1, 0, 0, 0, 0, 9]
      + [0, 0, 0, 0, 9, 0, 0, 5, 0, 0, 1, 0, 0, 0, 0] + payload;
      && ParseHeader(file, 0) == Step(Ok(()), 9)
      && ParseTag(file, 9) == Step(Ok(Tag(TagVideo, 1, payload)), 29)
      && ParseTag(file, 29) == Step(Fail(ReadFailed(EOF)), 29)
  {
    var file := [0x46, 0x4C, 0x56, 1, 0, 0, 0, 0, 9] + [0, 0, 0, 0, 9, 0, 0, 5, 0, 0, 1, 0, 0, 0, 0] + payload;
    var hdr: seq<uint8> := [];
    assert file[..9] == EncodeHeader(1, 0, hdr);
    ParseEncodedHeader(file, 0, 1, 0, hdr);
    assert file[9..29] == EncodeTag(0, Tag(TagVideo, 1, payload));
    ParseEncodedTag(file, 9, 0, Tag(TagVideo, 1, payload));
  }

  /** A declared size of 10 with only 5 body bytes left is unexpected EOF, never a short body. */
  lemma TruncatedBodyExample(record: seq<uint8>)
    requires |record| == 20 && record[5] == 0 && record[6] == 0 && record[7] == 10
    ensures ParseTag(record, 0) == Step(Fail(ReadFailed(UnexpectedEOF)), 20)
  {
    var h := TagHeaderAt(record, 0);
    assert h[1] == record[5] && h[2] == record[6] && h[3] == record[7];
    assert TagSize(h) == 10;
    TagReadErrors(record, 0);
  }

  /** "XLV" is a wrong header, found before any tag is read. */
  lemma WrongSignatureExample(rest: seq<uint8>)
    requires |rest| >= 6
    ensures ParseHeader([0x58, 0x4C, 0x56] + rest, 0) == Step(Fail(WrongHeader), 9)
  {
    var data := [0x58, 0x4C, 0x56] + rest;
    assert data[..3] != Signature by { assert data[0] != Signature[0]; }
    WrongHeaderExactly(data, 0);
  }

  // ---------------------------------------------------------------------
  // Time conversion

  /** The exact number of whole clock units in `timeMS` milliseconds. */
  function ExactClockUnits(timeMS: uint32, clockRate: uint32): int {
    timeMS as int * clockRate as int / 1000
  }

  /**
   * `TimeToRTP` gives the exact number of clock units exactly when
   * `timeMS * clockRate` fits in 32 bits; beyond that the wrapped product
   * always gives a smaller answer.
   */
  lemma TimeToRTPExactIff(timeMS: uint32, clockRate: uint32)
    ensures TimeToRTP(timeMS, clockRate) as int == ExactClockUnits(timeMS, clockRate)
      <==> timeMS as int * clockRate as int < TWO_32
    ensures TWO_32 <= timeMS as int * clockRate as int ==>
      TimeToRTP(timeMS, clockRate) as int < ExactClockUnits(timeMS, clockRate)
  {
    var p := timeMS as int * clockRate as int;
    NonNegativeProduct(timeMS as int, clockRate as int);
    if TWO_32 <= p {
      var w := Mul32(timeMS, clockRate) as int;
      assert w == p % TWO_32;
      assert w <= p - TWO_32;
      assert w / 1000 <= (p - TWO_32) / 1000;
      assert (p - TWO_32) / 1000 < p / 1000;
    }
  }

  /** One second is the clock rate; half a second half of it; time 0 is 0. */
  lemma TimeToRTPExamples()
    ensures TimeToRTP(1000, 90000) == 90000
    ensures TimeToRTP(500, 90000) == 45000
    ensures TimeToRTP(0, 8000) == 0
  {
    TimeToRTPExactIff(1000, 90000);
    TimeToRTPExactIff(500, 90000);
    TimeToRTPExactIff(0, 8000);
  }

  /** At 90 kHz the product wraps after about 47.7 seconds: 50 seconds give 205032, not 4500000. */
  lemma TimeToRTPWrapExample()
    ensures TimeToRTP(50000, 90000) == 205032
    ensures ExactClockUnits(50000, 90000) == 4500000
  {
    assert 50000 * 90000 == 4500000000;
    assert Mul32(50000, 90000) == 205032704;
  }
}
