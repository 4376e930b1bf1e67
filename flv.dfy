/**
 * A forward-only demuxer for the Flash Video (FLV) container, as described in
 * Adobe's Video File Format Specification version 10, annex E: the 9-byte file
 * header (E.2), the body of tags each preceded by the previous tag's size
 * (E.3), and the 11-byte tag header (E.4.1).
 */
module Flv {
  import opened Wrappers
  import opened Bytes
  import opened Io

  const TagAudio: uint8 := 8
  const TagVideo: uint8 := 9
  const TagData: uint8 := 18

  /** "FLV" in ASCII. */
  const Signature: seq<uint8> := [0x46, 0x4C, 0x56]

  const HeaderSize: nat := 9
  const PreviousTagSizeLength: nat := 4
  const TagHeaderSize: nat := 11

  /** The errors the demuxer returns: a failed read passed on as it is, or a bad signature. */
  datatype Error = ReadFailed(cause: ReadError) | WrongHeader

  /** One tag as `ReadTag` hands it out: its raw type byte, its time in milliseconds, its body. */
  datatype Tag = Tag(tagType: uint8, timeMS: uint32, payload: seq<uint8>)

  // ---------------------------------------------------------------------
  // Field decoding

  /** The header length: bytes 5..8 of the file header, big-endian. */
  function HeaderLength(b: seq<uint8>): (n: uint32)
    requires |b| == HeaderSize
    ensures PutUint32(n) == b[5..]
  {
    BigEndianUint32(b[5..])
  }

  /**
   * The number of bytes after the 9-byte header that the header claims,
   * computed as `headerLength - 9` in `uint32`: a length below 9 wraps round.
   */
  function HeaderSkip(b: seq<uint8>): (skip: uint32)
    requires |b| == HeaderSize
    ensures HeaderLength(b) >= 9 ==> skip as int == HeaderLength(b) as int - 9
    ensures HeaderLength(b) < 9 ==> skip as int == TWO_32 - (9 - HeaderLength(b) as int)
  {
    Sub32(HeaderLength(b), 9)
  }

  /** The body size of a tag: bytes 1..3 of the tag header, big-endian, so below 2^24. */
  function TagSize(h: seq<uint8>): (size: uint32)
    requires |h| == TagHeaderSize
    ensures size as int < 0x100_0000
    ensures size as int / 0x1_0000 == h[1] as int
    ensures size as int / 0x100 % 0x100 == h[2] as int
    ensures size as int % 0x100 == h[3] as int
  {
    Uint24(h[1], h[2], h[3])
  }

  /**
   * The time of a tag. Bytes 4..6 of the tag header give its low 24 bits,
   * big-endian, and byte 7, the "extended" byte that comes after them, gives
   * the top 8 bits.
   */
  function TagTimestamp(h: seq<uint8>): (ts: uint32)
    requires |h| == TagHeaderSize
    ensures ts as int / 0x100_0000 == h[7] as int
    ensures ts as int % 0x100_0000 == Uint24(h[4], h[5], h[6]) as int
  {
    (Uint24(h[4], h[5], h[6]) as int + h[7] as int * 0x100_0000) as uint32
  }

  // ---------------------------------------------------------------------
  // Specification of the two reading operations on a stream and a cursor

  /**
   * `readHeader` at cursor `pos`: read 9 bytes, check the signature, ignore
   * the version and flags bytes, then read and drop `HeaderSkip` bytes when
   * that count is not zero.
   */
  function ParseHeader(data: seq<uint8>, pos: nat): (r: Step<(), Error>)
    requires pos <= |data|
    ensures pos <= r.next <= |data|
  {
    var first := FullRead(data, pos, HeaderSize);
    match first.result
    case Fail(e) => Step(Fail(ReadFailed(e)), first.next)
    case Ok(b) =>
      if b[..3] != Signature then Step(Fail(WrongHeader), first.next)
      else if HeaderSkip(b) > 0 then
        var second := FullRead(data, first.next, HeaderSkip(b) as nat);
        match second.result
        case Fail(e) => Step(Fail(ReadFailed(e)), second.next)
        case Ok(_) => Step(Ok(()), second.next)
      else Step(Ok(()), first.next)
  }

  /**
   * `ReadTag` at cursor `pos`: read the 4-byte previous tag size and the
   * 11-byte tag header together, drop the former, decode the type, size and
   * time, then read exactly `size` bytes of body.
   */
  function ParseTag(data: seq<uint8>, pos: nat): (r: Step<Tag, Error>)
    requires pos <= |data|
    ensures pos <= r.next <= |data|
    ensures r.result.Ok? ==> r.next == pos + PreviousTagSizeLength + TagHeaderSize + |r.result.value.payload|
  {
    var first := FullRead(data, pos, PreviousTagSizeLength + TagHeaderSize);
    match first.result
    case Fail(e) => Step(Fail(ReadFailed(e)), first.next)
    case Ok(b) =>
      var h := b[PreviousTagSizeLength..];
      var second := FullRead(data, first.next, TagSize(h) as nat);
      match second.result
      case Fail(e) => Step(Fail(ReadFailed(e)), second.next)
      case Ok(payload) => Step(Ok(Tag(h[0], TagTimestamp(h), payload)), second.next)
  }

  // ---------------------------------------------------------------------
  // The transport

  /** The demuxer: it owns the reader and keeps no other state. */
  class Transport {
    const rd: Reader

    constructor (rd: Reader)
      ensures this.rd == rd
    {
      this.rd := rd;
    }

    /** `readHeader`: consume the file header, leaving the cursor at the first tag. */
    method ReadHeader() returns (err: Option<Error>)
      requires rd.Valid()
      modifies rd
      ensures rd.Valid()
      ensures rd.pos == ParseHeader(rd.data, old(rd.pos)).next
      ensures err.None? <==> ParseHeader(rd.data, old(rd.pos)).result.Ok?
      ensures err.Some? ==> ParseHeader(rd.data, old(rd.pos)).result == Fail(err.value)
    {
      var b := rd.ReadFull(HeaderSize);
      if b.Fail? {
        return Some(ReadFailed(b.error));
      }
      if b.value[..3] != Signature {
        return Some(WrongHeader);
      }
      // the version and flags bytes (3 and 4) are not looked at
      var skip := HeaderSkip(b.value);
      if skip > 0 {
        var trailer := rd.ReadFull(skip as nat);
        if trailer.Fail? {
          return Some(ReadFailed(trailer.error));
        }
      }
      return None;
    }

    /**
     * `ReadTag`: the next tag's type, time and body, or the read error with
     * type 0, time 0 and no body.
     */
    method ReadTag() returns (tagType: uint8, timeMS: uint32, payload: seq<uint8>, err: Option<Error>)
      requires rd.Valid()
      modifies rd
      ensures rd.Valid()
      ensures rd.pos == ParseTag(rd.data, old(rd.pos)).next
      ensures err.None? <==> ParseTag(rd.data, old(rd.pos)).result.Ok?
      ensures err.None? ==> ParseTag(rd.data, old(rd.pos)).result.value == Tag(tagType, timeMS, payload)
      ensures err.Some? ==> ParseTag(rd.data, old(rd.pos)).result == Fail(err.value)
      ensures err.Some? ==> tagType == 0 && timeMS == 0 && payload == []
    {
      var b := rd.ReadFull(PreviousTagSizeLength + TagHeaderSize);
      if b.Fail? {
        return 0, 0, [], Some(ReadFailed(b.error));
      }
      var h := b.value[PreviousTagSizeLength..];  // the previous tag size is dropped
      tagType := h[0];
      var size := TagSize(h);
      timeMS := TagTimestamp(h);
      var body := rd.ReadFull(size as nat);
      if body.Fail? {
        return 0, 0, [], Some(ReadFailed(body.error));
      }
      return tagType, timeMS, body.value, None;
    }
  }

  /**
   * `NewTransport`: build a transport over `rd` and read the file header; on
   * an error no transport is returned.
   */
  method NewTransport(rd: Reader) returns (t: Transport?, err: Option<Error>)
    requires rd.Valid()
    modifies rd
    ensures rd.Valid()
    ensures rd.pos == ParseHeader(rd.data, old(rd.pos)).next
    ensures err.None? <==> ParseHeader(rd.data, old(rd.pos)).result.Ok?
    ensures err.Some? ==> ParseHeader(rd.data, old(rd.pos)).result == Fail(err.value) && t == null
    ensures err.None? ==> t != null && fresh(t) && t.rd == rd
  {
    var c := new Transport(rd);
    err := c.ReadHeader();
    if err.Some? {
      return null, err;
    }
    return c, None;
  }

  // ---------------------------------------------------------------------
  // Timestamps for RTP

  /**
   * `TimeToRTP`: milliseconds to units of a clock running at `clockRate` Hz,
   * as `timeMS * clockRate / 1000` in `uint32`. The product wraps before the
   * division, so the result never exceeds (2^32 - 1) / 1000, and it is the
   * exact rounded-down quotient only while the product fits in 32 bits.
   */
  function TimeToRTP(timeMS: uint32, clockRate: uint32): (r: uint32)
    ensures r as int <= (TWO_32 - 1) / 1000
    ensures timeMS as int * clockRate as int < TWO_32 ==>
      r as int * 1000 <= timeMS as int * clockRate as int < r as int * 1000 + 1000
  {
    Mul32(timeMS, clockRate) / 1000
  }
}
