/**
 * Go's fixed-width unsigned integers and the big-endian helpers of
 * `encoding/binary`, on Dafny's unbounded integers. Wrap-around is explicit.
 */
module Bytes {

  newtype uint8 = x: int | 0 <= x < 0x100
  newtype uint32 = x: int | 0 <= x < 0x1_0000_0000

  const TWO_32: int := 0x1_0000_0000

  /** Go's `a - b` on `uint32`: the difference modulo 2^32. */
  function Sub32(a: uint32, b: uint32): (r: uint32)
    ensures b <= a ==> r == a - b
    ensures a < b ==> r as int == TWO_32 - (b as int - a as int)
  {
    ((a as int - b as int) % TWO_32) as uint32
  }

  /** Go's `a * b` on `uint32`: the product modulo 2^32. */
  function Mul32(a: uint32, b: uint32): (r: uint32)
    ensures a as int * b as int < TWO_32 ==> r as int == a as int * b as int
    ensures (a as int * b as int - r as int) % TWO_32 == 0
  {
    var p := a as int * b as int;
    assert 0 <= p by { NonNegativeProduct(a as int, b as int); }
    (p % TWO_32) as uint32
  }

  lemma NonNegativeProduct(x: int, y: int)
    requires 0 <= x && 0 <= y
    ensures 0 <= x * y
  {
  }

  /** `binary.BigEndian.PutUint32`: most significant byte first. */
  function PutUint32(x: uint32): (b: seq<uint8>)
    ensures |b| == 4
  {
    [ (x as int / 0x100_0000) as uint8,
      (x as int / 0x1_0000 % 0x100) as uint8,
      (x as int / 0x100 % 0x100) as uint8,
      (x as int % 0x100) as uint8 ]
  }

  /**
   * `binary.BigEndian.Uint32(b)`: the value of the first four bytes, most
   * significant first. It panics on fewer than four bytes. Its result holds
   * exactly those four bytes: putting it back gives them again.
   */
  function BigEndianUint32(b: seq<uint8>): (r: uint32)
    requires |b| >= 4
    ensures PutUint32(r) == b[..4]
  {
    var v := b[0] as int * 0x100_0000 + b[1] as int * 0x1_0000 + b[2] as int * 0x100 + b[3] as int;
    ByteDigits(b[0] as int, b[1] as int, b[2] as int, b[3] as int);
    v as uint32
  }

  /** Three bytes, most significant first, as a 24-bit value. */
  function Uint24(hi: uint8, mid: uint8, lo: uint8): (r: uint32)
    ensures r as int < 0x100_0000
    ensures r as int / 0x1_0000 == hi as int
    ensures r as int / 0x100 % 0x100 == mid as int
    ensures r as int % 0x100 == lo as int
  {
    ByteDigits(0, hi as int, mid as int, lo as int);
    (hi as int * 0x1_0000 + mid as int * 0x100 + lo as int) as uint32
  }

  /** The base-256 digits of a four-digit number are its digits. */
  lemma ByteDigits(b0: int, b1: int, b2: int, b3: int)
    requires 0 <= b0 < 0x100 && 0 <= b1 < 0x100 && 0 <= b2 < 0x100 && 0 <= b3 < 0x100
    ensures var v := b0 * 0x100_0000 + b1 * 0x1_0000 + b2 * 0x100 + b3;
      0 <= v < TWO_32 && v / 0x100_0000 == b0 && v / 0x1_0000 % 0x100 == b1
      && v / 0x100 % 0x100 == b2 && v % 0x100 == b3 && v / 0x1_0000 == b0 * 0x100 + b1
  {
    var v := b0 * 0x100_0000 + b1 * 0x1_0000 + b2 * 0x100 + b3;
    var low := b1 * 0x1_0000 + b2 * 0x100 + b3;
    assert v == b0 * 0x100_0000 + low && 0 <= low < 0x100_0000;
    assert v / 0x1_0000 == b0 * 0x100 + b1;
    assert v / 0x100 == b0 * 0x1_0000 + b1 * 0x100 + b2;
  }

  /** The four bytes `PutUint32` writes are the base-256 digits of its argument. */
  lemma PutUint32Digits(x: uint32)
    ensures var b := PutUint32(x);
      x as int == b[0] as int * 0x100_0000 + b[1] as int * 0x1_0000 + b[2] as int * 0x100 + b[3] as int
  {
    var v := x as int;
    var q1, q2 := v / 0x100, v / 0x1_0000;
    assert v == q1 * 0x100 + v % 0x100;
    assert q2 == q1 / 0x100;
    assert q1 == q2 * 0x100 + q1 % 0x100;
    assert q1 % 0x100 == v / 0x100 % 0x100;
    assert v / 0x100_0000 == q2 / 0x100;
    assert q2 == (v / 0x100_0000) * 0x100 + q2 % 0x100;
  }

  /** Decoding what `PutUint32` wrote gives the value back. */
  lemma BigEndianOfPut(x: uint32)
    ensures BigEndianUint32(PutUint32(x)) == x
  {
    PutUint32Digits(x);
  }
}
