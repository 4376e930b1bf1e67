/**
 * The byte source behind the demuxer: Go's `io.Reader` seen as a byte
 * sequence with a cursor, and `io.ReadFull` on it.
 */
module Io {
  import opened Wrappers
  import opened Bytes

  /** The two ways `io.ReadFull` fails: nothing left, or less than asked for. */
  datatype ReadError = EOF | UnexpectedEOF

  /** What consuming from the stream at some cursor gives, and where the cursor ends. */
  datatype Step<+T, +E> = Step(result: Result<T, E>, next: nat)

  /**
   * `io.ReadFull` asking for `n` bytes at cursor `pos`. It either delivers all
   * `n` bytes, or fails: with EOF when no byte remains, with UnexpectedEOF when
   * some but fewer than `n` remain, and then the bytes that were there are
   * consumed. Asking for zero bytes always succeeds.
   */
  function FullRead(data: seq<uint8>, pos: nat, n: nat): (r: Step<seq<uint8>, ReadError>)
    requires pos <= |data|
    ensures pos <= r.next <= |data|
    ensures r.result.Ok? <==> n <= |data| - pos
    ensures r.result.Ok? ==> |r.result.value| == n && r.result.value == data[pos..r.next] && r.next == pos + n
    ensures r.result == Fail(EOF) <==> pos == |data| && 0 < n
    ensures r.result == Fail(UnexpectedEOF) <==> 0 < |data| - pos < n
    ensures r.result.Fail? ==> r.next == |data|
  {
    if n <= |data| - pos then Step(Ok(data[pos..pos + n]), pos + n)
    else if pos == |data| then Step(Fail(EOF), pos)
    else Step(Fail(UnexpectedEOF), |data|)
  }

  /** A forward-only reader over a fixed stream of bytes. */
  class Reader {
    const data: seq<uint8>
    var pos: nat

    ghost predicate Valid()
      reads this
    {
      pos <= |data|
    }

    constructor (data: seq<uint8>)
      ensures Valid() && this.data == data && pos == 0
    {
      this.data := data;
      pos := 0;
    }

    /** `io.ReadFull(r, make([]byte, n))`. */
    method ReadFull(n: nat) returns (res: Result<seq<uint8>, ReadError>)
      requires Valid()
      modifies this
      ensures Valid()
      ensures res == FullRead(data, old(pos), n).result
      ensures pos == FullRead(data, old(pos), n).next
    {
      if n <= |data| - pos {
        res := Ok(data[pos..pos + n]);
        pos := pos + n;
      } else if pos == |data| {
        res := Fail(EOF);
      } else {
        res := Fail(UnexpectedEOF);
        pos := |data|;
      }
    }
  }
}
