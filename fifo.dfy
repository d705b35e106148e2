/**
 * The circular byte FIFO of fifo.c.  A FIFO_TypeDef is a caller-owned byte
 * buffer of `len` slots together with a write cursor `head`, a read cursor
 * `tail` and the number `count` of occupied slots.  The ghost sequence
 * `Contents` is the queue the FIFO represents, oldest byte first.
 */
module Fifo {
  import opened Stdint

  /** Cursor advance with wrap-around: the successor of slot `x` when the buffer has `n` slots. */
  function Wrap(x: int, n: int): (y: int)
  {
    if x < n then x else x - n
  }

  class Fifo {
    const buf: array<byte>
    const len: uint16
    var head: uint16
    var tail: uint16
    var count: uint16

    ghost var Contents: seq<byte>

    /** The FIFO invariant: cursors inside the buffer, head `count` slots after tail,
        and the occupied slots read from tail onwards hold Contents. */
    ghost predicate Valid()
      reads this, buf
    {
      len <= buf.Length &&
      count <= len &&
      |Contents| == count &&
      (0 < len ==> head < len && tail < len && head == Wrap(tail + count, len)) &&
      forall i :: 0 <= i < count ==> Contents[i] == buf[Wrap(tail + i, len)]
    }

    /** A statically allocated FIFO_TypeDef whose `buf` and `len` fields the
        owner has filled in; the remaining fields are zero, as for C statics. */
    constructor (buffer: array<byte>, length: uint16)
      requires length <= buffer.Length
      ensures buf == buffer && len == length
      ensures head == 0 && tail == 0 && count == 0
      ensures Valid() && Contents == []
    {
      buf, len := buffer, length;
      head, tail, count := 0, 0, 0;
      Contents := [];
    }

    /** FIFO_Add: rejects a zero-length FIFO with 1, otherwise empties it and returns 0. */
    method Add() returns (r: uint8)
      requires len <= buf.Length
      modifies this
      ensures r == (if len == 0 then 1 else 0)
      ensures len == 0 ==> unchanged(this)
      ensures len != 0 ==> head == 0 && tail == 0 && count == 0 && Contents == [] && Valid()
    {
      if len == 0 {
        return 1;
      }
      tail := 0;
      head := 0;
      count := 0;
      Contents := [];
      return 0;
    }

    /** FIFO_Push: on a full FIFO returns 1 and changes nothing; otherwise stores `c`
        at the write cursor, advances it and returns 0. */
    method Push(c: byte) returns (r: uint8)
      requires Valid()
      modifies this, buf
      ensures Valid()
      ensures r == (if old(count) == len then 1 else 0)
      ensures r == 1 ==> unchanged(this) && unchanged(buf)
      ensures r == 0 ==> buf[..] == old(buf[..])[old(head) := c]
      ensures r == 0 ==> count == old(count) + 1 && tail == old(tail)
      ensures r == 0 ==> head == (if old(head) + 1 == len then 0 else old(head) + 1)
      ensures Contents == if r == 0 then old(Contents) + [c] else old(Contents)
    {
      if count == len {
        return 1;
      }
      buf[head] := c;
      head := head + 1;
      count := count + 1;
      if head == len {
        head := 0;
      }
      Contents := Contents + [c];
      return 0;
    }

    /** FIFO_Pop: on an empty FIFO returns 1 and leaves `*c` (here `prev`) as it was;
        otherwise yields the byte at the read cursor, advances it and returns 0. */
    method Pop(prev: byte) returns (r: uint8, c: byte)
      requires Valid()
      modifies this
      ensures Valid()
      ensures r == (if old(count) == 0 then 1 else 0)
      ensures r == 1 ==> unchanged(this) && c == prev
      ensures r == 0 ==> c == old(buf[tail]) && c == old(Contents)[0]
      ensures r == 0 ==> count == old(count) - 1 && head == old(head)
      ensures r == 0 ==> tail == (if old(tail) + 1 == len then 0 else old(tail) + 1)
      ensures Contents == if r == 0 then old(Contents)[1..] else old(Contents)
    {
      if count == 0 {
        return 1, prev;
      }
      c := buf[tail];
      tail := tail + 1;
      count := count - 1;
      if tail == len {
        tail := 0;
      }
      Contents := Contents[1..];
      return 0, c;
    }

    /** FIFO_IsEmpty: 1 exactly when no byte is queued. */
    function IsEmpty(): (r: uint8)
      requires Valid()
      reads this, buf
      ensures r == 1 <==> Contents == []
      ensures r == 0 <==> |Contents| > 0
    {
      if count == 0 then 1 else 0
    }
  }
}
