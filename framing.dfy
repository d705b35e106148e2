/**
 * What the two serial links (comm.c, sim900.c) share: terminator-delimited
 * frames over the RX FIFO.  The functions here describe a queue of received
 * bytes abstractly; ReadFrame is the `while (1)` loop that both GetFrame
 * copies run to drain one frame from the RX FIFO into the caller's buffer.
 */
module Framing {
  import opened Stdint
  import opened Fifo

  const CR: byte := 0x0D
  const LF: byte := 0x0A
  const NUL: byte := 0

  /** Number of occurrences of the terminator `t` in `s`. */
  function Count(s: seq<byte>, t: byte): (n: nat)
    ensures n <= |s|
  {
    if s == [] then 0 else (if s[0] == t then 1 else 0) + Count(s[1..], t)
  }

  /** Position of the first `t` in `s`, or |s| when there is none. */
  function FirstIndex(s: seq<byte>, t: byte): (k: nat)
    ensures k <= |s|
    ensures k < |s| ==> s[k] == t
    ensures forall i :: 0 <= i < k ==> s[i] != t
  {
    if s == [] then 0 else if s[0] == t then 0 else 1 + FirstIndex(s[1..], t)
  }

  /** Number of bytes a frame read pops from `s`: up to and including the
      first terminator, or all of `s` when it holds none. */
  function Reach(s: seq<byte>, t: byte): (n: nat)
    ensures n <= |s|
    ensures n == |s| <==> FirstIndex(s, t) >= |s| - 1
  {
    var k := FirstIndex(s, t);
    if k < |s| then k + 1 else |s|
  }

  function Min(a: int, b: int): (m: int)
  {
    if a < b then a else b
  }

  /** The first `n` bytes of `s`, or all of `s` when it is shorter. */
  function Clip(s: seq<byte>, n: nat): (r: seq<byte>)
    ensures |r| == Min(|s|, n)
    ensures r <= s
  {
    if |s| <= n then s else s[..n]
  }

  /** Appending one byte to a clipped queue: it is stored only while there is room. */
  lemma ClipStep(a: seq<byte>, p: seq<byte>, i: nat, cap: nat)
    requires i < |p| && |a| <= cap
    ensures Clip(a + p[..i + 1], cap) ==
      var q := Clip(a + p[..i], cap);
      if |q| < cap then q + [p[i]] else q
  {
    assert a + p[..i + 1] == (a + p[..i]) + [p[i]];
  }

  lemma {:induction false} CountAppend(a: seq<byte>, b: seq<byte>, t: byte)
    ensures Count(a + b, t) == Count(a, t) + Count(b, t)
  {
    if a == [] {
      assert a + b == b;
    } else {
      assert (a + b)[1..] == a[1..] + b;
      CountAppend(a[1..], b, t);
    }
  }

  /** A queue without the terminator counts none, and a queue with one
      counts at least one. */
  lemma {:induction false} CountNone(s: seq<byte>, t: byte)
    ensures Count(s, t) == 0 <==> t !in s
  {
    if s != [] {
      CountNone(s[1..], t);
      assert t in s <==> s[0] == t || t in s[1..];
    }
  }

  /** Receiving one byte adds one to the count exactly when it is the terminator. */
  lemma CountPush(s: seq<byte>, c: byte, t: byte)
    ensures Count(s + [c], t) == Count(s, t) + (if c == t then 1 else 0)
  {
    CountAppend(s, [c], t);
    assert Count([c], t) == (if c == t then 1 else 0) + Count([c][1..], t);
  }

  /** A queue with a terminator in it holds a complete frame, and taking that
      frame out removes exactly one terminator. */
  lemma CountFrame(s: seq<byte>, t: byte)
    requires Count(s, t) > 0
    ensures FirstIndex(s, t) < |s|
    ensures Count(s[FirstIndex(s, t) + 1..], t) == Count(s, t) - 1
  {
    var k := FirstIndex(s, t);
    CountNone(s, t);
    assert s == s[..k] + s[k..];
    CountAppend(s[..k], s[k..], t);
    CountNone(s[..k], t);
    assert s[k..][1..] == s[k + 1..];
  }

  /** Frame round trip: the frame read from `p + [t] + rest` is `p`, and `rest` stays queued. */
  lemma {:induction false} FrameRoundTrip(p: seq<byte>, rest: seq<byte>, t: byte)
    requires forall i :: 0 <= i < |p| ==> p[i] != t
    ensures FirstIndex(p + [t] + rest, t) == |p|
    ensures (p + [t] + rest)[..|p|] == p
    ensures (p + [t] + rest)[|p| + 1..] == rest
  {
    if p != [] {
      assert (p + [t] + rest)[1..] == p[1..] + [t] + rest;
      FrameRoundTrip(p[1..], rest, t);
    }
  }

  /** The uint8_t value just below `n`: `n - 1` with wrap-around at 0. */
  function Pred8(n: uint8): (p: uint8)
    ensures (p + 1) % UINT8_MODULUS == n as int
  {
    if n == 0 then UINT8_MODULUS - 1 else n - 1
  }

  /** The uint8_t value just above `n`: `n + 1` with wrap-around at 255. */
  function Succ8(n: uint8): (m: uint8)
    ensures m as int == (n + 1) % UINT8_MODULUS
  {
    if n == UINT8_MODULUS - 1 then 0 else n + 1
  }

  /** Stepping `*len` back undoes stepping it forward, and the other way round. */
  lemma Pred8Succ8(n: uint8)
    ensures Pred8(Succ8(n)) == n && Succ8(Pred8(n)) == n
  {
  }

  /** A uint8_t counter that is incremented alongside `j` stays equal to `j` modulo 256. */
  lemma Succ8Mod(j: nat)
    ensures Succ8(j % UINT8_MODULUS) == (j + 1) % UINT8_MODULUS
  {
    var q, r := j / UINT8_MODULUS, j % UINT8_MODULUS;
    assert j == UINT8_MODULUS * q + r;
    if r == UINT8_MODULUS - 1 {
      assert j + 1 == UINT8_MODULUS * (q + 1);
    } else {
      assert j + 1 == UINT8_MODULUS * q + (r + 1);
    }
  }

  /** The caller's buffer, initially `b0`, after the frame loop has stored the
      first `j` bytes of `s` at `buf[(*len)++]`, the uint8_t index wrapping at 256. */
  function Fill(s: seq<byte>, b0: seq<byte>, j: nat): (b: seq<byte>)
    requires j <= |s| && Min(j, UINT8_MODULUS) <= |b0|
    ensures |b| == |b0|
    ensures 0 < j ==> b[(j - 1) % UINT8_MODULUS] == s[j - 1]
  {
    if j == 0 then b0 else Fill(s, b0, j - 1)[(j - 1) % UINT8_MODULUS := s[j - 1]]
  }

  /** While fewer than 256 bytes have been stored, they sit in order at the
      start of the buffer. */
  lemma {:induction false} FillPrefix(s: seq<byte>, b0: seq<byte>, j: nat)
    requires j <= |s| && j <= UINT8_MODULUS && j <= |b0|
    ensures Fill(s, b0, j)[..j] == s[..j]
  {
    if j > 0 {
      FillPrefix(s, b0, j - 1);
      assert Fill(s, b0, j)[..j] == Fill(s, b0, j - 1)[..j - 1] + [s[j - 1]];
    }
  }

  /** Slots at or above min(j, 256) are never written. */
  lemma {:induction false} FillBeyond(s: seq<byte>, b0: seq<byte>, j: nat, i: nat)
    requires j <= |s| && Min(j, UINT8_MODULUS) <= i < |b0|
    ensures Fill(s, b0, j)[i] == b0[i]
  {
    if j > 0 {
      FillBeyond(s, b0, j - 1, i);
    }
  }

  /** The slot just below the wrapped index holds the most recent byte. */
  lemma FillLast(s: seq<byte>, b0: seq<byte>, j: nat)
    requires 0 < j <= |s| && Min(j, UINT8_MODULUS) <= |b0|
    ensures Pred8(j % UINT8_MODULUS) < |b0|
    ensures Fill(s, b0, j)[Pred8(j % UINT8_MODULUS)] == s[j - 1]
  {
    Succ8Mod(j - 1);
  }

  /** The slot below that holds the byte before it, when there is one. */
  lemma FillSecondLast(s: seq<byte>, b0: seq<byte>, j: nat)
    requires 1 < j <= |s| && Min(j, UINT8_MODULUS) <= |b0|
    ensures Pred8(Pred8(j % UINT8_MODULUS)) < |b0|
    ensures Fill(s, b0, j)[Pred8(Pred8(j % UINT8_MODULUS))] == s[j - 2]
  {
    Succ8Mod(j - 1);
    Succ8Mod(j - 2);
    FillLast(s, b0, j - 1);
  }

  /** What draining one frame leaves behind: whether the terminator was
      found, the final `*len`, the bytes still queued, and the caller's buffer. */
  datatype Drained = Drained(found: bool, len: uint8, rest: seq<byte>, buf: seq<byte>)

  /** Draining one frame terminated by `t` from the queue `s` into a buffer
      holding `b0`: the effect of the `while (1)` loop in both GetFrame copies. */
  function DrainFrame(s: seq<byte>, b0: seq<byte>, t: byte): (d: Drained)
    requires Min(Reach(s, t), UINT8_MODULUS) <= |b0|
    ensures |d.buf| == |b0|
    ensures d.found <==> t in s
    ensures !d.found ==> d.len == 0 && d.rest == []
    ensures d.found ==>
      d.len as int == FirstIndex(s, t) % UINT8_MODULUS && d.buf[d.len] == NUL && d.rest == s[FirstIndex(s, t) + 1..]
  {
    var k := FirstIndex(s, t);
    if k < |s| then Drained(true, k % UINT8_MODULUS, s[k + 1..], Fill(s, b0, k + 1)[k % UINT8_MODULUS := NUL])
    else Drained(false, 0, [], Fill(s, b0, |s|))
  }

  /** A drained frame shorter than 256 bytes is delivered whole: its bytes,
      then NUL, at the start of the buffer, with the terminator consumed. */
  lemma DrainedPayload(s: seq<byte>, b0: seq<byte>, t: byte)
    requires Min(Reach(s, t), UINT8_MODULUS) <= |b0|
    requires FirstIndex(s, t) < |s| && FirstIndex(s, t) < UINT8_MODULUS
    ensures var d, k := DrainFrame(s, b0, t), FirstIndex(s, t);
      d.found && d.len == k && d.buf[..k] == s[..k] && d.buf[k] == NUL &&
      d.rest == s[k + 1..] && t !in d.buf[..k]
  {
    var k := FirstIndex(s, t);
    assert k % UINT8_MODULUS == k;
    FillPrefix(s, b0, k + 1);
    assert DrainFrame(s, b0, t).buf == Fill(s, b0, k + 1)[k := NUL];
    assert DrainFrame(s, b0, t).buf[..k] == Fill(s, b0, k + 1)[..k + 1][..k];
  }

  /** Draining never touches the buffer beyond the slots the loop writes. */
  lemma DrainedBeyond(s: seq<byte>, b0: seq<byte>, t: byte, i: nat)
    requires Min(Reach(s, t), UINT8_MODULUS) <= i < |b0|
    ensures DrainFrame(s, b0, t).buf[i] == b0[i]
  {
    FillBeyond(s, b0, Reach(s, t), i);
  }

  /** Round trip through the channel: a payload `p` free of the terminator,
      received as `p + [t]` ahead of `rest`, is read back whole and NUL
      terminated, and `rest` stays queued. */
  lemma DrainRoundTrip(p: seq<byte>, rest: seq<byte>, b0: seq<byte>, t: byte)
    requires t !in p && |p| < UINT8_MODULUS && |p| < |b0|
    ensures Min(Reach(p + [t] + rest, t), UINT8_MODULUS) <= |b0|
    ensures var d := DrainFrame(p + [t] + rest, b0, t);
      d.found && d.len == |p| && d.buf[..|p|] == p && d.buf[|p|] == NUL && d.rest == rest
  {
    var s := p + [t] + rest;
    FrameRoundTrip(p, rest, t);
    DrainedPayload(s, b0, t);
  }

  /** Whenever a terminator is queued the frame is found, and exactly one
      terminator leaves the queue. */
  lemma DrainedCount(s: seq<byte>, b0: seq<byte>, t: byte)
    requires Min(Reach(s, t), UINT8_MODULUS) <= |b0|
    requires Count(s, t) > 0
    ensures DrainFrame(s, b0, t).found
    ensures Count(DrainFrame(s, b0, t).rest, t) == Count(s, t) - 1
  {
    CountFrame(s, t);
  }

  /** Without a terminator everything queued is lost and `*len` is zero. */
  lemma DrainedNoFrame(s: seq<byte>, b0: seq<byte>, t: byte)
    requires Min(Reach(s, t), UINT8_MODULUS) <= |b0|
    requires t !in s
    ensures var d := DrainFrame(s, b0, t); !d.found && d.len == 0 && d.rest == []
  {
  }

  /** After a found frame with `*len == 1`, `buf[0]` holds the byte just
      before the terminator, whatever the frame's length. */
  lemma DrainedSingle(s: seq<byte>, b0: seq<byte>, t: byte)
    requires Min(Reach(s, t), UINT8_MODULUS) <= |b0|
    requires DrainFrame(s, b0, t).found && DrainFrame(s, b0, t).len == 1
    ensures 0 < FirstIndex(s, t) && DrainFrame(s, b0, t).buf[0] == s[FirstIndex(s, t) - 1]
  {
    var k := FirstIndex(s, t);
    assert k < |s| && k % UINT8_MODULUS == 1;
    assert (k + 1) % UINT8_MODULUS == 2;
    FillSecondLast(s, b0, k + 1);
    assert DrainFrame(s, b0, t).buf == Fill(s, b0, k + 1)[1 := NUL];
  }

  /** One step of the frame loop: `FIFO_Pop(&rxFifo, &c); buf[(*len)++] = c;`. */
  method PopInto(rx: Fifo, buf: array<byte>, len: uint8) returns (c: byte, len': uint8)
    requires rx.Valid() && buf != rx.buf && rx.Contents != [] && len < buf.Length
    modifies rx, buf
    ensures rx.Valid() && rx.Contents == old(rx.Contents)[1..] && c == old(rx.Contents)[0]
    ensures buf[..] == old(buf[..])[len := c]
    ensures len' == Succ8(len)
  {
    var _, popped := rx.Pop(NUL);
    c := popped;
    buf[len] := c;
    len' := Succ8(len);
  }

  /** The frame loop's exit on the terminator, popped as byte `j`, gives the
      drained result. */
  lemma DrainedFound(s: seq<byte>, b0: seq<byte>, t: byte, j: nat)
    requires 0 < j <= |s| && s[j - 1] == t && forall i :: 0 <= i < j - 1 ==> s[i] != t
    requires Min(Reach(s, t), UINT8_MODULUS) <= |b0|
    ensures Min(j, UINT8_MODULUS) <= |b0| && Pred8(j % UINT8_MODULUS) < |b0|
    ensures DrainFrame(s, b0, t) ==
      Drained(true, Pred8(j % UINT8_MODULUS), s[j..], Fill(s, b0, j)[Pred8(j % UINT8_MODULUS) := NUL])
  {
    assert FirstIndex(s, t) == j - 1;
    Succ8Mod(j - 1);
  }

  /** The frame loop's exit on an empty FIFO gives the drained result. */
  lemma DrainedDry(s: seq<byte>, b0: seq<byte>, t: byte)
    requires forall i :: 0 <= i < |s| ==> s[i] != t
    requires Min(Reach(s, t), UINT8_MODULUS) <= |b0|
    ensures DrainFrame(s, b0, t) == Drained(false, 0, [], Fill(s, b0, |s|))
  {
    assert FirstIndex(s, t) == |s|;
  }

  /**
   * The body of COMM_GetFrame / SIM900_GetFrame once `gotFrame` is non-zero:
   * pop bytes into `buf[(*len)++]` until the terminator `t` is popped, then
   * step `*len` back over it and overwrite it with NUL.  `*len` is a uint8_t,
   * so the write index wraps at 256.  If the FIFO runs dry first, `*len` is
   * zeroed and the popped bytes are lost.  The caller's buffer must hold every
   * slot the loop writes, which is the requirement on `buf.Length`.
   */
  method ReadFrame(rx: Fifo, buf: array<byte>, t: byte) returns (found: bool, len: uint8)
    requires rx.Valid() && buf != rx.buf
    requires Min(Reach(rx.Contents, t), UINT8_MODULUS) <= buf.Length
    modifies rx, buf
    ensures rx.Valid()
    ensures Drained(found, len, rx.Contents, buf[..]) == DrainFrame(old(rx.Contents), old(buf[..]), t)
  {
    ghost var s := rx.Contents;
    ghost var b0 := buf[..];
    ghost var j: nat := 0;
    len := 0;
    while true
      invariant rx.Valid()
      invariant j <= |s| && rx.Contents == s[j..]
      invariant forall i :: 0 <= i < j ==> s[i] != t
      invariant j <= Reach(s, t) && len == j % UINT8_MODULUS
      invariant buf[..] == Fill(s, b0, j)
      decreases |rx.Contents|
    {
      if rx.IsEmpty() == 1 {
        DrainedDry(s, b0, t);
        len := 0;
        return false, len;
      }
      var c;
      c, len := PopInto(rx, buf, len);
      Succ8Mod(j);
      j := j + 1;
      if c == t {
        DrainedFound(s, b0, t, j);
        len := Pred8(len);
        buf[len] := NUL;
        return true, len;
      }
    }
  }
}
