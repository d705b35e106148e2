/**
 * The modem-link framing channel of sim900.c: the design of comm.c with
 * frames terminated by '\n', 4096-byte FIFOs, a filter that drops the
 * empty lines ("\r\n") the SIM900 modem emits, and SIM900_PutFrame for
 * sending a NUL-terminated string.  SIM900_HAL_TxEnable is the flag
 * `txEnabled`; interrupt masking is not modelled.
 */
module Sim900 {
  import opened Stdint
  import opened Fifo
  import opened Framing

  const SIM900_BUF_LEN: uint16 := 4096
  const SIM900_TERMINATOR: byte := LF

  /** The filter's test after a frame is found: `*len == 1 && buf[0] == '\r'`. */
  predicate EmptyLine(d: Drained)
  {
    d.found && d.len == 1 && 0 < |d.buf| && d.buf[0] == CR
  }

  /** The filter fires exactly when a frame was found whose length is 1
      modulo 256 and whose byte before the '\n' is '\r'.  Because `*len`
      wraps, this takes in lines of 257 bytes before the '\n', the last of
      them '\r', as well as the empty line (LongLineDropped). */
  lemma EmptyLineIff(s: seq<byte>, b0: seq<byte>)
    requires Min(Reach(s, LF), UINT8_MODULUS) <= |b0|
    ensures var k := FirstIndex(s, LF);
      EmptyLine(DrainFrame(s, b0, LF)) <==>
        k < |s| && k % UINT8_MODULUS == 1 && s[k - 1] == CR
  {
    var k := FirstIndex(s, LF);
    var d := DrainFrame(s, b0, LF);
    assert d.found == (k < |s|);
    if d.found {
      assert d.len == k % UINT8_MODULUS;
      if d.len == 1 {
        assert Reach(s, LF) == k + 1;
        DrainedSingle(s, b0, LF);
        assert 0 < |d.buf| && d.buf[0] == s[k - 1];
        assert EmptyLine(d) == (s[k - 1] == CR);
      } else {
        assert !EmptyLine(d);
      }
    } else {
      assert !EmptyLine(d);
    }
  }

  /** A line of 257 bytes before its '\n', the last of them '\r', leaves
      `*len == 1` and `buf[0] == '\r'` after the wrap, so the filter drops it
      like an empty line. */
  lemma LongLineDropped(s: seq<byte>, b0: seq<byte>)
    requires |s| > 257 && s[256] == CR && s[257] == LF
    requires forall i :: 0 <= i < 257 ==> s[i] != LF
    requires UINT8_MODULUS <= |b0|
    ensures EmptyLine(DrainFrame(s, b0, LF))
    ensures DrainFrame(s, b0, LF).rest == s[258..]
  {
    assert FirstIndex(s, LF) == 257;
    EmptyLineIff(s, b0);
  }

  /** A frame of fewer than 256 bytes has length 1 modulo 256 and ends in
      '\r' exactly when it is the frame "\r". */
  lemma LoneCarriageReturn(s: seq<byte>, k: nat)
    requires k < |s| && k < UINT8_MODULUS
    ensures (k % UINT8_MODULUS == 1 && s[k - 1] == CR) <==> s[..k] == [CR]
  {
    assert k % UINT8_MODULUS == k;
    if k == 1 {
      assert s[..k] == [s[0]];
    }
    if s[..k] == [CR] {
      assert |s[..k]| == 1;
    }
  }

  /** For frames shorter than 256 bytes the filter drops exactly the frame "\r". */
  lemma EmptyLineShort(s: seq<byte>, b0: seq<byte>)
    requires Min(Reach(s, LF), UINT8_MODULUS) <= |b0|
    requires FirstIndex(s, LF) < UINT8_MODULUS
    ensures var k := FirstIndex(s, LF);
      EmptyLine(DrainFrame(s, b0, LF)) <==> k < |s| && s[..k] == [CR]
  {
    var k := FirstIndex(s, LF);
    EmptyLineIff(s, b0);
    if k < |s| {
      LoneCarriageReturn(s, k);
    }
  }

  class Sim900Link {
    const rx: Fifo
    const tx: Fifo
    var gotFrame: uint8
    /** SIM900_HAL_TxEnable has been called since Init; the UART interrupt
        handler disarming the transmitter once TX runs empty is not modelled. */
    var txEnabled: bool

    ghost predicate Valid()
      reads rx, rx.buf, tx, tx.buf
    {
      rx != tx && rx.buf != tx.buf &&
      rx.Valid() && tx.Valid() &&
      rx.len == SIM900_BUF_LEN && tx.len == SIM900_BUF_LEN
    }

    /** `gotFrame` is exactly the number of '\n' bytes queued in RX. */
    ghost predicate Synced()
      reads this, rx
    {
      gotFrame as int == Count(rx.Contents, SIM900_TERMINATOR)
    }

    /** SIM900_Init, FIFO part: both FIFOs get their 4096-byte buffers and are
        emptied with FIFO_Add; the static `gotFrame` starts at 0. */
    constructor Init()
      ensures Valid() && Synced()
      ensures fresh(rx) && fresh(tx) && fresh(rx.buf) && fresh(tx.buf)
      ensures rx.len == SIM900_BUF_LEN && tx.len == SIM900_BUF_LEN
      ensures rx.Contents == [] && tx.Contents == []
      ensures gotFrame == 0 && !txEnabled
    {
      var rxBuffer := new byte[SIM900_BUF_LEN];
      var txBuffer := new byte[SIM900_BUF_LEN];
      rx := new Fifo(rxBuffer, SIM900_BUF_LEN);
      tx := new Fifo(txBuffer, SIM900_BUF_LEN);
      gotFrame := 0;
      txEnabled := false;
      new;
      var rxAdded := rx.Add();
      var txAdded := tx.Add();
    }

    /** SIM900_Putc: queue `c` for sending and arm the transmitter; a byte
        sent into a full TX FIFO is dropped. */
    method Putc(c: byte)
      requires Valid()
      modifies this, tx, tx.buf
      ensures Valid() && txEnabled
      ensures tx.Contents == if |old(tx.Contents)| < SIM900_BUF_LEN then old(tx.Contents) + [c] else old(tx.Contents)
      ensures tx.Contents != []
      ensures gotFrame == old(gotFrame)
    {
      var pushed := tx.Push(c);
      txEnabled := true;
    }

    /** SIM900_Getc once its busy-wait has seen a byte: pops the oldest RX
        byte without touching `gotFrame`. */
    method Getc() returns (c: byte)
      requires Valid() && rx.Contents != []
      modifies rx
      ensures Valid()
      ensures c == old(rx.Contents)[0] && rx.Contents == old(rx.Contents)[1..]
      ensures gotFrame == old(gotFrame)
      ensures old(Synced()) ==> (Synced() <==> c != SIM900_TERMINATOR)
    {
      var popped;
      popped, c := rx.Pop(0);
    }

    /**
     * SIM900_GetFrame with its empty-line filter as evidently intended.  With
     * no pending frame, returns 1 with `*len` zero.  Otherwise drains RX up
     * to and including the first '\n'; a frame that is just "\r" is dropped
     * (`gotFrame` decremented, return 1, `*len` zero), any other frame is
     * returned with 0, and running dry returns 2 with `gotFrame` unchanged.
     */
    method GetFrame(buf: array<byte>) returns (r: uint8, len: uint8)
      requires Valid() && buf != rx.buf && buf != tx.buf
      requires gotFrame != 0 ==> Min(Reach(rx.Contents, SIM900_TERMINATOR), UINT8_MODULUS) <= buf.Length
      modifies this, rx, buf
      ensures Valid()
      ensures old(gotFrame) == 0 ==>
        r == 1 && len == 0 && gotFrame == 0 && rx.Contents == old(rx.Contents) && buf[..] == old(buf[..])
      ensures old(gotFrame) != 0 ==>
        var d := DrainFrame(old(rx.Contents), old(buf[..]), SIM900_TERMINATOR);
        rx.Contents == d.rest && buf[..] == d.buf &&
        r == (if !d.found then 2 else if EmptyLine(d) then 1 else 0) &&
        len == (if r == 0 then d.len else 0) &&
        gotFrame == (if d.found then old(gotFrame) - 1 else old(gotFrame))
      ensures old(Synced()) ==> Synced() && r != 2
      ensures txEnabled == old(txEnabled)
    {
      ghost var s := rx.Contents;
      ghost var b0 := buf[..];
      len := 0;
      if gotFrame != 0 {
        if old(Synced()) {
          DrainedCount(s, b0, SIM900_TERMINATOR);
        }
        var found;
        found, len := ReadFrame(rx, buf, SIM900_TERMINATOR);
        if !found {
          len := 0;
          return 2, len;
        }
        if len == 1 && buf[0] == CR {
          len := 0;
          gotFrame := gotFrame - 1;
          return 1, len;
        }
        gotFrame := gotFrame - 1;
        return 0, len;
      } else {
        return 1, len;
      }
    }

    /** SIM900_GetFrame exactly as written: the filter's `len = 0` clears the
        local pointer instead of `*len`, so a dropped "\r" line reaches the
        caller as return 1 with `*len == 1` (and "\r", NUL in `buf`). */
    method GetFrameAsWritten(buf: array<byte>) returns (r: uint8, len: uint8)
      requires Valid() && buf != rx.buf && buf != tx.buf
      requires gotFrame != 0 ==> Min(Reach(rx.Contents, SIM900_TERMINATOR), UINT8_MODULUS) <= buf.Length
      modifies this, rx, buf
      ensures Valid()
      ensures old(gotFrame) == 0 ==>
        r == 1 && len == 0 && gotFrame == 0 && rx.Contents == old(rx.Contents) && buf[..] == old(buf[..])
      ensures old(gotFrame) != 0 ==>
        var d := DrainFrame(old(rx.Contents), old(buf[..]), SIM900_TERMINATOR);
        rx.Contents == d.rest && buf[..] == d.buf &&
        r == (if !d.found then 2 else if EmptyLine(d) then 1 else 0) &&
        len == (if d.found then d.len else 0) &&
        gotFrame == (if d.found then old(gotFrame) - 1 else old(gotFrame))
      ensures txEnabled == old(txEnabled)
    {
      len := 0;
      if gotFrame != 0 {
        var found;
        found, len := ReadFrame(rx, buf, SIM900_TERMINATOR);
        if !found {
          len := 0;
          return 2, len;
        }
        if len == 1 && buf[0] == CR {
          // `len = 0;` in the source assigns the pointer, leaving `*len` at 1
          gotFrame := gotFrame - 1;
          return 1, len;
        }
        gotFrame := gotFrame - 1;
        return 0, len;
      } else {
        return 1, len;
      }
    }

    /** SIM900_PutFrame: sends the bytes of `str` before its NUL, one Putc
        each.  The length is kept in a uint16_t, so only strlen modulo 65536
        bytes are sent, and bytes that find TX full are dropped. */
    method PutFrame(str: seq<byte>)
      requires Valid() && NUL in str
      modifies this, tx, tx.buf
      ensures Valid()
      ensures var n := FirstIndex(str, NUL) % UINT16_MODULUS;
        tx.Contents == Clip(old(tx.Contents) + str[..n], SIM900_BUF_LEN) &&
        txEnabled == (old(txEnabled) || 0 < n)
      ensures gotFrame == old(gotFrame)
    {
      var len: uint16 := FirstIndex(str, NUL) % UINT16_MODULUS;
      ghost var t0 := tx.Contents;
      var i := 0;
      while i < len
        invariant 0 <= i <= len && Valid()
        invariant tx.Contents == Clip(t0 + str[..i], SIM900_BUF_LEN)
        invariant txEnabled == (old(txEnabled) || 0 < i)
        invariant gotFrame == old(gotFrame)
      {
        ClipStep(t0, str, i, SIM900_BUF_LEN);
        Putc(str[i]);
        i := i + 1;
      }
    }

    /** SIM900_RxCallback: stores the received byte and counts it as the end
        of a frame only if it is '\n' and the push succeeded. */
    method RxCallback(c: byte)
      requires Valid()
      modifies this, rx, rx.buf
      ensures Valid()
      ensures var stored := |old(rx.Contents)| < SIM900_BUF_LEN;
        rx.Contents == (if stored then old(rx.Contents) + [c] else old(rx.Contents)) &&
        gotFrame == if stored && c == SIM900_TERMINATOR then (old(gotFrame) + 1) % UINT8_MODULUS else old(gotFrame)
      ensures old(Synced()) && old(gotFrame) < UINT8_MODULUS - 1 ==> Synced()
      ensures txEnabled == old(txEnabled)
    {
      ghost var s := rx.Contents;
      var res := rx.Push(c);
      assert tx.Valid() && (res == 0 <==> |s| < SIM900_BUF_LEN as int);
      if res == 0 {
        CountPush(s, c, SIM900_TERMINATOR);
        if c == SIM900_TERMINATOR {
          gotFrame := (gotFrame + 1) % UINT8_MODULUS;
        }
      }
    }

    /** SIM900_TxCallback: hands the transmitter the oldest TX byte (returns
        1), or returns 0, leaving `*c` (here `prev`) alone, when TX is empty. */
    method TxCallback(prev: byte) returns (r: uint8, c: byte)
      requires Valid()
      modifies tx
      ensures Valid()
      ensures r == (if old(tx.Contents) == [] then 0 else 1)
      ensures r == 1 ==> c == old(tx.Contents)[0] && tx.Contents == old(tx.Contents)[1..]
      ensures r == 0 ==> c == prev && tx.Contents == old(tx.Contents)
    {
      var popped;
      popped, c := tx.Pop(prev);
      if popped == 0 {
        return 1, c;
      } else {
        return 0, c;
      }
    }
  }

  /** The modem's empty line "\r\n", received by a fresh link, drains as an
      empty line: the frame "\r" followed by the terminator. */
  method ReceiveEmptyLine() returns (link: Sim900Link)
    ensures fresh(link) && fresh(link.rx) && fresh(link.tx) && fresh(link.rx.buf) && fresh(link.tx.buf)
    ensures link.Valid() && link.Synced() && link.gotFrame == 1
    ensures link.rx.Contents == [CR, LF]
  {
    link := new Sim900Link.Init();
    link.RxCallback(CR);
    link.RxCallback(LF);
  }

  /** Finding, as written: SIM900_GetFrame drops the empty line (return 1)
      but reports `*len == 1` to its caller. */
  method EmptyLineAsWritten() returns (r: uint8, len: uint8)
    ensures r == 1 && len == 1
  {
    var link := ReceiveEmptyLine();
    var buf := new byte[4];
    assert link.rx.Contents == [CR] + [LF] + [];
    DrainRoundTrip([CR], [], buf[..], LF);
    EmptyLineShort(link.rx.Contents, buf[..]);
    r, len := link.GetFrameAsWritten(buf);
  }

  /** Finding, corrected: the dropped empty line is reported as return 1 with
      `*len == 0`, and no frame remains pending. */
  method EmptyLineDropped() returns (r: uint8, len: uint8, pending: uint8)
    ensures r == 1 && len == 0 && pending == 0
  {
    var link := ReceiveEmptyLine();
    var buf := new byte[4];
    assert link.rx.Contents == [CR] + [LF] + [];
    DrainRoundTrip([CR], [], buf[..], LF);
    EmptyLineShort(link.rx.Contents, buf[..]);
    r, len := link.GetFrame(buf);
    pending := link.gotFrame;
  }
}
