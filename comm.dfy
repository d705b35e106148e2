/**
 * The host-link framing channel of comm.c: an RX FIFO filled by the UART
 * receive interrupt, a TX FIFO drained by the transmit interrupt, and the
 * uint8_t `gotFrame` counting complete '\r'-terminated frames waiting in RX.
 * Each callback and API call is one atomic step; the HAL's interrupt masking
 * is not modelled, and COMM_HAL_TxEnable is the flag `txEnabled`.
 */
module Comm {
  import opened Stdint
  import opened Fifo
  import opened Framing

  const COMM_BUF_LEN: uint16 := 2048
  const COMM_TERMINATOR: byte := CR

  class CommLink {
    const rx: Fifo
    const tx: Fifo
    var gotFrame: uint8
    /** COMM_HAL_TxEnable has been called since Init; the UART interrupt handler
        disarming the transmitter once TX runs empty is not modelled. */
    var txEnabled: bool

    ghost predicate Valid()
      reads rx, rx.buf, tx, tx.buf
    {
      rx != tx && rx.buf != tx.buf &&
      rx.Valid() && tx.Valid() &&
      rx.len == COMM_BUF_LEN && tx.len == COMM_BUF_LEN
    }

    /** `gotFrame` is exactly the number of terminators queued in RX.  True
        after Init and kept by RxCallback (below 255 frames) and GetFrame. */
    ghost predicate Synced()
      reads this, rx
    {
      gotFrame as int == Count(rx.Contents, COMM_TERMINATOR)
    }

    /** COMM_Init, FIFO part: both FIFOs get their 2048-byte buffers and are
        emptied with FIFO_Add; the static `gotFrame` starts at 0. */
    constructor Init()
      ensures Valid() && Synced()
      ensures fresh(rx) && fresh(tx) && fresh(rx.buf) && fresh(tx.buf)
      ensures rx.Contents == [] && tx.Contents == []
      ensures gotFrame == 0 && !txEnabled
    {
      var rxBuffer := new byte[COMM_BUF_LEN];
      var txBuffer := new byte[COMM_BUF_LEN];
      rx := new Fifo(rxBuffer, COMM_BUF_LEN);
      tx := new Fifo(txBuffer, COMM_BUF_LEN);
      gotFrame := 0;
      txEnabled := false;
      new;
      var rxAdded := rx.Add();
      var txAdded := tx.Add();
    }

    /** COMM_Putc: queue `c` for sending and arm the transmitter.  The push
        result is ignored, so a byte sent into a full TX FIFO is dropped. */
    method Putc(c: byte)
      requires Valid()
      modifies this, tx, tx.buf
      ensures Valid() && txEnabled
      ensures tx.Contents == if |old(tx.Contents)| < COMM_BUF_LEN then old(tx.Contents) + [c] else old(tx.Contents)
      ensures tx.Contents != []
      ensures gotFrame == old(gotFrame)
    {
      var pushed := tx.Push(c);
      txEnabled := true;
    }

    /** COMM_Getc once its busy-wait has seen a byte: pops the oldest RX byte.
        It does not touch `gotFrame`, so popping a terminator desynchronises it. */
    method Getc() returns (c: byte)
      requires Valid() && rx.Contents != []
      modifies rx
      ensures Valid()
      ensures c == old(rx.Contents)[0] && rx.Contents == old(rx.Contents)[1..]
      ensures gotFrame == old(gotFrame)
      ensures old(Synced()) ==> (Synced() <==> c != COMM_TERMINATOR)
    {
      var popped;
      popped, c := rx.Pop(0);
    }

    /**
     * COMM_GetFrame.  With no complete frame pending, returns 1 with `*len`
     * zero and consumes nothing.  Otherwise drains RX up to and including the
     * first '\r' (DrainFrame) and returns 0, decrementing `gotFrame`; if RX
     * runs dry first it returns 2 with `*len` zero, the popped bytes lost and
     * `gotFrame` unchanged, because that return precedes `gotFrame--`.
     */
    method GetFrame(buf: array<byte>) returns (r: uint8, len: uint8)
      requires Valid() && buf != rx.buf && buf != tx.buf
      requires gotFrame != 0 ==> Min(Reach(rx.Contents, COMM_TERMINATOR), UINT8_MODULUS) <= buf.Length
      modifies this, rx, buf
      ensures Valid()
      ensures old(gotFrame) == 0 ==>
        r == 1 && len == 0 && gotFrame == 0 && rx.Contents == old(rx.Contents) && buf[..] == old(buf[..])
      ensures old(gotFrame) != 0 ==>
        var d := DrainFrame(old(rx.Contents), old(buf[..]), COMM_TERMINATOR);
        rx.Contents == d.rest && buf[..] == d.buf && len == d.len &&
        r == (if d.found then 0 else 2) &&
        gotFrame == (if d.found then old(gotFrame) - 1 else old(gotFrame))
      ensures old(Synced()) ==> Synced() && r != 2
      ensures txEnabled == old(txEnabled)
    {
      ghost var s := rx.Contents;
      ghost var b0 := buf[..];
      len := 0;
      if gotFrame != 0 {
        if old(Synced()) {
          DrainedCount(s, b0, COMM_TERMINATOR);
        }
        var found;
        found, len := ReadFrame(rx, buf, COMM_TERMINATOR);
        if !found {
          len := 0;
          return 2, len;
        }
        gotFrame := gotFrame - 1;
        return 0, len;
      } else {
        return 1, len;
      }
    }

    /** COMM_RxCallback: stores the received byte and counts it as the end of
        a frame only if it is '\r' and the push succeeded. */
    method RxCallback(c: byte)
      requires Valid()
      modifies this, rx, rx.buf
      ensures Valid()
      ensures var stored := |old(rx.Contents)| < COMM_BUF_LEN;
        rx.Contents == (if stored then old(rx.Contents) + [c] else old(rx.Contents)) &&
        gotFrame == if stored && c == COMM_TERMINATOR then (old(gotFrame) + 1) % UINT8_MODULUS else old(gotFrame)
      ensures old(Synced()) && old(gotFrame) < UINT8_MODULUS - 1 ==> Synced()
      ensures txEnabled == old(txEnabled)
    {
      ghost var s := rx.Contents;
      var res := rx.Push(c);
      assert tx.Valid() && (res == 0 <==> |s| < COMM_BUF_LEN as int);
      if res == 0 {
        CountPush(s, c, COMM_TERMINATOR);
        if c == COMM_TERMINATOR {
          gotFrame := (gotFrame + 1) % UINT8_MODULUS;
        }
      }
    }

    /** COMM_TxCallback: hands the transmitter the oldest TX byte (returns 1),
        or returns 0, leaving `*c` (here `prev`) alone, when TX is empty. */
    method TxCallback(prev: byte) returns (r: uint8, c: byte)
      requires Valid()
      modifies tx
      ensures Valid()
      ensures r == (if old(tx.Contents) == [] then 0 else 1)
      ensures r == 1 ==> c == old(tx.Contents)[0] && tx.Contents == old(tx.Contents)[1..]
      ensures r == 0 ==> c == prev && tx.Contents == old(tx.Contents)
    {
      var popped;
      popped, c := tx.Pop(prev);
      if popped == 0 {
        return 1, c;
      } else {
        return 0, c;
      }
    }
  }

  /** "HELLO" in ASCII. */
  const HELLO: seq<byte> := [0x48, 0x45, 0x4C, 0x4C, 0x4F]

  /** A freshly initialised link that receives "HELLO\r" delivers the frame
      "HELLO" with return 0 and `*len == 5`, and has no frame left pending. */
  method HelloFrame() returns (r: uint8, len: uint8, payload: seq<byte>, pending: uint8)
    ensures r == 0 && len == 5 && payload == HELLO && pending == 0
  {
    var link := ReceiveHello();
    var buf := new byte[8];
    ghost var d := DrainFrame(link.rx.Contents, buf[..], COMM_TERMINATOR);
    assert link.rx.Contents == HELLO + [COMM_TERMINATOR] + [];
    DrainRoundTrip(HELLO, [], buf[..], COMM_TERMINATOR);
    assert d.found && d.len == 5 && d.buf[..5] == HELLO && link.gotFrame == 1;
    r, len := link.GetFrame(buf);
    assert buf[..] == d.buf;
    payload := buf[..len];
    pending := link.gotFrame;
  }

  /** A fresh link after receiving "HELLO\r": one frame pending. */
  method ReceiveHello() returns (link: CommLink)
    ensures fresh(link) && fresh(link.rx) && fresh(link.tx) && fresh(link.rx.buf) && fresh(link.tx.buf)
    ensures link.Valid() && link.gotFrame == 1
    ensures link.rx.Contents == HELLO + [COMM_TERMINATOR]
  {
    link := new CommLink.Init();
    var i := 0;
    while i < |HELLO|
      invariant 0 <= i <= |HELLO|
      invariant link.Valid() && link.rx.Contents == HELLO[..i] && link.gotFrame == 0
    {
      assert HELLO[..i + 1] == HELLO[..i] + [HELLO[i]];
      link.RxCallback(HELLO[i]);
      i := i + 1;
    }
    link.RxCallback(COMM_TERMINATOR);
    assert link.rx.Contents == HELLO + [COMM_TERMINATOR];
  }
}
