/**
 * The firmware's serial transport (firmware/src/uart.c): one 256-slot ring
 * buffer per direction, with 8-bit read pointer, write pointer and count.
 * The receive-complete and data-register-empty interrupt bodies are modelled
 * as atomic methods that run between main-loop steps.
 */
module Uart {
  import opened Bytes

  const BUF_SIZE: nat := 256

  /** The state of one ring buffer: backing store, pointers and count. */
  datatype Ring = Ring(buf: seq<byte>, rd: byte, wr: byte, cnt: byte)

  /**
   * The buffer has 256 slots and the count is the distance from the read
   * to the write pointer (both taken mod 256).
   */
  predicate RingValid(r: Ring)
  {
    |r.buf| == BUF_SIZE && (r.wr - r.rd) % 256 == r.cnt
  }

  /** The `n` bytes that follow slot `start`, wrapping around the buffer. */
  function Window(buf: seq<byte>, start: nat, n: nat): (w: seq<byte>)
    requires |buf| == BUF_SIZE
    ensures |w| == n
  {
    seq(n, i requires 0 <= i < n => buf[(start + i) % 256])
  }

  /** The unread bytes, oldest first. */
  function Contents(r: Ring): seq<byte>
    requires |r.buf| == BUF_SIZE
  {
    Window(r.buf, r.rd, r.cnt)
  }

  /**
   * One store into the ring (`sendByte`, or the receive ISR). The guard
   * `cnt < BUF_SIZE` compares an 8-bit count with 256, so it always holds,
   * and the increment of the count wraps from 255 to 0.
   */
  function Push(r: Ring, x: byte): (r': Ring)
    requires |r.buf| == BUF_SIZE
    ensures |r'.buf| == BUF_SIZE && r'.rd == r.rd
    ensures r'.buf[r.wr] == x
    ensures forall i :: 0 <= i < BUF_SIZE && i != r.wr ==> r'.buf[i] == r.buf[i]
    ensures r'.wr == (r.wr + 1) % 256 && r'.cnt == (r.cnt + 1) % 256
  {
    if r.cnt < BUF_SIZE then
      Ring(r.buf[r.wr := x], r.rd, (r.wr + 1) % 256, (r.cnt + 1) % 256)
    else
      r
  }

  /** One removal (`readByte`, or the data-register-empty ISR). */
  function Pop(r: Ring): (p: (Ring, Option<byte>))
    requires |r.buf| == BUF_SIZE
    ensures p.1.Some? <==> r.cnt > 0
    ensures p.1.Some? ==> p.1.value == r.buf[r.rd] && p.0 == Ring(r.buf, (r.rd + 1) % 256, r.wr, r.cnt - 1)
    ensures p.1.None? ==> p.0 == r
  {
    if r.cnt > 0 then
      (Ring(r.buf, (r.rd + 1) % 256, r.wr, r.cnt - 1), Some(r.buf[r.rd]))
    else
      (r, None)
  }

  /** Stores every byte of `s` in order, one `Push` each. */
  function PushAll(r: Ring, s: seq<byte>): (r': Ring)
    requires |r.buf| == BUF_SIZE
    ensures |r'.buf| == BUF_SIZE
    decreases |s|
  {
    if s == [] then r else PushAll(Push(r, s[0]), s[1..])
  }

  lemma PushValid(r: Ring, x: byte)
    requires RingValid(r)
    ensures RingValid(Push(r, x))
  {
    ModStep(r.wr, r.rd);
  }

  lemma PopValid(r: Ring)
    requires RingValid(r)
    ensures RingValid(Pop(r).0)
  {
    if r.cnt > 0 {
      PopStep(r.wr, r.rd);
    }
  }

  /** Advancing the write pointer (mod 256) advances the distance by one, mod 256. */
  lemma ModStep(a: byte, b: byte)
    ensures ((a + 1) % 256 - b) % 256 == ((a - b) % 256 + 1) % 256
  {
  }

  /** Advancing the read pointer (mod 256) shortens a non-zero distance by one. */
  lemma PopStep(a: byte, b: byte)
    requires (a - b) % 256 > 0
    ensures (a - (b + 1) % 256) % 256 == (a - b) % 256 - 1
  {
  }

  /** The write pointer sits `cnt` slots after the read pointer. */
  lemma WritePointer(r: Ring)
    requires RingValid(r)
    ensures r.wr == (r.rd + r.cnt) % 256
  {
  }

  /** Below 255 unread bytes, a store appends the byte at the tail. */
  lemma PushAppends(r: Ring, x: byte)
    requires RingValid(r) && r.cnt < 255
    ensures Contents(Push(r, x)) == Contents(r) + [x]
  {
    var r' := Push(r, x);
    WritePointer(r);
    forall i | 0 <= i < r.cnt
      ensures Contents(r')[i] == Contents(r)[i]
    {
      Distinct(r.rd, i, r.cnt);
    }
  }

  /** Two offsets below 256 from the same slot land on different slots. */
  lemma Distinct(base: byte, i: nat, j: nat)
    requires i < j < 256
    ensures (base + i) % 256 != (base + j) % 256
  {
  }

  /**
   * With 255 unread bytes a store does not drop the new byte: the 8-bit
   * count wraps to 0 and every buffered byte is lost.
   */
  lemma PushWrapsAtFull(r: Ring, x: byte)
    requires RingValid(r) && r.cnt == 255
    ensures Push(r, x).cnt == 0 && Contents(Push(r, x)) == []
  {
  }

  /** A removal yields the oldest byte and leaves the rest in order. */
  lemma PopTakesOldest(r: Ring)
    requires RingValid(r)
    ensures r.cnt > 0 ==> Pop(r).1 == Some(Contents(r)[0]) && Contents(Pop(r).0) == Contents(r)[1..]
    ensures r.cnt == 0 ==> Pop(r) == (r, None)
  {
    if r.cnt > 0 {
      WindowShift(r.buf, r.rd, r.cnt);
    }
  }

  /** Dropping the first byte of a window is the window one slot further on. */
  lemma WindowShift(buf: seq<byte>, start: byte, n: nat)
    requires |buf| == BUF_SIZE && n > 0
    ensures Window(buf, (start + 1) % 256, n - 1) == Window(buf, start, n)[1..]
  {
    var w := Window(buf, start, n);
    var w' := Window(buf, (start + 1) % 256, n - 1);
    forall i | 0 <= i < n - 1
      ensures w'[i] == w[i + 1]
    {
      ModAddOne(start, i);
    }
  }

  /** Storing a whole array advances the count by its length, mod 256. */
  lemma {:induction false} PushAllCount(r: Ring, s: seq<byte>)
    requires RingValid(r)
    ensures RingValid(PushAll(r, s))
    ensures PushAll(r, s).cnt == (r.cnt + |s|) % 256
    decreases |s|
  {
    if s != [] {
      PushValid(r, s[0]);
      var r1 := Push(r, s[0]);
      PushAllCount(r1, s[1..]);
      assert r1.cnt == (r.cnt + 1) % 256;
      ModAddOne(r.cnt, |s| - 1);
    }
  }

  lemma ModAddOne(c: nat, k: nat)
    ensures ((c + 1) % 256 + k) % 256 == (c + 1 + k) % 256
  {
  }

  /** While fewer than 256 bytes are buffered in all, stores keep FIFO order. */
  lemma {:induction false} PushAllAppends(r: Ring, s: seq<byte>)
    requires RingValid(r) && r.cnt + |s| < 256
    ensures RingValid(PushAll(r, s))
    ensures Contents(PushAll(r, s)) == Contents(r) + s
    decreases |s|
  {
    if s != [] {
      PushValid(r, s[0]);
      PushAppends(r, s[0]);
      PushAllAppends(Push(r, s[0]), s[1..]);
      assert Contents(r) + s == Contents(r) + [s[0]] + s[1..];
    }
  }

  /**
   * Saturation as written: 256 bytes stored into an empty buffer with
   * nothing drained leave the count at 0, so nothing can be read back.
   */
  lemma Saturation(r: Ring, s: seq<byte>)
    requires RingValid(r) && r.cnt == 0 && |s| == 256
    ensures RingValid(PushAll(r, s))
    ensures Contents(PushAll(r, s)) == []
  {
    PushAllCount(r, s);
  }

  class Uart {
    var rxBuf: array<byte>
    var rxRd: byte
    var rxWr: byte
    var rxCnt: byte
    var txBuf: array<byte>
    var txRd: byte
    var txWr: byte
    var txCnt: byte
    /** The UDRIE0 bit of UCSR0B: the data-register-empty interrupt is enabled. */
    var udrie: bool

    ghost predicate Valid()
      reads this, rxBuf, txBuf
    {
      rxBuf != txBuf && RingValid(RxRing()) && RingValid(TxRing())
    }

    function RxRing(): Ring
      reads this, rxBuf
    {
      Ring(rxBuf[..], rxRd, rxWr, rxCnt)
    }

    function TxRing(): Ring
      reads this, txBuf
    {
      Ring(txBuf[..], txRd, txWr, txCnt)
    }

    /** Both buffers empty, pointers at 0 (the static initialisers). */
    constructor ()
      ensures Valid() && fresh(rxBuf) && fresh(txBuf)
      ensures Contents(RxRing()) == [] && Contents(TxRing()) == [] && !udrie
    {
      rxBuf := new byte[BUF_SIZE];
      txBuf := new byte[BUF_SIZE];
      rxRd, rxWr, rxCnt := 0, 0, 0;
      txRd, txWr, txCnt := 0, 0, 0;
      udrie := false;
    }

    /** `sendByte`: store one byte for transmission and enable UDRIE0. */
    method SendByte(x: byte)
      requires Valid()
      modifies this, txBuf
      ensures Valid() && rxBuf == old(rxBuf) && txBuf == old(txBuf)
      ensures TxRing() == Push(old(TxRing()), x) && udrie
      ensures RxRing() == old(RxRing())
    {
      if txCnt < BUF_SIZE {
        txBuf[txWr] := x;
        txWr := (txWr + 1) % 256;
        txCnt := (txCnt + 1) % 256;
        udrie := true;
      }
      PushValid(old(TxRing()), x);
    }

    /** `sendByteArray`: `sendByte` for `data[0..size)` in index order. */
    method SendByteArray(data: seq<byte>, size: byte)
      requires Valid() && size <= |data|
      modifies this, txBuf
      ensures Valid() && rxBuf == old(rxBuf) && txBuf == old(txBuf)
      ensures TxRing() == PushAll(old(TxRing()), data[..size])
      ensures udrie == (old(udrie) || size > 0)
      ensures RxRing() == old(RxRing())
    {
      var i := 0;
      while i < size
        invariant 0 <= i <= size
        invariant Valid() && rxBuf == old(rxBuf) && txBuf == old(txBuf)
        invariant PushAll(old(TxRing()), data[..size]) == PushAll(TxRing(), data[i..size])
        invariant udrie == (old(udrie) || i > 0)
        invariant RxRing() == old(RxRing())
      {
        assert data[i..size] == [data[i]] + data[i + 1..size];
        SendByte(data[i]);
        i := i + 1;
      }
    }

    /** `readByte`: take the oldest received byte; with none, `data` is left as it was. */
    method ReadByte(data: byte) returns (data': byte)
      requires Valid()
      modifies this
      ensures Valid()
      ensures RxRing() == Pop(old(RxRing())).0
      ensures data' == (match Pop(old(RxRing())).1 case Some(x) => x case None => data)
      ensures TxRing() == old(TxRing()) && udrie == old(udrie)
    {
      data' := data;
      if rxCnt > 0 {
        data' := rxBuf[rxRd];
        rxRd := (rxRd + 1) % 256;
        rxCnt := rxCnt - 1;
      }
      PopValid(old(RxRing()));
    }

    /** `uartDataAvailable`: the receive count; nothing changes. */
    method UartDataAvailable() returns (n: byte)
      requires Valid()
      ensures n == |Contents(RxRing())|
    {
      n := rxCnt;
    }

    /** The receive-complete ISR: store the byte just read from UDR0. */
    method RxIsr(udr: byte)
      requires Valid()
      modifies this, rxBuf
      ensures Valid() && rxBuf == old(rxBuf) && txBuf == old(txBuf)
      ensures RxRing() == Push(old(RxRing()), udr)
      ensures TxRing() == old(TxRing()) && udrie == old(udrie)
    {
      if rxCnt < BUF_SIZE {
        rxBuf[rxWr] := udr;
        rxWr := (rxWr + 1) % 256;
        rxCnt := (rxCnt + 1) % 256;
      }
      PushValid(old(RxRing()), udr);
    }

    /**
     * The data-register-empty ISR: move the oldest byte to UDR0 (returned)
     * and disable the interrupt once the count reaches 0.
     */
    method UdreIsr() returns (udr: Option<byte>)
      requires Valid()
      modifies this
      ensures Valid()
      ensures (TxRing(), udr) == Pop(old(TxRing()))
      ensures udrie == (if old(txCnt) > 0 then txCnt != 0 && old(udrie) else old(udrie))
      ensures RxRing() == old(RxRing())
    {
      udr := None;
      if txCnt > 0 {
        udr := Some(txBuf[txRd]);
        txRd := (txRd + 1) % 256;
        txCnt := txCnt - 1;
        if txCnt == 0 {
          udrie := false;
        }
      }
      PopValid(old(TxRing()));
    }
  }
}
