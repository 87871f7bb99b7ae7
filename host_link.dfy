/**
 * The host side of the line: the serial port every io entity shares, and
 * the reply check every host method applies before it believes a reply.
 * The port itself (framework/src/serial.cpp, boost::asio) is reduced to
 * the bytes written and the bytes the board sends, read in order.
 */
module HostLink {
  import opened Bytes
  import opened Tags

  /** The serial port shared by the board object and all its io entities. */
  class Serial {
    /** Every byte passed to `writeToSerial`, in order. */
    var written: seq<byte>
    /** The bytes the board sends: byte `i` is the `i`-th to arrive. */
    const board: nat -> byte
    /** How many of them `readFromSerial` has consumed. */
    var pos: nat

    constructor (board: nat -> byte)
      ensures written == [] && pos == 0 && this.board == board
    {
      written := [];
      this.board := board;
      pos := 0;
    }

    /** The next `n` bytes `readFromSerial` will return. */
    function Upcoming(n: nat): (r: seq<byte>)
      reads this
      ensures |r| == n
    {
      var start := pos;
      seq(n, i requires 0 <= i < n => board(start + i))
    }

    /** `writeToSerial`: the whole buffer goes out. */
    method WriteToSerial(buf: seq<byte>)
      modifies this
      ensures written == old(written) + buf && pos == old(pos)
    {
      written := written + buf;
    }

    /** `readFromSerial`: blocks until `size` bytes have arrived and returns them. */
    method ReadFromSerial(size: nat) returns (buf: seq<byte>)
      modifies this
      ensures buf == old(Upcoming(size)) && pos == old(pos) + size && written == old(written)
    {
      buf := Upcoming(size);
      pos := pos + size;
    }
  }

  /**
   * The three tests of every reply: it echoes the request's class and
   * data tags, its checksum passes, and its status byte is not NOK.
   */
  predicate Accepted(reply: seq<byte>, ct: byte, dt: byte)
    requires |reply| >= 3
  {
    reply[0] == ct && reply[1] == dt && ChecksumOk(reply) && reply[2] != NOK
  }

  /** The reply check, test by test, as each host method writes it. */
  method CheckReply(reply: seq<byte>, ct: byte, dt: byte) returns (ok: bool)
    requires |reply| >= 3
    ensures ok == Accepted(reply, ct, dt)
  {
    if reply[0] != ct || reply[1] != dt {
      return false;
    }
    ok := IsChecksumOk(reply, |reply|);
    assert reply[..|reply|] == reply;
    if !ok {
      return false;
    }
    ok := reply[2] != NOK;
  }

  /**
   * A well-formed frame is accepted exactly when its tags are the ones
   * expected and its status byte is not NOK; a reply with another tag is
   * refused however well formed.
   */
  lemma FrameAccepted(ct: byte, dt: byte, body: seq<byte>, ct': byte, dt': byte)
    requires |body| >= 1
    ensures Accepted(Frame(ct, dt, body), ct', dt') <==> ct == ct' && dt == dt' && body[0] != NOK
  {
    var f := Frame(ct, dt, body);
    assert f[2] == f[2..|f| - 1][0];
  }

  /**
   * A 16-bit reading from a reply, sent high byte first: the host copies the
   * two bytes, swapped, into the low half of a zeroed `unsigned int` on a
   * little-endian machine.
   */
  function Reading(reply: seq<byte>, k: nat): (v: uint16)
    requires k + 1 < |reply|
    ensures High(v) == reply[k] && Low(v) == reply[k + 1]
  {
    reply[k] as int * 0x100 + reply[k + 1]
  }

  /**
   * One request and its reply, as every host method performs them: write
   * the request, block for `replySize` bytes, then run the reply check.
   */
  method Transact(serial: Serial, msg: seq<byte>, replySize: nat, ct: byte, dt: byte) returns (reply: seq<byte>, ok: bool)
    requires replySize >= 3
    modifies serial
    ensures serial.written == old(serial.written) + msg && serial.pos == old(serial.pos) + replySize
    ensures reply == old(serial.Upcoming(replySize))
    ensures ok == Accepted(reply, ct, dt)
  {
    serial.WriteToSerial(msg);
    reply := serial.ReadFromSerial(replySize);
    ok := CheckReply(reply, ct, dt);
  }
}
