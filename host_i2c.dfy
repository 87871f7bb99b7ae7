/**
 * The host's I2C bridge (framework/src/i2cBridge.cpp): configures the
 * firmware's I2C master and forwards register reads and writes to a slave.
 */
module HostI2c {
  import opened Bytes
  import opened Tags
  import opened HostLink
  import opened HostPin

  /** `i2cBaudRate100k`, `i2cBaudRate400k`. */
  const BAUD_100K: nat := 100000
  const BAUD_400K: nat := 400000

  /** The largest write the bridge forwards: the firmware's data buffer holds eight bytes. */
  const MAX_WRITE: nat := 8

  /** The speed byte of the configuration request: 1 asks for 400 kHz, any other rate for 100 kHz. */
  function BaudByte(rate: nat): (b: byte)
    ensures b <= 1
    ensures b == 1 <==> rate == BAUD_400K
  {
    if rate == BAUD_100K then 0x00 else if rate == BAUD_400K then 0x01 else 0x00
  }

  /** The data a read reply carries: the `length` bytes after tags and status. */
  function ReplyData(reply: seq<byte>, length: byte): (d: seq<byte>)
    requires |reply| == length + 4
    ensures |d| == length
    ensures forall i :: 0 <= i < length ==> d[i] == reply[i + 3]
  {
    reply[3..3 + length]
  }

  /**
   * The write request, assembled in a buffer as `write` does: header,
   * `length` data bytes, then the 8-bit sum of everything before it.
   */
  method WriteRequest(adr: byte, offset: byte, data: seq<byte>, length: byte) returns (msg: seq<byte>)
    requires length <= |data|
    ensures msg == Frame(CT_I2C, DT_I2C_WRITE, [adr, offset, length] + data[..length])
  {
    ghost var body := [CT_I2C, DT_I2C_WRITE] + ([adr, offset, length] + data[..length]);
    var size := 6 + length;
    var buf := new byte[size];
    buf[0], buf[1], buf[2], buf[3], buf[4] := CT_I2C, DT_I2C_WRITE, adr, offset, length;
    var i := 0;
    while i < length
      invariant 0 <= i <= length
      invariant buf[..i + 5] == body[..i + 5]
    {
      buf[i + 5] := data[i];
      i := i + 1;
    }
    assert buf[..size - 1] == body;
    SealFrame(buf, size - 1);
    msg := buf[..];
    assert msg == buf[..size - 1] + [buf[size - 1]];
  }

  /** The I2C bridge entity: the two bus pins, the requested bus speed, and whether the board accepted the configuration. */
  class I2cBridge {
    const serial: Serial
    const baudRate: nat
    const pins: seq<Pin>
    var configured: bool

    /** The bridge occupies SDA and SCL and starts unconfigured. */
    constructor (serial: Serial, baudRate: nat)
      ensures this.serial == serial && this.baudRate == baudRate
      ensures pins == I2C_PINS && !configured
    {
      this.serial := serial;
      this.baudRate := baudRate;
      pins := I2C_PINS;
      configured := false;
    }

    /** `config`: sends the speed byte; the bridge is configured once the board accepts. */
    method Config() returns (ok: bool)
      modifies this, serial
      ensures serial.written == old(serial.written) + Frame(CT_I2C, DT_I2C_CONFIG, [BaudByte(baudRate)])
      ensures serial.pos == old(serial.pos) + 4
      ensures ok == Accepted(old(serial.Upcoming(4)), CT_I2C, DT_I2C_CONFIG)
      ensures configured == (old(configured) || ok)
    {
      FrameSmall(CT_I2C, DT_I2C_CONFIG, BaudByte(baudRate), 0, 0);
      var b := BaudByte(baudRate);
      var reply;
      reply, ok := Transact(serial, [CT_I2C, DT_I2C_CONFIG, b, (CT_I2C + DT_I2C_CONFIG + b) % 0x100], 4, CT_I2C, DT_I2C_CONFIG);
      if ok {
        configured := true;
      }
    }

    /**
     * `read`: asks for `length` bytes from register `offset` of slave `adr`
     * and copies them into `data`; an unconfigured bridge sends nothing, and
     * `data` changes only when the reply is accepted.
     */
    method Read(adr: byte, offset: byte, data: array<byte>, length: byte) returns (ok: bool)
      requires length <= data.Length
      modifies serial, data
      ensures configured ==> serial.written == old(serial.written) + Frame(CT_I2C, DT_I2C_READ, [adr, offset, length])
      ensures configured ==> serial.pos == old(serial.pos) + 4 + length
      ensures !configured ==> serial.written == old(serial.written) && serial.pos == old(serial.pos)
      ensures ok == (configured && Accepted(old(serial.Upcoming(4 + length)), CT_I2C, DT_I2C_READ))
      ensures ok ==> data[..length] == ReplyData(old(serial.Upcoming(4 + length)), length)
      ensures ok ==> data[length..] == old(data[length..])
      ensures !ok ==> data[..] == old(data[..])
    {
      if !configured {
        return false;
      }
      FrameSmall(CT_I2C, DT_I2C_READ, adr, offset, length);
      var reply;
      reply, ok := Transact(serial, [CT_I2C, DT_I2C_READ, adr, offset, length, (CT_I2C + DT_I2C_READ + adr + offset + length) % 0x100],
                            4 + length, CT_I2C, DT_I2C_READ);
      if !ok {
        return false;
      }
      var i := 0;
      while i < length
        invariant 0 <= i <= length
        modifies data
        invariant data[..i] == reply[3..3 + i]
        invariant data[i..] == old(data[i..])
      {
        data[i] := reply[i + 3];
        i := i + 1;
      }
    }

    /**
     * `write`: forwards `length` bytes of `data` to register `offset` of
     * slave `adr`. Nothing is sent when the bridge is unconfigured or
     * `length` is outside 1..8.
     */
    method Write(adr: byte, offset: byte, data: seq<byte>, length: byte) returns (ok: bool)
      requires 1 <= length <= MAX_WRITE ==> length <= |data|
      modifies serial
      ensures var sent := configured && 1 <= length <= MAX_WRITE;
        && (sent ==> serial.written == old(serial.written) + Frame(CT_I2C, DT_I2C_WRITE, [adr, offset, length] + data[..length]))
        && (sent ==> serial.pos == old(serial.pos) + 4)
        && (!sent ==> serial.written == old(serial.written) && serial.pos == old(serial.pos))
        && ok == (sent && Accepted(old(serial.Upcoming(4)), CT_I2C, DT_I2C_WRITE))
    {
      if !configured {
        return false;
      }
      if length < 1 || length > 8 {
        return false;
      }
      var msg := WriteRequest(adr, offset, data, length);
      var reply;
      reply, ok := Transact(serial, msg, 4, CT_I2C, DT_I2C_WRITE);
    }
  }
}
