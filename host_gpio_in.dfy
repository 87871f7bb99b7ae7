/**
 * The host's digital input pin (framework/src/gpioInputPin.cpp): configures
 * a pin as input, optionally with its pull-up, and reads the level and the
 * edge flags the firmware collected since the last read.
 */
module HostGpioIn {
  import opened Bytes
  import opened Tags
  import opened HostLink
  import opened HostPin
  import ParserSpec

  /** The configuration options byte: input (bit 0 clear), with bit 2 set when the pull-up is wanted. */
  function InputOptions(pullUp: bool): (o: byte)
  {
    if pullUp then 0x04 else 0x00
  }

  /** The firmware reads an input configuration with the pull-up bit as asked and the output bit clear. */
  lemma InputOptionsRead(pullUp: bool)
    ensures var o := InputOptions(pullUp);
      o % 2 == 0 && (o / 2) % 2 == 0 && (o / 4) % 2 == ParserSpec.Bit(pullUp)
  {
  }

  /** The three flags of a read reply's data byte: level in bit 0, rising edge in bit 1, falling edge in bit 2. */
  function DecodeBits(b: byte): (g: ParserSpec.GpioSample)
  {
    var v := b as bv8;
    ParserSpec.GpioSample(v & 0x01 != 0, v & 0x02 != 0, v & 0x04 != 0)
  }

  /** Decoding the byte the firmware packs gives back the level and both edge flags. */
  lemma DecodePacked(g: ParserSpec.GpioSample)
    ensures DecodeBits(ParserSpec.GpioBits(g)) == g
  {
    var b := ParserSpec.GpioBits(g);
    assert b as bv8 == (if g.value then 1 else 0) | (if g.rise then 2 else 0) | (if g.fall then 4 else 0);
  }

  /** A digital input on one pin, with or without pull-up. */
  class GpioInputPin {
    const serial: Serial
    const pin: Pin
    const pullUp: bool
    var configured: bool

    constructor (serial: Serial, p: Pin, pullUp: bool)
      ensures this.serial == serial && pin == p && this.pullUp == pullUp && !configured
    {
      this.serial := serial;
      pin := p;
      this.pullUp := pullUp;
      configured := false;
    }

    /** `config`: asks the board to make the pin an input; configured once the board accepts. */
    method Config() returns (ok: bool)
      modifies this, serial
      ensures serial.written == old(serial.written) + Frame(CT_GPIO, DT_GPIO_CONFIG, [PinNumber(pin), InputOptions(pullUp)])
      ensures serial.pos == old(serial.pos) + 4
      ensures ok == Accepted(old(serial.Upcoming(4)), CT_GPIO, DT_GPIO_CONFIG)
      ensures configured == (old(configured) || ok)
    {
      var configOptions := 0x00;
      if pullUp {
        configOptions := 0x04;
      }
      var reply;
      reply, ok := Transact(serial, Frame(CT_GPIO, DT_GPIO_CONFIG, [PinNumber(pin), configOptions]), 4, CT_GPIO, DT_GPIO_CONFIG);
      if ok {
        configured := true;
      }
    }

    /**
     * `getPinValue`: reads the level and edge flags. The caller's `val`,
     * `rise` and `fall` are written only when the reply is accepted; an
     * unconfigured pin sends nothing.
     */
    method GetPinValue(val0: bool, rise0: bool, fall0: bool) returns (ok: bool, val: bool, rise: bool, fall: bool)
      modifies serial
      ensures configured ==> serial.written == old(serial.written) + Frame(CT_GPIO, DT_GPIO_READ, [PinNumber(pin)])
      ensures configured ==> serial.pos == old(serial.pos) + 5
      ensures !configured ==> serial.written == old(serial.written) && serial.pos == old(serial.pos)
      ensures ok == (configured && Accepted(old(serial.Upcoming(5)), CT_GPIO, DT_GPIO_READ))
      ensures ok ==> ParserSpec.GpioSample(val, rise, fall) == DecodeBits(old(serial.Upcoming(5))[3])
      ensures !ok ==> val == val0 && rise == rise0 && fall == fall0
    {
      ok, val, rise, fall := false, val0, rise0, fall0;
      if !configured {
        return;
      }
      var reply;
      reply, ok := Transact(serial, Frame(CT_GPIO, DT_GPIO_READ, [PinNumber(pin)]), 5, CT_GPIO, DT_GPIO_READ);
      if !ok {
        return;
      }
      var bits := reply[3] as bv8;
      val := bits & 0x01 != 0;
      rise := bits & 0x02 != 0;
      fall := bits & 0x04 != 0;
    }
  }
}
