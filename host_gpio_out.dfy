/**
 * The host's digital output pin (framework/gpioOutputPin.cpp): configures
 * a pin as output with an initial level, and sets its level; the host
 * remembers the last level the board accepted.
 */
module HostGpioOut {
  import opened Bytes
  import opened Tags
  import opened HostLink
  import opened HostPin
  import ParserSpec

  /** The configuration options byte: output (bit 0), with bit 1 holding the initial level. */
  function OutputOptions(value: bool): (o: byte)
  {
    if value then 0x01 + 0x02 else 0x01
  }

  /** The firmware reads an output configuration with the output bit set, the level as asked and no pull-up. */
  lemma OutputOptionsRead(value: bool)
    ensures var o := OutputOptions(value);
      o % 2 == 1 && (o / 2) % 2 == ParserSpec.Bit(value) && (o / 4) % 2 == 0
  {
  }

  /** A digital output on one pin and the level last set. */
  class GpioOutputPin {
    const serial: Serial
    const pin: Pin
    var pinValue: bool
    var configured: bool

    constructor (serial: Serial, p: Pin, pinValue: bool)
      ensures this.serial == serial && pin == p && this.pinValue == pinValue && !configured
    {
      this.serial := serial;
      pin := p;
      this.pinValue := pinValue;
      configured := false;
    }

    /** `config`: asks the board to make the pin an output at the stored level; configured once the board accepts. */
    method Config() returns (ok: bool)
      modifies this, serial
      ensures pinValue == old(pinValue)
      ensures serial.written == old(serial.written) + Frame(CT_GPIO, DT_GPIO_CONFIG, [PinNumber(pin), OutputOptions(pinValue)])
      ensures serial.pos == old(serial.pos) + 4
      ensures ok == Accepted(old(serial.Upcoming(4)), CT_GPIO, DT_GPIO_CONFIG)
      ensures configured == (old(configured) || ok)
    {
      var configOptions := 0x01;
      if pinValue {
        configOptions := configOptions + 0x02;
      }
      var reply;
      reply, ok := Transact(serial, Frame(CT_GPIO, DT_GPIO_CONFIG, [PinNumber(pin), configOptions]), 4, CT_GPIO, DT_GPIO_CONFIG);
      if ok {
        configured := true;
      }
    }

    /**
     * `setPinValue`: sends the level as 1 or 0; the stored level follows
     * only when the board accepts. An unconfigured pin sends nothing.
     */
    method SetPinValue(val: bool) returns (ok: bool)
      modifies this, serial
      ensures configured == old(configured)
      ensures configured ==> serial.written == old(serial.written) + Frame(CT_GPIO, DT_GPIO_WRITE, [PinNumber(pin), ParserSpec.Bit(val)])
      ensures configured ==> serial.pos == old(serial.pos) + 4
      ensures !configured ==> serial.written == old(serial.written) && serial.pos == old(serial.pos)
      ensures ok == (configured && Accepted(old(serial.Upcoming(4)), CT_GPIO, DT_GPIO_WRITE))
      ensures pinValue == if ok then val else old(pinValue)
    {
      if !configured {
        return false;
      }
      var value := 0x00;
      if val {
        value := 0x01;
      }
      var reply;
      reply, ok := Transact(serial, Frame(CT_GPIO, DT_GPIO_WRITE, [PinNumber(pin), value]), 4, CT_GPIO, DT_GPIO_WRITE);
      if ok {
        pinValue := val;
      }
    }

    /** `getPinValue`: the level last accepted by the board, or the initial one. */
    function GetPinValue(): (v: bool)
      reads this
      ensures v == pinValue
    {
      pinValue
    }
  }
}
