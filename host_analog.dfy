/**
 * The host's analog input (framework/src/analogPin.cpp): needs no board
 * configuration and reads one ADC channel. The conversion of the 10-bit
 * reading to volts is floating point and is not modelled: the method
 * returns the reading the voltage is computed from.
 */
module HostAnalog {
  import opened Bytes
  import opened Tags
  import opened HostLink
  import opened HostPin

  /** An analog input on one pin. */
  class AnalogPin {
    const serial: Serial
    const pin: Pin
    var configured: bool

    constructor (serial: Serial, p: Pin)
      ensures this.serial == serial && pin == p && !configured
    {
      this.serial := serial;
      pin := p;
      configured := false;
    }

    /** `config`: nothing is sent; the pin is configured at once. */
    method Config() returns (ok: bool)
      modifies this
      ensures ok && configured
    {
      configured := true;
      ok := true;
    }

    /**
     * `getPinVoltage`: the reading of the pin's channel, from the reply's
     * high and low byte; the caller's value is written only when the reply
     * is accepted, and an unconfigured pin sends nothing.
     */
    method GetPinVoltage(raw0: uint16) returns (ok: bool, raw: uint16)
      modifies serial
      ensures configured ==> serial.written == old(serial.written) + Frame(CT_ANALOG, DT_ANALOG_READ, [PinNumber(pin)])
      ensures configured ==> serial.pos == old(serial.pos) + 6
      ensures !configured ==> serial.written == old(serial.written) && serial.pos == old(serial.pos)
      ensures ok == (configured && Accepted(old(serial.Upcoming(6)), CT_ANALOG, DT_ANALOG_READ))
      ensures raw == if ok then Reading(old(serial.Upcoming(6)), 3) else raw0
    {
      ok, raw := false, raw0;
      if !configured {
        return;
      }
      var reply;
      reply, ok := Transact(serial, Frame(CT_ANALOG, DT_ANALOG_READ, [PinNumber(pin)]), 6, CT_ANALOG, DT_ANALOG_READ);
      if ok {
        raw := Reading(reply, 3);
      }
    }
  }
}
