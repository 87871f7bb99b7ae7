/**
 * The host's pulse counter (framework/src/counterPin.cpp): configures the
 * edge an external-interrupt pin counts on and reads the 8-bit count.
 */
module HostCounter {
  import opened Bytes
  import opened Tags
  import opened HostLink
  import opened HostPin
  import ParserSpec
  import Counter

  /** `E_COUNTER_OPTIONS`. */
  datatype CounterOption = Rise | Fall | Both

  /** The options byte of the configuration request: one bit per edge choice. */
  function OptionsByte(o: CounterOption): (b: byte)
  {
    match o
    case Rise => 0x01
    case Fall => 0x02
    case Both => 0x04
  }

  /** The firmware's option constant with the same name. */
  function FirmwareOption(o: CounterOption): nat
  {
    match o
    case Rise => Counter.RISE
    case Fall => Counter.FALL
    case Both => Counter.BOTH
  }

  /**
   * The firmware decodes every options byte the host sends to the edge the
   * host asked for, whatever its uninitialised option variable held.
   */
  lemma OptionsRoundTrip(o: CounterOption, garbage: nat)
    ensures ParserSpec.CounterOption(OptionsByte(o), garbage) == FirmwareOption(o)
  {
  }

  /** Different choices reach the firmware as different options. */
  lemma OptionsDistinct(o: CounterOption, o': CounterOption)
    ensures FirmwareOption(o) == FirmwareOption(o') <==> o == o'
  {
  }

  /** A counter on one of the two interrupt pins. */
  class CounterPin {
    const serial: Serial
    const pin: Pin
    const options: CounterOption
    var configured: bool

    /** The constructor's assertion: only D2 and D3 can count. */
    constructor (serial: Serial, p: Pin, opt: CounterOption)
      requires IsCounterPin(p)
      ensures this.serial == serial && pin == p && options == opt && !configured
    {
      this.serial := serial;
      pin := p;
      options := opt;
      configured := false;
    }

    /** `config`: sends the pin and the edge choice; configured once the board accepts. */
    method Config() returns (ok: bool)
      modifies this, serial
      ensures serial.written == old(serial.written) + Frame(CT_COUNTER, DT_COUNTER_CONFIG, [PinNumber(pin), OptionsByte(options)])
      ensures serial.pos == old(serial.pos) + 4
      ensures ok == Accepted(old(serial.Upcoming(4)), CT_COUNTER, DT_COUNTER_CONFIG)
      ensures configured == (old(configured) || ok)
    {
      var opt := 0x00;
      if options == Rise {
        opt := 0x01;
      } else if options == Fall {
        opt := 0x02;
      } else if options == Both {
        opt := 0x04;
      }
      var reply;
      reply, ok := Transact(serial, Frame(CT_COUNTER, DT_COUNTER_CONFIG, [PinNumber(pin), opt]), 4, CT_COUNTER, DT_COUNTER_CONFIG);
      if ok {
        configured := true;
      }
    }

    /**
     * `readCounter`: the count from the reply's data byte; the caller's
     * `val` is written only when the reply is accepted, and an
     * unconfigured counter sends nothing.
     */
    method ReadCounter(val0: uint32) returns (ok: bool, val: uint32)
      modifies serial
      ensures configured ==> serial.written == old(serial.written) + Frame(CT_COUNTER, DT_COUNTER_READ, [PinNumber(pin)])
      ensures configured ==> serial.pos == old(serial.pos) + 5
      ensures !configured ==> serial.written == old(serial.written) && serial.pos == old(serial.pos)
      ensures ok == (configured && Accepted(old(serial.Upcoming(5)), CT_COUNTER, DT_COUNTER_READ))
      ensures val == if ok then old(serial.Upcoming(5))[3] else val0
    {
      ok, val := false, val0;
      if !configured {
        return;
      }
      var reply;
      reply, ok := Transact(serial, Frame(CT_COUNTER, DT_COUNTER_READ, [PinNumber(pin)]), 5, CT_COUNTER, DT_COUNTER_READ);
      if ok {
        val := reply[3];
      }
    }
  }
}
