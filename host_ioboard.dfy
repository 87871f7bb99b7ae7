/**
 * The host's board object (framework/src/ioboard.cpp): the misc requests
 * (reset, board id, CPU temperature), the read of all six analog inputs,
 * and the factory methods that create and configure io entities, refusing
 * a pin the board already has in its pin list.
 */
module HostIoBoard {
  import opened Bytes
  import opened Tags
  import opened HostLink
  import opened HostPin
  import HostAnalog
  import HostServo
  import HostI2c
  import HostGpioIn
  import HostGpioOut
  import HostCounter

  /** The six readings of a read-all reply, A0..A5, each sent high byte first after the status byte. */
  function AllReadings(reply: seq<byte>): (r: seq<uint16>)
    requires |reply| == 16
    ensures |r| == 6
    ensures forall i :: 0 <= i < 6 ==> High(r[i]) == reply[3 + 2 * i] && Low(r[i]) == reply[4 + 2 * i]
  {
    [Reading(reply, 3), Reading(reply, 5), Reading(reply, 7), Reading(reply, 9), Reading(reply, 11), Reading(reply, 13)]
  }

  /**
   * The id `getId` leaves behind: the reply's 16-bit reading is copied over
   * the low two bytes of the caller's variable, whose upper bytes stay.
   */
  function WithLowHalf(id: uint32, low: uint16): (r: uint32)
    ensures r % 0x1_0000 == low && r / 0x1_0000 == id / 0x1_0000
  {
    id / 0x1_0000 * 0x1_0000 + low
  }

  /** The board: the shared serial line and the list of pins already given to an entity. */
  class IoBoard {
    const serial: Serial
    var pinVect: seq<Pin>

    /** `isPinInVect`: a linear search of the claimed pins. */
    predicate IsPinInVect(p: Pin)
      reads this
      ensures IsPinInVect(p) <==> exists i :: 0 <= i < |pinVect| && pinVect[i] == p
    {
      p in pinVect
    }

    /** The constructor resets the board over the freshly opened line; its failure is only reported. */
    constructor (serial: Serial)
      modifies serial
      ensures this.serial == serial && pinVect == []
      ensures serial.written == old(serial.written) + Frame(CT_MISC, DT_MISC_RESET, [])
      ensures serial.pos == old(serial.pos) + 4
    {
      this.serial := serial;
      pinVect := [];
      new;
      var ok := Reset();
    }

    /**
     * `reset`: asks the board to reset; once it accepts, the pin list is
     * emptied so that every pin can be given out again.
     */
    method Reset() returns (ok: bool)
      modifies this, serial
      ensures serial.written == old(serial.written) + Frame(CT_MISC, DT_MISC_RESET, [])
      ensures serial.pos == old(serial.pos) + 4
      ensures ok == Accepted(old(serial.Upcoming(4)), CT_MISC, DT_MISC_RESET)
      ensures pinVect == if ok then [] else old(pinVect)
    {
      var reply;
      reply, ok := Transact(serial, Frame(CT_MISC, DT_MISC_RESET, []), 4, CT_MISC, DT_MISC_RESET);
      if ok {
        pinVect := [];
      }
    }

    /** `getId`: on an accepted reply, the board id replaces the low two bytes of the caller's `id`. */
    method GetId(id0: uint32) returns (ok: bool, id: uint32)
      modifies serial
      ensures serial.written == old(serial.written) + Frame(CT_MISC, DT_MISC_ID, [])
      ensures serial.pos == old(serial.pos) + 6
      ensures ok == Accepted(old(serial.Upcoming(6)), CT_MISC, DT_MISC_ID)
      ensures id == if ok then WithLowHalf(id0, Reading(old(serial.Upcoming(6)), 3)) else id0
    {
      var reply;
      reply, ok := Transact(serial, Frame(CT_MISC, DT_MISC_ID, []), 6, CT_MISC, DT_MISC_ID);
      id := id0;
      if ok {
        id := WithLowHalf(id0, Reading(reply, 3));
      }
    }

    /** `getTemperature`: the reading of the temperature channel; its scaling to a float is not modelled. */
    method GetTemperature(raw0: uint16) returns (ok: bool, raw: uint16)
      modifies serial
      ensures serial.written == old(serial.written) + Frame(CT_MISC, DT_MISC_TEMP, [])
      ensures serial.pos == old(serial.pos) + 6
      ensures ok == Accepted(old(serial.Upcoming(6)), CT_MISC, DT_MISC_TEMP)
      ensures raw == if ok then Reading(old(serial.Upcoming(6)), 3) else raw0
    {
      var reply;
      reply, ok := Transact(serial, Frame(CT_MISC, DT_MISC_TEMP, []), 6, CT_MISC, DT_MISC_TEMP);
      raw := raw0;
      if ok {
        raw := Reading(reply, 3);
      }
    }

    /** `getAllAnalog`: the six readings A0..A5 from one reply; the caller's values are written only on success. */
    method GetAllAnalog(raw0: seq<uint16>) returns (ok: bool, raw: seq<uint16>)
      requires |raw0| == 6
      modifies serial
      ensures serial.written == old(serial.written) + Frame(CT_ANALOG, DT_ANALOG_READ_ALL, [])
      ensures serial.pos == old(serial.pos) + 16
      ensures ok == Accepted(old(serial.Upcoming(16)), CT_ANALOG, DT_ANALOG_READ_ALL)
      ensures raw == if ok then AllReadings(old(serial.Upcoming(16))) else raw0
    {
      var reply;
      reply, ok := Transact(serial, Frame(CT_ANALOG, DT_ANALOG_READ_ALL, []), 16, CT_ANALOG, DT_ANALOG_READ_ALL);
      raw := raw0;
      if ok {
        raw := AllReadings(reply);
      }
    }

    /** `createAnalogPin`: a configured analog input, or null when the pin is already in the list. */
    method CreateAnalogPin(p: Pin) returns (ent: HostAnalog.AnalogPin?)
      modifies serial
      ensures pinVect == old(pinVect) && (ent == null <==> IsPinInVect(p))
      ensures ent != null ==> fresh(ent) && ent.serial == serial && ent.pin == p && ent.configured
      ensures serial.written == old(serial.written) && serial.pos == old(serial.pos)
    {
      ent := new HostAnalog.AnalogPin(serial, p);
      if !IsPinInVect(p) {
        var ok := ent.Config();
      } else {
        ent := null;
      }
    }

    /** `createServoPin`: a servo configured with the given width, or null when the pin is already in the list. */
    method CreateServoPin(p: Pin, w: uint32) returns (ent: HostServo.Servo?)
      requires IsServoPin(p) && HostServo.MIN_PULSE <= w <= HostServo.MAX_PULSE
      modifies serial
      ensures pinVect == old(pinVect) && (ent == null <==> IsPinInVect(p))
      ensures ent != null ==> fresh(ent) && ent.serial == serial && ent.pin == p && ent.Valid()
      ensures ent != null ==> ent.width == HostServo.WireWidth(p, w)
      ensures ent != null ==> ent.configured == Accepted(old(serial.Upcoming(4)), CT_SERVO, DT_SERVO_CONFIG)
      ensures ent != null ==> serial.written == old(serial.written) + Frame(CT_SERVO, DT_SERVO_CONFIG, HostServo.WidthArgs(p, ent.width))
      ensures ent == null ==> serial.written == old(serial.written) && serial.pos == old(serial.pos)
    {
      ent := new HostServo.Servo(serial, p, w);
      if !IsPinInVect(p) {
        var ok := ent.Config();
      } else {
        ent := null;
      }
    }

    /** `createI2CBridge`: a configured bridge, or null when SDA or SCL is already in the list. */
    method CreateI2cBridge(baudRate: nat) returns (ent: HostI2c.I2cBridge?)
      modifies serial
      ensures pinVect == old(pinVect) && (ent == null <==> IsPinInVect(A4) || IsPinInVect(A5))
      ensures ent != null ==> fresh(ent) && ent.serial == serial && ent.baudRate == baudRate && ent.pins == I2C_PINS
      ensures ent != null ==> ent.configured == Accepted(old(serial.Upcoming(4)), CT_I2C, DT_I2C_CONFIG)
      ensures ent != null ==> serial.written == old(serial.written) + Frame(CT_I2C, DT_I2C_CONFIG, [HostI2c.BaudByte(baudRate)])
      ensures ent == null ==> serial.written == old(serial.written) && serial.pos == old(serial.pos)
    {
      ent := new HostI2c.I2cBridge(serial, baudRate);
      if !IsPinInVect(A4) && !IsPinInVect(A5) {
        var ok := ent.Config();
      } else {
        ent := null;
      }
    }

    /** `createGpioInputPin`: a configured input, or null when the pin is already in the list. */
    method CreateGpioInputPin(p: Pin, pullUp: bool) returns (ent: HostGpioIn.GpioInputPin?)
      modifies serial
      ensures pinVect == old(pinVect) && (ent == null <==> IsPinInVect(p))
      ensures ent != null ==> fresh(ent) && ent.serial == serial && ent.pin == p && ent.pullUp == pullUp
      ensures ent != null ==> ent.configured == Accepted(old(serial.Upcoming(4)), CT_GPIO, DT_GPIO_CONFIG)
      ensures ent != null ==> serial.written == old(serial.written) + Frame(CT_GPIO, DT_GPIO_CONFIG, [PinNumber(p), HostGpioIn.InputOptions(pullUp)])
      ensures ent == null ==> serial.written == old(serial.written) && serial.pos == old(serial.pos)
    {
      ent := new HostGpioIn.GpioInputPin(serial, p, pullUp);
      if !IsPinInVect(p) {
        var ok := ent.Config();
      } else {
        ent := null;
      }
    }

    /** `createGpioOutputPin`: a configured output at the given level, or null when the pin is already in the list. */
    method CreateGpioOutputPin(p: Pin, value: bool) returns (ent: HostGpioOut.GpioOutputPin?)
      modifies serial
      ensures pinVect == old(pinVect) && (ent == null <==> IsPinInVect(p))
      ensures ent != null ==> fresh(ent) && ent.serial == serial && ent.pin == p && ent.pinValue == value
      ensures ent != null ==> ent.configured == Accepted(old(serial.Upcoming(4)), CT_GPIO, DT_GPIO_CONFIG)
      ensures ent != null ==> serial.written == old(serial.written) + Frame(CT_GPIO, DT_GPIO_CONFIG, [PinNumber(p), HostGpioOut.OutputOptions(value)])
      ensures ent == null ==> serial.written == old(serial.written) && serial.pos == old(serial.pos)
    {
      ent := new HostGpioOut.GpioOutputPin(serial, p, value);
      if !IsPinInVect(p) {
        var ok := ent.Config();
      } else {
        ent := null;
      }
    }

    /** `createCounterPin`: a counter configured for the given edge, or null when the pin is already in the list. */
    method CreateCounterPin(p: Pin, opt: HostCounter.CounterOption) returns (ent: HostCounter.CounterPin?)
      requires IsCounterPin(p)
      modifies serial
      ensures pinVect == old(pinVect) && (ent == null <==> IsPinInVect(p))
      ensures ent != null ==> fresh(ent) && ent.serial == serial && ent.pin == p && ent.options == opt
      ensures ent != null ==> ent.configured == Accepted(old(serial.Upcoming(4)), CT_COUNTER, DT_COUNTER_CONFIG)
      ensures ent != null ==> serial.written == old(serial.written) + Frame(CT_COUNTER, DT_COUNTER_CONFIG, [PinNumber(p), HostCounter.OptionsByte(opt)])
      ensures ent == null ==> serial.written == old(serial.written) && serial.pos == old(serial.pos)
    {
      ent := new HostCounter.CounterPin(serial, p, opt);
      if !IsPinInVect(p) {
        var ok := ent.Config();
      } else {
        ent := null;
      }
    }
  }

  /**
   * No method adds to the pin list: it starts empty and is only ever
   * emptied, so a board whose list is empty keeps it empty through any
   * create call and every create call configures a new entity.
   */
  method CreateTwice(board: IoBoard, p: Pin) returns (first: HostGpioIn.GpioInputPin?, second: HostGpioIn.GpioInputPin?)
    requires board.pinVect == []
    modifies board.serial
    ensures first != null && second != null && first != second
    ensures board.pinVect == []
  {
    first := board.CreateGpioInputPin(p, true);
    second := board.CreateGpioInputPin(p, true);
  }
}
