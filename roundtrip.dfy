/**
 * The host and the firmware together: each request a host entity sends,
 * fed byte by byte to an idle firmware parser, draws the reply the entity
 * expects; the entity accepts it exactly when the firmware served the
 * request, and what it decodes is what the firmware's drivers produced.
 */
module RoundTrip {
  import opened Bytes
  import opened Tags
  import opened ParserSpec
  import opened ParserFrames
  import opened HostLink
  import opened HostPin
  import Gpio
  import Analog
  import HostGpioIn
  import HostGpioOut
  import HostCounter
  import HostServo
  import HostI2c
  import HostIoBoard

  /** A reply carrying a status and a 16-bit value high byte first decodes to that value. */
  lemma PairDecoded(ct: byte, dt: byte, status: byte, v: uint16)
    ensures Reading(Frame(ct, dt, [status, High(v), Low(v)]), 3) == v
  {
    var body := [status, High(v), Low(v)];
    var f := Frame(ct, dt, body);
    assert f[3] == f[2..|f| - 1][1] && f[4] == f[2..|f| - 1][2];
    HighLowJoin(v);
  }

  /** An accepted read-all reply decodes, pair by pair, to the six channel readings. */
  lemma ReadAllDecoded(env: Env)
    ensures var all := HostIoBoard.AllReadings(Frame(CT_ANALOG, DT_ANALOG_READ_ALL, ReadAllBody(true, env)));
      forall i :: 0 <= i < 6 ==> all[i] == env.adc(i)
  {
    var body := ReadAllBody(true, env);
    var f := Frame(CT_ANALOG, DT_ANALOG_READ_ALL, body);
    var all := HostIoBoard.AllReadings(f);
    forall i | 0 <= i < 6
      ensures all[i] == env.adc(i)
    {
      assert f[3 + 2 * i] == body[1 + 2 * i] == ReadAllByte(true, env, 2 * i);
      assert f[4 + 2 * i] == body[2 + 2 * i] == ReadAllByte(true, env, 2 * i + 1);
      HighLowJoin(env.adc(i));
      HighLowJoin(all[i]);
    }
  }

  /** A GPIO read of pin `p`: accepted exactly when its number is a GPIO the firmware serves, and then it decodes the driver's sample. */
  lemma GpioRead(s: State, p: Pin, envs: seq<Env>)
    requires Ready(s) && |envs| == 4
    ensures var r := Run(s, Frame(CT_GPIO, DT_GPIO_READ, [PinNumber(p)]), envs);
      var n := PinNumber(p);
      && |r.reply| == 5 && Ready(r.state)
      && (Accepted(r.reply, CT_GPIO, DT_GPIO_READ) <==> GpioPinOk(n))
      && (GpioPinOk(n) ==> HostGpioIn.DecodeBits(r.reply[3]) == envs[3].gpio && r.calls == [ReadGpio(Gpio.D(n))])
  {
    var n := PinNumber(p);
    var req := Frame(CT_GPIO, DT_GPIO_READ, [n]);
    assert req == [CT_GPIO, DT_GPIO_READ, n, req[3]];
    GpioReadFrame(s, n, req[3], envs);
    var body := if GpioPinOk(n) then [OK, GpioBits(envs[3].gpio)] else [NOK, 0];
    FrameAccepted(CT_GPIO, DT_GPIO_READ, body, CT_GPIO, DT_GPIO_READ);
    HostGpioIn.DecodePacked(envs[3].gpio);
    var f := Frame(CT_GPIO, DT_GPIO_READ, body);
    assert f[3] == f[2..|f| - 1][1];
  }

  /** Configuring an input: accepted exactly for a GPIO number, and the driver is told input, level 0, and the pull-up as asked. */
  lemma GpioInputConfig(s: State, p: Pin, pullUp: bool, envs: seq<Env>)
    requires Ready(s) && |envs| == 5
    ensures var r := Run(s, Frame(CT_GPIO, DT_GPIO_CONFIG, [PinNumber(p), HostGpioIn.InputOptions(pullUp)]), envs);
      var n := PinNumber(p);
      && |r.reply| == 4 && Ready(r.state)
      && (Accepted(r.reply, CT_GPIO, DT_GPIO_CONFIG) <==> GpioPinOk(n))
      && r.calls == if GpioPinOk(n) then [ConfigGpio(Gpio.D(n), false, 0, Bit(pullUp))] else []
  {
    var n, o := PinNumber(p), HostGpioIn.InputOptions(pullUp);
    var req := Frame(CT_GPIO, DT_GPIO_CONFIG, [n, o]);
    assert req == [CT_GPIO, DT_GPIO_CONFIG, n, o, req[4]];
    GpioConfigFrame(s, n, o, req[4], envs);
    HostGpioIn.InputOptionsRead(pullUp);
    FrameAccepted(CT_GPIO, DT_GPIO_CONFIG, [Status(GpioPinOk(n))], CT_GPIO, DT_GPIO_CONFIG);
  }

  /** Configuring an output: accepted exactly for a GPIO number, and the driver is told output at the level asked, without pull-up. */
  lemma GpioOutputConfig(s: State, p: Pin, value: bool, envs: seq<Env>)
    requires Ready(s) && |envs| == 5
    ensures var r := Run(s, Frame(CT_GPIO, DT_GPIO_CONFIG, [PinNumber(p), HostGpioOut.OutputOptions(value)]), envs);
      var n := PinNumber(p);
      && |r.reply| == 4 && Ready(r.state)
      && (Accepted(r.reply, CT_GPIO, DT_GPIO_CONFIG) <==> GpioPinOk(n))
      && r.calls == if GpioPinOk(n) then [ConfigGpio(Gpio.D(n), true, Bit(value), 0)] else []
  {
    var n, o := PinNumber(p), HostGpioOut.OutputOptions(value);
    var req := Frame(CT_GPIO, DT_GPIO_CONFIG, [n, o]);
    assert req == [CT_GPIO, DT_GPIO_CONFIG, n, o, req[4]];
    GpioConfigFrame(s, n, o, req[4], envs);
    HostGpioOut.OutputOptionsRead(value);
    FrameAccepted(CT_GPIO, DT_GPIO_CONFIG, [Status(GpioPinOk(n))], CT_GPIO, DT_GPIO_CONFIG);
  }

  /** Setting an output level: accepted exactly for a GPIO number, and the driver writes 1 or 0 as asked. */
  lemma GpioWrite(s: State, p: Pin, val: bool, envs: seq<Env>)
    requires Ready(s) && |envs| == 5
    ensures var r := Run(s, Frame(CT_GPIO, DT_GPIO_WRITE, [PinNumber(p), Bit(val)]), envs);
      var n := PinNumber(p);
      && |r.reply| == 4 && Ready(r.state)
      && (Accepted(r.reply, CT_GPIO, DT_GPIO_WRITE) <==> GpioPinOk(n))
      && r.calls == if GpioPinOk(n) then [WriteGpio(Gpio.D(n), Bit(val))] else []
  {
    var n := PinNumber(p);
    var req := Frame(CT_GPIO, DT_GPIO_WRITE, [n, Bit(val)]);
    assert req == [CT_GPIO, DT_GPIO_WRITE, n, Bit(val), req[4]];
    GpioWriteFrame(s, n, Bit(val), req[4], envs);
    FrameAccepted(CT_GPIO, DT_GPIO_WRITE, [Status(GpioPinOk(n))], CT_GPIO, DT_GPIO_WRITE);
  }

  /** An analog read: accepted exactly for a channel number 0..5, and it decodes that channel's ADC reading. */
  lemma AnalogRead(s: State, p: Pin, envs: seq<Env>)
    requires Ready(s) && |envs| == 4
    ensures var r := Run(s, Frame(CT_ANALOG, DT_ANALOG_READ, [PinNumber(p)]), envs);
      var n := PinNumber(p);
      && |r.reply| == 6 && Ready(r.state)
      && (Accepted(r.reply, CT_ANALOG, DT_ANALOG_READ) <==> n <= 5)
      && (n <= 5 ==> Reading(r.reply, 3) == envs[3].adc(n) && r.calls == [ReadAdc(Analog.A(n))])
  {
    var n := PinNumber(p);
    var req := Frame(CT_ANALOG, DT_ANALOG_READ, [n]);
    assert req == [CT_ANALOG, DT_ANALOG_READ, n, req[3]];
    AnalogReadFrame(s, n, req[3], envs);
    var v := envs[3].adc(n);
    var body := if n <= 5 then [OK, High(v), Low(v)] else [NOK, 0, 0];
    FrameAccepted(CT_ANALOG, DT_ANALOG_READ, body, CT_ANALOG, DT_ANALOG_READ);
    PairDecoded(CT_ANALOG, DT_ANALOG_READ, OK, v);
  }

  /** Reading all six inputs: always accepted, and reading `i` is channel `i`'s ADC value. */
  lemma AnalogReadAll(s: State, envs: seq<Env>)
    requires Ready(s) && |envs| == 3
    ensures var r := Run(s, Frame(CT_ANALOG, DT_ANALOG_READ_ALL, []), envs);
      && |r.reply| == 16 && Ready(r.state)
      && Accepted(r.reply, CT_ANALOG, DT_ANALOG_READ_ALL)
      && (forall i :: 0 <= i < 6 ==> HostIoBoard.AllReadings(r.reply)[i] == envs[2].adc(i))
  {
    var req := Frame(CT_ANALOG, DT_ANALOG_READ_ALL, []);
    assert req == [CT_ANALOG, DT_ANALOG_READ_ALL, req[2]];
    AnalogReadAllFrame(s, req[2], envs);
    FrameAccepted(CT_ANALOG, DT_ANALOG_READ_ALL, ReadAllBody(true, envs[2]), CT_ANALOG, DT_ANALOG_READ_ALL);
    ReadAllDecoded(envs[2]);
  }

  /** A reset is accepted, and the firmware then stops taking bytes until its watchdog resets it. */
  lemma MiscReset(s: State, envs: seq<Env>)
    requires Ready(s) && |envs| == 3
    ensures var r := Run(s, Frame(CT_MISC, DT_MISC_RESET, []), envs);
      && |r.reply| == 4 && Accepted(r.reply, CT_MISC, DT_MISC_RESET)
      && r.state.halted && r.calls == []
  {
    var req := Frame(CT_MISC, DT_MISC_RESET, []);
    assert req == [CT_MISC, DT_MISC_RESET, req[2]];
    MiscResetFrame(s, req[2], envs);
    FrameAccepted(CT_MISC, DT_MISC_RESET, [OK], CT_MISC, DT_MISC_RESET);
  }

  /** Asking for the id: accepted, and the caller's variable ends with the board id in its low two bytes. */
  lemma MiscId(s: State, envs: seq<Env>, id0: uint32)
    requires Ready(s) && |envs| == 3
    ensures var r := Run(s, Frame(CT_MISC, DT_MISC_ID, []), envs);
      && |r.reply| == 6 && Ready(r.state)
      && Accepted(r.reply, CT_MISC, DT_MISC_ID)
      && HostIoBoard.WithLowHalf(id0, Reading(r.reply, 3)) % 0x1_0000 == BOARD_ID
  {
    var req := Frame(CT_MISC, DT_MISC_ID, []);
    assert req == [CT_MISC, DT_MISC_ID, req[2]];
    MiscIdFrame(s, req[2], envs);
    FrameAccepted(CT_MISC, DT_MISC_ID, [OK, High(BOARD_ID), Low(BOARD_ID)], CT_MISC, DT_MISC_ID);
    PairDecoded(CT_MISC, DT_MISC_ID, OK, BOARD_ID);
  }

  /** Asking for the temperature: accepted, and it decodes the temperature channel's reading. */
  lemma MiscTemp(s: State, envs: seq<Env>)
    requires Ready(s) && |envs| == 3
    ensures var r := Run(s, Frame(CT_MISC, DT_MISC_TEMP, []), envs);
      && |r.reply| == 6 && Ready(r.state)
      && Accepted(r.reply, CT_MISC, DT_MISC_TEMP)
      && Reading(r.reply, 3) == envs[2].temperature
  {
    var req := Frame(CT_MISC, DT_MISC_TEMP, []);
    assert req == [CT_MISC, DT_MISC_TEMP, req[2]];
    MiscTempFrame(s, req[2], envs);
    var t := envs[2].temperature;
    FrameAccepted(CT_MISC, DT_MISC_TEMP, [OK, High(t), Low(t)], CT_MISC, DT_MISC_TEMP);
    PairDecoded(CT_MISC, DT_MISC_TEMP, OK, t);
  }

  /** Configuring the I2C bridge: always accepted, with fast mode exactly when 400 kHz was asked for. */
  lemma I2cConfig(s: State, rate: nat, envs: seq<Env>)
    requires Ready(s) && |envs| == 4
    ensures var r := Run(s, Frame(CT_I2C, DT_I2C_CONFIG, [HostI2c.BaudByte(rate)]), envs);
      && |r.reply| == 4 && Ready(r.state)
      && Accepted(r.reply, CT_I2C, DT_I2C_CONFIG)
      && r.calls == [ConfigI2c(rate == HostI2c.BAUD_400K)]
  {
    var b := HostI2c.BaudByte(rate);
    var req := Frame(CT_I2C, DT_I2C_CONFIG, [b]);
    assert req == [CT_I2C, DT_I2C_CONFIG, b, req[3]];
    I2cConfigFrame(s, b, req[3], envs);
    FrameAccepted(CT_I2C, DT_I2C_CONFIG, [OK], CT_I2C, DT_I2C_CONFIG);
  }

  /**
   * An I2C read of `len` bytes (below 252, where the firmware's 8-bit reply
   * size does not wrap): the reply has the length the host waits for, it is
   * accepted exactly when `len` is not 0 and the bus transfer succeeded,
   * and the data the host copies out are the bytes the firmware read.
   */
  lemma I2cRead(s: State, adr: byte, off: byte, len: byte, envs: seq<Env>)
    requires Ready(s) && |envs| == 6 && len < 252
    ensures var r := Run(s, Frame(CT_I2C, DT_I2C_READ, [adr, off, len]), envs);
      var e := envs[5];
      && |r.reply| == len + 4 && Ready(r.state)
      && (Accepted(r.reply, CT_I2C, DT_I2C_READ) <==> len != 0 && e.i2cReadOk)
      && HostI2c.ReplyData(r.reply, len) == seq(len, i requires 0 <= i < len => e.i2cData(i))
      && r.calls == [ParserSpec.I2cRead(adr, off, len)]
  {
    var req := Frame(CT_I2C, DT_I2C_READ, [adr, off, len]);
    assert req == [CT_I2C, DT_I2C_READ, adr, off, len, req[5]];
    I2cReadFrame(s, adr, off, len, req[5], envs);
    var e := envs[5];
    var body := I2cReadBody(Status(len != 0 && e.i2cReadOk), len, e);
    FrameAccepted(CT_I2C, DT_I2C_READ, body, CT_I2C, DT_I2C_READ);
    var f := Frame(CT_I2C, DT_I2C_READ, body);
    assert HostI2c.ReplyData(f, len) == body[1..];
  }

  /**
   * An I2C write of 1..8 bytes: accepted exactly when the bus transfer
   * succeeded, the driver gets the data the host passed, and nothing is
   * stored past the firmware's eight-byte buffer.
   */
  lemma I2cWrite(s: State, adr: byte, off: byte, data: seq<byte>, len: byte, envs: seq<Env>)
    requires Ready(s) && 1 <= len <= HostI2c.MAX_WRITE && len <= |data| && |envs| == len + 6
    ensures var r := Run(s, Frame(CT_I2C, DT_I2C_WRITE, [adr, off, len] + data[..len]), envs);
      && |r.reply| == 4 && Ready(r.state) && r.state.overrun == s.overrun
      && (Accepted(r.reply, CT_I2C, DT_I2C_WRITE) <==> envs[len + 5].i2cWriteOk)
      && r.calls == [ParserSpec.I2cWrite(adr, off, data[..len])]
  {
    var header := [CT_I2C, DT_I2C_WRITE, adr, off, len];
    var p := data[..len];
    var c := Checksum(header + p);
    assert Frame(CT_I2C, DT_I2C_WRITE, [adr, off, len] + p) == header + p + [c] by {
      assert [CT_I2C, DT_I2C_WRITE] + ([adr, off, len] + p) == header + p;
    }
    assert p[..len] == p;
    I2cWriteFrame(s, adr, off, len, p, c, envs);
    FrameAccepted(CT_I2C, DT_I2C_WRITE, [Status(envs[len + 5].i2cWriteOk)], CT_I2C, DT_I2C_WRITE);
  }

  /**
   * Starting a servo: accepted exactly for a number the firmware drives a
   * servo on, and the driver gets the width the host sent, in the host's
   * units for the firmware.
   */
  lemma ServoConfig(s: State, p: Pin, w: uint32, envs: seq<Env>)
    requires Ready(s) && |envs| == 6 && w < 0x1_0000
    ensures var r := Run(s, Frame(CT_SERVO, DT_SERVO_CONFIG, HostServo.WidthArgs(p, w)), envs);
      var n := PinNumber(p);
      && |r.reply| == 4 && Ready(r.state)
      && (Accepted(r.reply, CT_SERVO, DT_SERVO_CONFIG) <==> ServoPinOk(n))
      && r.calls == if ServoPinOk(n) then [ConfigServo(ServoPinOf(n), w)] else []
  {
    var a := HostServo.WidthArgs(p, w);
    var req := Frame(CT_SERVO, DT_SERVO_CONFIG, a);
    assert req == [CT_SERVO, DT_SERVO_CONFIG, a[0], a[1], a[2], req[5]];
    ServoConfigFrame(s, a[0], a[1], a[2], req[5], envs);
    HostServo.WidthRoundTrip(p, w);
    FrameAccepted(CT_SERVO, DT_SERVO_CONFIG, [Status(ServoPinOk(a[0]))], CT_SERVO, DT_SERVO_CONFIG);
  }

  /** Setting a servo's width: accepted exactly for a servo number, and the driver gets the width the host sent. */
  lemma ServoSet(s: State, p: Pin, w: uint32, envs: seq<Env>)
    requires Ready(s) && |envs| == 6 && w < 0x1_0000
    ensures var r := Run(s, Frame(CT_SERVO, DT_SERVO_SET, HostServo.WidthArgs(p, w)), envs);
      var n := PinNumber(p);
      && |r.reply| == 4 && Ready(r.state)
      && (Accepted(r.reply, CT_SERVO, DT_SERVO_SET) <==> ServoPinOk(n))
      && r.calls == if ServoPinOk(n) then [SetServoPwm(ServoPinOf(n), w)] else []
  {
    var a := HostServo.WidthArgs(p, w);
    var req := Frame(CT_SERVO, DT_SERVO_SET, a);
    assert req == [CT_SERVO, DT_SERVO_SET, a[0], a[1], a[2], req[5]];
    ServoSetFrame(s, a[0], a[1], a[2], req[5], envs);
    HostServo.WidthRoundTrip(p, w);
    FrameAccepted(CT_SERVO, DT_SERVO_SET, [Status(ServoPinOk(a[0]))], CT_SERVO, DT_SERVO_SET);
  }

  /**
   * Configuring a counter: accepted exactly for the numbers 2 and 3, and the
   * driver counts on the edge the host chose, whatever the firmware's
   * uninitialised option variable held.
   */
  lemma CounterConfig(s: State, p: Pin, o: HostCounter.CounterOption, envs: seq<Env>)
    requires Ready(s) && |envs| == 5
    ensures var r := Run(s, Frame(CT_COUNTER, DT_COUNTER_CONFIG, [PinNumber(p), HostCounter.OptionsByte(o)]), envs);
      var n := PinNumber(p);
      && |r.reply| == 4 && Ready(r.state)
      && (Accepted(r.reply, CT_COUNTER, DT_COUNTER_CONFIG) <==> n == 2 || n == 3)
      && r.calls == if n == 2 || n == 3 then [ConfigCounter(CntPinOf(n), HostCounter.FirmwareOption(o))] else []
  {
    var n, b := PinNumber(p), HostCounter.OptionsByte(o);
    var req := Frame(CT_COUNTER, DT_COUNTER_CONFIG, [n, b]);
    assert req == [CT_COUNTER, DT_COUNTER_CONFIG, n, b, req[4]];
    CounterConfigFrame(s, n, b, req[4], envs);
    HostCounter.OptionsRoundTrip(o, envs[4].garbageOption);
    FrameAccepted(CT_COUNTER, DT_COUNTER_CONFIG, [Status(n == 2 || n == 3)], CT_COUNTER, DT_COUNTER_CONFIG);
  }

  /** Reading a counter: accepted exactly for the numbers 2 and 3, and the host's value is the driver's count. */
  lemma CounterRead(s: State, p: Pin, envs: seq<Env>)
    requires Ready(s) && |envs| == 4
    ensures var r := Run(s, Frame(CT_COUNTER, DT_COUNTER_READ, [PinNumber(p)]), envs);
      var n := PinNumber(p);
      && |r.reply| == 5 && Ready(r.state)
      && (Accepted(r.reply, CT_COUNTER, DT_COUNTER_READ) <==> n == 2 || n == 3)
      && (n == 2 || n == 3 ==> r.reply[3] == envs[3].counter && r.calls == [ReadCounter(CntPinOf(n))])
  {
    var n := PinNumber(p);
    var req := Frame(CT_COUNTER, DT_COUNTER_READ, [n]);
    assert req == [CT_COUNTER, DT_COUNTER_READ, n, req[3]];
    CounterReadFrame(s, n, req[3], envs);
    var ok := n == 2 || n == 3;
    var body := if ok then [OK, envs[3].counter] else [NOK, 0];
    FrameAccepted(CT_COUNTER, DT_COUNTER_READ, body, CT_COUNTER, DT_COUNTER_READ);
    var f := Frame(CT_COUNTER, DT_COUNTER_READ, body);
    assert f[3] == f[2..|f| - 1][1];
  }
}
