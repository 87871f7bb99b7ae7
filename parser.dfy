/**
 * The firmware's command parser (firmware/src/parser.c) as the program
 * writes it: the state variables and function-static accumulators are
 * fields that `Parse` updates byte by byte, replies are assembled in
 * buffers and checksummed by loops, and every byte the parser hands to
 * `sendByteArray` is appended to `sent`. Each method is proved to do
 * exactly what `ParserSpec.Next` says, so every property proved about the
 * state machine holds for this code.
 */
module FirmwareParser {
  import opened Bytes
  import opened Tags
  import opened ParserSpec
  import Gpio
  import Analog
  import Counter

  /** The firmware's checksum: the `uint8_t` sum of the bytes, added one at a time. */
  method Sum8(bytes: seq<byte>) returns (cs: byte)
    ensures cs == Checksum(bytes)
  {
    cs := 0;
    var i := 0;
    while i < |bytes|
      invariant 0 <= i <= |bytes|
      invariant cs == Checksum(bytes[..i])
    {
      ChecksumStep(bytes[..i], bytes[i]);
      assert bytes[..i + 1] == bytes[..i] + [bytes[i]];
      cs := (cs as int + bytes[i]) % 0x100;
      i := i + 1;
    }
    assert bytes[..i] == bytes;
  }

  /** A reply buffer `[ct, dt] + body`, its last byte the checksum of the others. */
  method MakeReply(ct: byte, dt: byte, body: seq<byte>) returns (reply: seq<byte>)
    ensures reply == Frame(ct, dt, body)
  {
    var cs := Sum8([ct, dt] + body);
    reply := [ct, dt] + body + [cs];
  }

  class Parser {
    var top: Top
    var misc: MiscState
    /** The function-static variables of each sub-parser. */
    var gpio: GpioVars
    var analog: AnalogVars
    var i2c: I2cVars
    var servo: ServoVars
    var counter: CounterVars
    /** `data_arr` in cells 0..7, followed by the memory past its end that an 8-bit index reaches. */
    const dataArr: array<byte>
    /** The device spins in an endless loop and takes no more bytes. */
    var halted: bool
    /** A payload byte was stored past the end of `data_arr`. */
    var overrun: bool
    /** Every byte handed to `sendByteArray`, in order. */
    var sent: seq<byte>
    /** Every driver call made, in order. */
    var calls: seq<Call>

    ghost predicate Valid()
    {
      dataArr.Length == MEM_SIZE
    }

    /** The parser's variables as a state of the specification. */
    function Abs(): State
      reads this, dataArr
    {
      State(top, misc, gpio, analog, i2c, dataArr[..], servo, counter, halted, overrun)
    }

    /** Power-on: every static is zero and nothing has been sent. */
    constructor ()
      ensures Valid() && Abs() == Initial() && sent == [] && calls == []
    {
      top, misc := ClassTag, MiscDt;
      gpio, analog := GpioVars(GpioDt, 0, 0, 0), AnalogVars(AnalogDt, 0);
      i2c := I2cVars(I2cDt, 0, 0, 0, 0, 0);
      servo, counter := ServoVars(ServoDt, 0, 0, 0), CounterVars(CounterDt, 0, 0);
      dataArr := new byte[MEM_SIZE](_ => 0);
      halted, overrun := false, false;
      sent, calls := [], [];
    }

    /** `parse`: one received byte. */
    method Parse(b: byte, env: Env)
      requires Valid()
      modifies this, dataArr
      ensures Valid()
      ensures var r := Next(old(Abs()), b, env);
        Abs() == r.state && sent == old(sent) + r.reply && calls == old(calls) + r.calls
    {
      if halted {
        return;
      }
      match top
      case ClassTag =>
        if b == CT_MISC {
          top := InMisc;
        } else if b == CT_GPIO {
          top := InGpio;
        } else if b == CT_ANALOG {
          top := InAnalog;
        } else if b == CT_I2C {
          top := InI2c;
        } else if b == CT_SERVO {
          top := InServo;
        } else if b == CT_COUNTER {
          top := InCounter;
        }
      case InMisc => ParseMisc(b, env);
      case InGpio => ParseGpio(b, env);
      case InAnalog => ParseAnalog(b, env);
      case InI2c => ParseI2c(b, env);
      case InServo => ParseServo(b);
      case InCounter => ParseCounter(b, env);
    }

    /** `parse_misc`. */
    method ParseMisc(b: byte, env: Env)
      requires Valid() && !halted && top == InMisc
      modifies this
      ensures Valid()
      ensures var r := NextMisc(old(Abs()), b, env);
        Abs() == r.state && sent == old(sent) + r.reply && calls == old(calls) + r.calls
    {
      match misc
      case MiscDt =>
        if b == DT_MISC_RESET {
          misc := MiscReset;
        } else if b == DT_MISC_ID {
          misc := MiscId;
        } else if b == DT_MISC_TEMP {
          misc := MiscTemp;
        }
      case MiscReset =>
        AnswerMiscReset(b, env);
      case MiscId =>
        AnswerMiscId(b, env);
      case MiscTemp =>
        AnswerMiscTemp(b, env);
    }

    /** Sends the reply to the reset request; an accepted reset leaves the device spinning until the watchdog fires. */
    method AnswerMiscReset(b: byte, env: Env)
      requires Valid() && !halted && top == InMisc && misc == MiscReset
      modifies this
      ensures Valid()
      ensures var r := NextMisc(old(Abs()), b, env);
        Abs() == r.state && sent == old(sent) + r.reply && calls == old(calls) + r.calls
    {
      var reply, accepted := MiscResetReply(b, env);
      sent := sent + reply;
      misc, top := MiscDt, ClassTag;
      if accepted {
        halted := true;
      }
    }

    /** Sends the reply to the id request and returns to the class-tag state. */
    method AnswerMiscId(b: byte, env: Env)
      requires Valid() && !halted && top == InMisc && misc == MiscId
      modifies this
      ensures Valid()
      ensures var r := NextMisc(old(Abs()), b, env);
        Abs() == r.state && sent == old(sent) + r.reply && calls == old(calls) + r.calls
    {
      ghost var s := Abs();
      var reply, newCalls := MiscIdReply(b, env);
      sent, calls := sent + reply, calls + newCalls;
      misc, top := MiscDt, ClassTag;
      assert Abs() == s.(misc := MiscDt, top := ClassTag);
    }

    /** Sends the reply to the temperature request and returns to the class-tag state. */
    method AnswerMiscTemp(b: byte, env: Env)
      requires Valid() && !halted && top == InMisc && misc == MiscTemp
      modifies this
      ensures Valid()
      ensures var r := NextMisc(old(Abs()), b, env);
        Abs() == r.state && sent == old(sent) + r.reply && calls == old(calls) + r.calls
    {
      ghost var s := Abs();
      var reply, newCalls := MiscTempReply(b, env);
      sent, calls := sent + reply, calls + newCalls;
      misc, top := MiscDt, ClassTag;
      assert Abs() == s.(misc := MiscDt, top := ClassTag);
    }

    /** The checksum byte of the reset request: check it and build the reply. */
    method MiscResetReply(b: byte, env: Env) returns (reply: seq<byte>, accepted: bool)
      requires Valid() && misc == MiscReset
      ensures var r := NextMisc(Abs(), b, env);
        reply == r.reply && accepted == r.state.halted
    {
      var cs := Sum8([CT_MISC, DT_MISC_RESET]);
      accepted := cs == b;
      reply := MakeReply(CT_MISC, DT_MISC_RESET, [if accepted then OK else NOK]);
    }

    /** The checksum byte of the id request: check it, call the driver, build the reply. */
    method MiscIdReply(b: byte, env: Env) returns (reply: seq<byte>, newCalls: seq<Call>)
      requires Valid() && misc == MiscId
      ensures var r := NextMisc(Abs(), b, env); reply == r.reply && newCalls == r.calls
    {
      var cs := Sum8([CT_MISC, DT_MISC_ID]);
      var st, hi, lo := NOK, 0, 0;
      newCalls := [];
      if cs == b {
        newCalls := [GetId];
        st, hi, lo := OK, High(BOARD_ID), Low(BOARD_ID);
      }
      reply := MakeReply(CT_MISC, DT_MISC_ID, [st, hi, lo]);
    }

    /** The checksum byte of the temperature request: check it, call the driver, build the reply. */
    method MiscTempReply(b: byte, env: Env) returns (reply: seq<byte>, newCalls: seq<Call>)
      requires Valid() && misc == MiscTemp
      ensures var r := NextMisc(Abs(), b, env); reply == r.reply && newCalls == r.calls
    {
      var cs := Sum8([CT_MISC, DT_MISC_TEMP]);
      var st, hi, lo := NOK, 0, 0;
      newCalls := [];
      if cs == b {
        newCalls := [ReadTemperature];
        st, hi, lo := OK, High(env.temperature), Low(env.temperature);
      }
      reply := MakeReply(CT_MISC, DT_MISC_TEMP, [st, hi, lo]);
    }

    /** `parse_gpio`. */
    method ParseGpio(b: byte, env: Env)
      requires Valid() && !halted && top == InGpio
      modifies this
      ensures Valid()
      ensures var r := NextGpio(old(Abs()), b, env);
        Abs() == r.state && sent == old(sent) + r.reply && calls == old(calls) + r.calls
    {
      match gpio.st
      case GpioDt =>
        if b == DT_GPIO_CONFIG {
          gpio := gpio.(st := GpioConfig1);
        } else if b == DT_GPIO_READ {
          gpio := gpio.(st := GpioRead1);
        } else if b == DT_GPIO_WRITE {
          gpio := gpio.(st := GpioWrite1);
        }
      case GpioConfig1 =>
        gpio := gpio.(pin := b, st := GpioConfig2);
      case GpioConfig2 =>
        gpio := gpio.(options := b, st := GpioConfig3);
      case GpioConfig3 =>
        AnswerGpioConfig(b, env);
      case GpioRead1 =>
        gpio := gpio.(pin := b, st := GpioRead2);
      case GpioRead2 =>
        AnswerGpioRead(b, env);
      case GpioWrite1 =>
        gpio := gpio.(pin := b, st := GpioWrite2);
      case GpioWrite2 =>
        gpio := gpio.(value := b, st := GpioWrite3);
      case GpioWrite3 =>
        AnswerGpioWrite(b, env);
    }

    /** Sends the reply to a GPIO config and returns to the class-tag state. */
    method AnswerGpioConfig(b: byte, env: Env)
      requires Valid() && !halted && top == InGpio && gpio.st == GpioConfig3
      modifies this
      ensures Valid()
      ensures var r := NextGpio(old(Abs()), b, env);
        Abs() == r.state && sent == old(sent) + r.reply && calls == old(calls) + r.calls
    {
      ghost var s := Abs();
      var reply, newCalls := GpioConfigReply(b, env);
      sent, calls := sent + reply, calls + newCalls;
      gpio, top := gpio.(st := GpioDt), ClassTag;
      assert Abs() == s.(gpio := s.gpio.(st := GpioDt), top := ClassTag);
    }

    /** The checksum byte of a GPIO config: check it, call the driver, build the reply. */
    method GpioConfigReply(b: byte, env: Env) returns (reply: seq<byte>, newCalls: seq<Call>)
      requires Valid() && gpio.st == GpioConfig3
      ensures var r := NextGpio(Abs(), b, env); reply == r.reply && newCalls == r.calls
    {
      var cs := Sum8([CT_GPIO, DT_GPIO_CONFIG, gpio.pin, gpio.options]);
      var st := NOK;
      newCalls := [];
      if cs == b && 2 <= gpio.pin <= 13 {
        var output := gpio.options % 2 == 1;
        var value := (gpio.options / 2) % 2;
        var pullUp := (gpio.options / 4) % 2;
        newCalls := [ConfigGpio(Gpio.ConvertNumberToGpio(gpio.pin), output, value, pullUp)];
        st := OK;
      }
      reply := MakeReply(CT_GPIO, DT_GPIO_CONFIG, [st]);
    }

    /** Sends the reply to a GPIO read and returns to the class-tag state. */
    method AnswerGpioRead(b: byte, env: Env)
      requires Valid() && !halted && top == InGpio && gpio.st == GpioRead2
      modifies this
      ensures Valid()
      ensures var r := NextGpio(old(Abs()), b, env);
        Abs() == r.state && sent == old(sent) + r.reply && calls == old(calls) + r.calls
    {
      ghost var s := Abs();
      var reply, newCalls := GpioReadReply(b, env);
      sent, calls := sent + reply, calls + newCalls;
      gpio, top := gpio.(st := GpioDt), ClassTag;
      assert Abs() == s.(gpio := s.gpio.(st := GpioDt), top := ClassTag);
    }

    /** The checksum byte of a GPIO read: check it, call the driver, build the reply. */
    method GpioReadReply(b: byte, env: Env) returns (reply: seq<byte>, newCalls: seq<Call>)
      requires Valid() && gpio.st == GpioRead2
      ensures var r := NextGpio(Abs(), b, env); reply == r.reply && newCalls == r.calls
    {
      var cs := Sum8([CT_GPIO, DT_GPIO_READ, gpio.pin]);
      var st, bits := NOK, 0;
      newCalls := [];
      if cs == b && 2 <= gpio.pin <= 13 {
        newCalls := [ReadGpio(Gpio.ConvertNumberToGpio(gpio.pin))];
        st, bits := OK, GpioBits(env.gpio);
      }
      reply := MakeReply(CT_GPIO, DT_GPIO_READ, [st, bits]);
    }

    /** Sends the reply to a GPIO write and returns to the class-tag state. */
    method AnswerGpioWrite(b: byte, env: Env)
      requires Valid() && !halted && top == InGpio && gpio.st == GpioWrite3
      modifies this
      ensures Valid()
      ensures var r := NextGpio(old(Abs()), b, env);
        Abs() == r.state && sent == old(sent) + r.reply && calls == old(calls) + r.calls
    {
      ghost var s := Abs();
      var reply, newCalls := GpioWriteReply(b, env);
      sent, calls := sent + reply, calls + newCalls;
      gpio, top := gpio.(st := GpioDt), ClassTag;
      assert Abs() == s.(gpio := s.gpio.(st := GpioDt), top := ClassTag);
    }

    /** The checksum byte of a GPIO write: check it, call the driver, build the reply. */
    method GpioWriteReply(b: byte, env: Env) returns (reply: seq<byte>, newCalls: seq<Call>)
      requires Valid() && gpio.st == GpioWrite3
      ensures var r := NextGpio(Abs(), b, env); reply == r.reply && newCalls == r.calls
    {
      var cs := Sum8([CT_GPIO, DT_GPIO_WRITE, gpio.pin, gpio.value]);
      var st := NOK;
      newCalls := [];
      if cs == b && 2 <= gpio.pin <= 13 {
        newCalls := [WriteGpio(Gpio.ConvertNumberToGpio(gpio.pin), gpio.value)];
        st := OK;
      }
      reply := MakeReply(CT_GPIO, DT_GPIO_WRITE, [st]);
    }

    /** `parse_analog`. */
    method ParseAnalog(b: byte, env: Env)
      requires Valid() && !halted && top == InAnalog
      modifies this
      ensures Valid()
      ensures var r := NextAnalog(old(Abs()), b, env);
        Abs() == r.state && sent == old(sent) + r.reply && calls == old(calls) + r.calls
    {
      match analog.st
      case AnalogDt =>
        if b == DT_ANALOG_READ {
          analog := analog.(st := AnalogRead1);
        } else if b == DT_ANALOG_READ_ALL {
          analog := analog.(st := AnalogReadAll1);
        }
      case AnalogRead1 =>
        analog := analog.(pin := b, st := AnalogRead2);
      case AnalogRead2 =>
        AnswerAnalogRead(b, env);
      case AnalogReadAll1 =>
        AnswerAnalogReadAll(b, env);
    }

    /** Sends the reply to an analog read and returns to the class-tag state. */
    method AnswerAnalogRead(b: byte, env: Env)
      requires Valid() && !halted && top == InAnalog && analog.st == AnalogRead2
      modifies this
      ensures Valid()
      ensures var r := NextAnalog(old(Abs()), b, env);
        Abs() == r.state && sent == old(sent) + r.reply && calls == old(calls) + r.calls
    {
      ghost var s := Abs();
      var reply, newCalls := AnalogReadReply(b, env);
      sent, calls := sent + reply, calls + newCalls;
      analog, top := analog.(st := AnalogDt), ClassTag;
      assert Abs() == s.(analog := s.analog.(st := AnalogDt), top := ClassTag);
    }

    /** The checksum byte of an analog read: check it, call the driver, build the reply. */
    method AnalogReadReply(b: byte, env: Env) returns (reply: seq<byte>, newCalls: seq<Call>)
      requires Valid() && analog.st == AnalogRead2
      ensures var r := NextAnalog(Abs(), b, env); reply == r.reply && newCalls == r.calls
    {
      var cs := Sum8([CT_ANALOG, DT_ANALOG_READ, analog.pin]);
      var st, hi, lo := NOK, 0, 0;
      newCalls := [];
      if cs == b && analog.pin <= 5 {
        var v := env.adc(analog.pin);
        newCalls := [ReadAdc(Analog.ConvertNumberToAnalog(analog.pin))];
        st, hi, lo := OK, High(v), Low(v);
      }
      reply := MakeReply(CT_ANALOG, DT_ANALOG_READ, [st, hi, lo]);
    }

    /** Sends the reply to an analog read-all and returns to the class-tag state. */
    method AnswerAnalogReadAll(b: byte, env: Env)
      requires Valid() && !halted && top == InAnalog && analog.st == AnalogReadAll1
      modifies this
      ensures Valid()
      ensures var r := NextAnalog(old(Abs()), b, env);
        Abs() == r.state && sent == old(sent) + r.reply && calls == old(calls) + r.calls
    {
      ghost var s := Abs();
      var reply, newCalls := AnalogReadAllReply(b, env);
      sent, calls := sent + reply, calls + newCalls;
      analog, top := analog.(st := AnalogDt), ClassTag;
      assert Abs() == s.(analog := s.analog.(st := AnalogDt), top := ClassTag);
    }

    /** The checksum byte of an analog read-all: check it, call the driver, build the reply. */
    method AnalogReadAllReply(b: byte, env: Env) returns (reply: seq<byte>, newCalls: seq<Call>)
      requires Valid() && analog.st == AnalogReadAll1
      ensures var r := NextAnalog(Abs(), b, env); reply == r.reply && newCalls == r.calls
    {
      var cs := Sum8([CT_ANALOG, DT_ANALOG_READ_ALL]);
      var buf;
      buf, newCalls := ReadAllReply(cs == b, env);
      reply := buf[..];
    }

    /**
     * The read-all reply buffer of `parse_analog`: the status byte, six
     * conversions when accepted, then the checksum loop.
     */
    static method ReadAllReply(ok: bool, env: Env) returns (reply: array<byte>, newCalls: seq<Call>)
      ensures fresh(reply)
      ensures reply[..] == Frame(CT_ANALOG, DT_ANALOG_READ_ALL, ReadAllBody(ok, env))
      ensures newCalls == if ok then seq(6, i requires 0 <= i < 6 => ReadAdc(Analog.A(i))) else []
    {
      reply := new byte[16](_ => 0);
      reply[0], reply[1] := CT_ANALOG, DT_ANALOG_READ_ALL;
      newCalls := [];
      if ok {
        reply[2] := OK;
        newCalls := ReadAllChannels(reply, env);
      } else {
        reply[2] := NOK;
      }
      assert reply[..15] == [CT_ANALOG, DT_ANALOG_READ_ALL] + ReadAllBody(ok, env);
      SealFrame(reply, 15);
      assert reply[..] == reply[..15] + [reply[15]];
    }

    /** Converts A0..A5 in turn, storing each reading high byte first from `reply[3]` on. */
    static method ReadAllChannels(reply: array<byte>, env: Env) returns (newCalls: seq<Call>)
      requires reply.Length == 16
      modifies reply
      ensures reply[..3] == old(reply[..3]) && reply[15] == old(reply[15])
      ensures forall k :: 3 <= k < 15 ==> reply[k] == ReadAllByte(true, env, k - 3)
      ensures newCalls == seq(6, i requires 0 <= i < 6 => ReadAdc(Analog.A(i)))
    {
      newCalls := [];
      var i := 0;
      while i < 12
        invariant 0 <= i <= 12 && i % 2 == 0
        invariant reply[..3] == old(reply[..3]) && reply[15] == old(reply[15])
        invariant forall k :: 3 <= k < 3 + i ==> reply[k] == ReadAllByte(true, env, k - 3)
        invariant newCalls == seq(i / 2, j requires 0 <= j < i / 2 => ReadAdc(Analog.A(j)))
      {
        var v := env.adc(i / 2);
        newCalls := newCalls + [ReadAdc(Analog.ConvertNumberToAnalog(i / 2))];
        reply[i + 3] := High(v);
        reply[i + 4] := Low(v);
        i := i + 2;
      }
    }

    /** `parse_i2c`. */
    method ParseI2c(b: byte, env: Env)
      requires Valid() && !halted && top == InI2c
      modifies this, dataArr
      ensures Valid()
      ensures var r := NextI2c(old(Abs()), b, env);
        Abs() == r.state && sent == old(sent) + r.reply && calls == old(calls) + r.calls
    {
      match i2c.st
      case I2cDt =>
        if b == DT_I2C_CONFIG {
          i2c := i2c.(st := I2cConfig1);
        } else if b == DT_I2C_READ {
          i2c := i2c.(st := I2cRead1);
        } else if b == DT_I2C_WRITE {
          i2c := i2c.(st := I2cWrite1);
        }
      case I2cConfig1 =>
        i2c := i2c.(options := b, st := I2cConfig2);
      case I2cConfig2 =>
        AnswerI2cConfig(b, env);
      case I2cRead1 =>
        i2c := i2c.(adr := b, st := I2cRead2);
      case I2cRead2 =>
        i2c := i2c.(offset := b, st := I2cRead3);
      case I2cRead3 =>
        i2c := i2c.(length := b, st := I2cRead4);
      case I2cRead4 =>
        AnswerI2cRead(b, env);
      case I2cWrite1 =>
        i2c := i2c.(adr := b, st := I2cWrite2);
      case I2cWrite2 =>
        i2c := i2c.(offset := b, st := I2cWrite3);
      case I2cWrite3 =>
        i2c := i2c.(length := b, cnt := 0, st := I2cWrite4);
      case I2cWrite4 =>
        StorePayload(b, env);
      case I2cWrite5 =>
        AnswerI2cWrite(b, env);
    }

    /**
     * A payload byte of an I2C write goes to `data_arr[data_cnt]`, past
     * the end of the array once the 8-bit count reaches 8.
     */
    method StorePayload(b: byte, env: Env)
      requires Valid() && !halted && top == InI2c && i2c.st == I2cWrite4
      modifies this, dataArr
      ensures Valid()
      ensures var r := NextI2c(old(Abs()), b, env);
        Abs() == r.state && sent == old(sent) && calls == old(calls)
    {
      ghost var s := Abs();
      dataArr[i2c.cnt] := b;
      assert dataArr[..] == s.mem[s.i2c.cnt := b];
      overrun := overrun || i2c.cnt >= DATA_ARR_SIZE;
      i2c := i2c.(cnt := (i2c.cnt as int + 1) % 0x100);
      if i2c.cnt == i2c.length {
        i2c := i2c.(st := I2cWrite5);
      }
      assert Abs() == s.(mem := s.mem[s.i2c.cnt := b], overrun := overrun, i2c := i2c);
    }

    /** Sends the reply to an I2C config and returns to the class-tag state. */
    method AnswerI2cConfig(b: byte, env: Env)
      requires Valid() && !halted && top == InI2c && i2c.st == I2cConfig2
      modifies this
      ensures Valid()
      ensures var r := NextI2c(old(Abs()), b, env);
        Abs() == r.state && sent == old(sent) + r.reply && calls == old(calls) + r.calls
    {
      ghost var s := Abs();
      var reply, newCalls := I2cConfigReply(b, env);
      sent, calls := sent + reply, calls + newCalls;
      i2c, top := i2c.(st := I2cDt), ClassTag;
      assert Abs() == s.(i2c := s.i2c.(st := I2cDt), top := ClassTag);
    }

    /** The checksum byte of an I2C config: check it, call the driver, build the reply. */
    method I2cConfigReply(b: byte, env: Env) returns (reply: seq<byte>, newCalls: seq<Call>)
      requires Valid() && i2c.st == I2cConfig2
      ensures var r := NextI2c(Abs(), b, env); reply == r.reply && newCalls == r.calls
    {
      var cs := Sum8([CT_I2C, DT_I2C_CONFIG, i2c.options]);
      var st := NOK;
      newCalls := [];
      if cs == b && (i2c.options == 0 || i2c.options == 1) {
        st := OK;
        newCalls := [ConfigI2c(i2c.options == 1)];
      }
      reply := MakeReply(CT_I2C, DT_I2C_CONFIG, [st]);
    }

    /** Sends the reply to an I2C read and returns to the class-tag state, or spins for good. */
    method AnswerI2cRead(b: byte, env: Env)
      requires Valid() && !halted && top == InI2c && i2c.st == I2cRead4
      modifies this
      ensures Valid()
      ensures var r := NextI2c(old(Abs()), b, env);
        Abs() == r.state && sent == old(sent) + r.reply && calls == old(calls) + r.calls
    {
      var reply, newCalls := I2cReadReply(b, env);
      sent, calls := sent + reply, calls + newCalls;
      if i2c.length >= 253 {
        halted := true;
      } else {
        i2c, top := i2c.(st := I2cDt), ClassTag;
      }
    }

    /**
     * The checksum byte of an I2C read: `i2c_read` fills the reply buffer
     * behind the status byte, or the buffer keeps what the stack held. The
     * checksum loop's 8-bit index never reaches `length + 3` when that is
     * 256 or more, so nothing is sent; and `sendByteArray` takes an 8-bit size.
     */
    method I2cReadReply(b: byte, env: Env) returns (reply: seq<byte>, newCalls: seq<Call>)
      requires Valid() && i2c.st == I2cRead4
      ensures var r := NextI2c(Abs(), b, env); reply == r.reply && newCalls == r.calls
    {
      var cs := Sum8([CT_I2C, DT_I2C_READ, i2c.adr, i2c.offset, i2c.length]);
      var len := i2c.length;
      var status := NOK;
      newCalls := [];
      if cs == b {
        newCalls := [I2cRead(i2c.adr, i2c.offset, len)];
        // `i2c_read` fails for length 0 before touching the bus
        status := if len != 0 && env.i2cReadOk then OK else NOK;
      }
      if len >= 253 {
        reply := [];
        return;
      }
      var buf := I2cReadBuffer(status, len, env);
      reply := buf[..(len as int + 4) % 0x100];
    }

    /** The I2C read reply buffer, its checksum summed by a loop over the first `length + 3` bytes. */
    static method I2cReadBuffer(status: byte, len: byte, env: Env) returns (reply: array<byte>)
      requires len < 253
      ensures fresh(reply) && reply.Length == 259
      ensures reply[..len as int + 4] == Frame(CT_I2C, DT_I2C_READ, I2cReadBody(status, len, env))
    {
      reply := new byte[255 + 4](i => if 3 <= i < 3 + len as int then env.i2cData(i - 3) else 0);
      reply[0], reply[1], reply[2] := CT_I2C, DT_I2C_READ, status;
      assert reply[..len + 3] == [CT_I2C, DT_I2C_READ] + I2cReadBody(status, len, env);
      SealFrame(reply, len as int + 3);
      assert reply[..len as int + 4] == reply[..len + 3] + [reply[len + 3]];
    }

    /** Sends the reply to an I2C write and returns to the class-tag state. */
    method AnswerI2cWrite(b: byte, env: Env)
      requires Valid() && !halted && top == InI2c && i2c.st == I2cWrite5
      modifies this
      ensures Valid()
      ensures var r := NextI2c(old(Abs()), b, env);
        Abs() == r.state && sent == old(sent) + r.reply && calls == old(calls) + r.calls
    {
      ghost var s := Abs();
      var reply, newCalls := I2cWriteReply(b, env);
      sent, calls := sent + reply, calls + newCalls;
      i2c, top := i2c.(st := I2cDt), ClassTag;
      assert Abs() == s.(i2c := s.i2c.(st := I2cDt), top := ClassTag);
    }

    /** The checksum byte of an I2C write: the header sum plus `length` cells of `data_arr`. */
    method I2cWriteReply(b: byte, env: Env) returns (reply: seq<byte>, newCalls: seq<Call>)
      requires Valid() && i2c.st == I2cWrite5
      ensures var r := NextI2c(Abs(), b, env); reply == r.reply && newCalls == r.calls
    {
      var header := Sum8([CT_I2C, DT_I2C_WRITE, i2c.adr, i2c.offset, i2c.length]);
      var cs := SumData(header);
      var st := NOK;
      newCalls := [];
      if cs == b {
        newCalls := [I2cWrite(i2c.adr, i2c.offset, dataArr[..i2c.length])];
        // `i2c_write` fails for length 0 before touching the bus
        st := if i2c.length != 0 && env.i2cWriteOk then OK else NOK;
      }
      reply := MakeReply(CT_I2C, DT_I2C_WRITE, [st]);
    }

    /** Adds the first `length` cells of `data_arr` to the header's checksum. */
    method SumData(header: byte) returns (cs: byte)
      requires Valid() && header == Checksum([CT_I2C, DT_I2C_WRITE, i2c.adr, i2c.offset, i2c.length])
      ensures cs == WriteChecksum(Abs())
    {
      ghost var h := [CT_I2C, DT_I2C_WRITE, i2c.adr, i2c.offset, i2c.length];
      assert h + dataArr[..0] == h;
      cs := header;
      var i := 0;
      while i < i2c.length
        invariant 0 <= i <= i2c.length
        invariant cs == Checksum(h + dataArr[..i])
      {
        ChecksumStep(h + dataArr[..i], dataArr[i]);
        assert h + dataArr[..i + 1] == h + dataArr[..i] + [dataArr[i]];
        cs := (cs as int + dataArr[i]) % 0x100;
        i := i + 1;
      }
    }

    /** `parse_servo`. */
    method ParseServo(b: byte)
      requires Valid() && !halted && top == InServo
      modifies this
      ensures Valid()
      ensures var r := NextServo(old(Abs()), b);
        Abs() == r.state && sent == old(sent) + r.reply && calls == old(calls) + r.calls
    {
      match servo.st
      case ServoDt =>
        if b == DT_SERVO_CONFIG {
          servo := servo.(st := ServoConfig1);
        } else if b == DT_SERVO_SET {
          servo := servo.(st := ServoSet1);
        }
      case ServoConfig1 =>
        servo := servo.(pin := b, st := ServoConfig2);
      case ServoConfig2 =>
        servo := servo.(low := b, st := ServoConfig3);
      case ServoConfig3 =>
        servo := servo.(high := b, st := ServoConfig4);
      case ServoConfig4 =>
        AnswerServoConfig(b);
      case ServoSet1 =>
        servo := servo.(pin := b, st := ServoSet2);
      case ServoSet2 =>
        servo := servo.(low := b, st := ServoSet3);
      case ServoSet3 =>
        servo := servo.(high := b, st := ServoSet4);
      case ServoSet4 =>
        AnswerServoSet(b);
    }

    /** Sends the reply to a servo config and returns to the class-tag state. */
    method AnswerServoConfig(b: byte)
      requires Valid() && !halted && top == InServo && servo.st == ServoConfig4
      modifies this
      ensures Valid()
      ensures var r := NextServo(old(Abs()), b);
        Abs() == r.state && sent == old(sent) + r.reply && calls == old(calls) + r.calls
    {
      ghost var s := Abs();
      var reply, newCalls := ServoConfigReply(b);
      sent, calls := sent + reply, calls + newCalls;
      servo, top := servo.(st := ServoDt), ClassTag;
      assert Abs() == s.(servo := s.servo.(st := ServoDt), top := ClassTag);
    }

    /** The checksum byte of a servo config: check it, call the driver, build the reply. */
    method ServoConfigReply(b: byte) returns (reply: seq<byte>, newCalls: seq<Call>)
      requires Valid() && servo.st == ServoConfig4
      ensures var r := NextServo(Abs(), b); reply == r.reply && newCalls == r.calls
    {
      var cs := Sum8([CT_SERVO, DT_SERVO_CONFIG, servo.pin, servo.low, servo.high]);
      var st := NOK;
      newCalls := [];
      if cs == b && ServoPinOk(servo.pin) {
        var pwm: uint16 := servo.high * 0x100 + servo.low;
        st := OK;
        newCalls := [ConfigServo(ServoPinOf(servo.pin), pwm)];
      }
      reply := MakeReply(CT_SERVO, DT_SERVO_CONFIG, [st]);
    }

    /** Sends the reply to a servo set and returns to the class-tag state. */
    method AnswerServoSet(b: byte)
      requires Valid() && !halted && top == InServo && servo.st == ServoSet4
      modifies this
      ensures Valid()
      ensures var r := NextServo(old(Abs()), b);
        Abs() == r.state && sent == old(sent) + r.reply && calls == old(calls) + r.calls
    {
      ghost var s := Abs();
      var reply, newCalls := ServoSetReply(b);
      sent, calls := sent + reply, calls + newCalls;
      servo, top := servo.(st := ServoDt), ClassTag;
      assert Abs() == s.(servo := s.servo.(st := ServoDt), top := ClassTag);
    }

    /** The checksum byte of a servo set: check it, call the driver, build the reply. */
    method ServoSetReply(b: byte) returns (reply: seq<byte>, newCalls: seq<Call>)
      requires Valid() && servo.st == ServoSet4
      ensures var r := NextServo(Abs(), b); reply == r.reply && newCalls == r.calls
    {
      var cs := Sum8([CT_SERVO, DT_SERVO_SET, servo.pin, servo.low, servo.high]);
      var st := NOK;
      newCalls := [];
      if cs == b && ServoPinOk(servo.pin) {
        var pwm: uint16 := servo.high * 0x100 + servo.low;
        st := OK;
        newCalls := [SetServoPwm(ServoPinOf(servo.pin), pwm)];
      }
      reply := MakeReply(CT_SERVO, DT_SERVO_SET, [st]);
    }

    /** `parse_counter`. */
    method ParseCounter(b: byte, env: Env)
      requires Valid() && !halted && top == InCounter
      modifies this
      ensures Valid()
      ensures var r := NextCounter(old(Abs()), b, env);
        Abs() == r.state && sent == old(sent) + r.reply && calls == old(calls) + r.calls
    {
      match counter.st
      case CounterDt =>
        if b == DT_COUNTER_CONFIG {
          counter := counter.(st := CounterConfig1);
        } else if b == DT_COUNTER_READ {
          counter := counter.(st := CounterRead1);
        }
      case CounterConfig1 =>
        counter := counter.(pin := b, st := CounterConfig2);
      case CounterConfig2 =>
        counter := counter.(options := b, st := CounterConfig3);
      case CounterConfig3 =>
        AnswerCounterConfig(b, env);
      case CounterRead1 =>
        counter := counter.(pin := b, st := CounterRead2);
      case CounterRead2 =>
        AnswerCounterRead(b, env);
    }

    /** Sends the reply to a counter config and returns to the class-tag state. */
    method AnswerCounterConfig(b: byte, env: Env)
      requires Valid() && !halted && top == InCounter && counter.st == CounterConfig3
      modifies this
      ensures Valid()
      ensures var r := NextCounter(old(Abs()), b, env);
        Abs() == r.state && sent == old(sent) + r.reply && calls == old(calls) + r.calls
    {
      ghost var s := Abs();
      var reply, newCalls := CounterConfigReply(b, env);
      sent, calls := sent + reply, calls + newCalls;
      counter, top := counter.(st := CounterDt), ClassTag;
      assert Abs() == s.(counter := s.counter.(st := CounterDt), top := ClassTag);
    }

    /** The checksum byte of a counter config: check it, call the driver, build the reply. */
    method CounterConfigReply(b: byte, env: Env) returns (reply: seq<byte>, newCalls: seq<Call>)
      requires Valid() && counter.st == CounterConfig3
      ensures var r := NextCounter(Abs(), b, env); reply == r.reply && newCalls == r.calls
    {
      var cs := Sum8([CT_COUNTER, DT_COUNTER_CONFIG, counter.pin, counter.options]);
      var st := NOK;
      newCalls := [];
      if cs == b && (counter.pin == 2 || counter.pin == 3) {
        st := OK;
        // `opt` is left unassigned when no option bit is set
        var opt := env.garbageOption;
        if counter.options % 2 == 1 {
          opt := Counter.RISE;
        } else if (counter.options / 2) % 2 == 1 {
          opt := Counter.FALL;
        } else if (counter.options / 4) % 2 == 1 {
          opt := Counter.BOTH;
        }
        var pin := if counter.pin == 2 then Counter.CntD2 else Counter.CntD3;
        newCalls := [ConfigCounter(pin, opt)];
      }
      reply := MakeReply(CT_COUNTER, DT_COUNTER_CONFIG, [st]);
    }

    /** Sends the reply to a counter read and returns to the class-tag state. */
    method AnswerCounterRead(b: byte, env: Env)
      requires Valid() && !halted && top == InCounter && counter.st == CounterRead2
      modifies this
      ensures Valid()
      ensures var r := NextCounter(old(Abs()), b, env);
        Abs() == r.state && sent == old(sent) + r.reply && calls == old(calls) + r.calls
    {
      ghost var s := Abs();
      var reply, newCalls := CounterReadReply(b, env);
      sent, calls := sent + reply, calls + newCalls;
      counter, top := counter.(st := CounterDt), ClassTag;
      assert Abs() == s.(counter := s.counter.(st := CounterDt), top := ClassTag);
    }

    /** The checksum byte of a counter read: check it, call the driver, build the reply. */
    method CounterReadReply(b: byte, env: Env) returns (reply: seq<byte>, newCalls: seq<Call>)
      requires Valid() && counter.st == CounterRead2
      ensures var r := NextCounter(Abs(), b, env); reply == r.reply && newCalls == r.calls
    {
      var cs := Sum8([CT_COUNTER, DT_COUNTER_READ, counter.pin]);
      var st, value := NOK, 0;
      newCalls := [];
      if cs == b && (counter.pin == 2 || counter.pin == 3) {
        var pin := if counter.pin == 2 then Counter.CntD2 else Counter.CntD3;
        newCalls := [ReadCounter(pin)];
        st, value := OK, env.counter;
      }
      reply := MakeReply(CT_COUNTER, DT_COUNTER_READ, [st, value]);
    }
  }
}
