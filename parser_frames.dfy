/**
 * What each request frame does to an idle firmware parser: the reply it
 * gets, the driver calls it causes, and that the parser is idle again
 * afterwards. A request is accepted exactly when its checksum byte is right
 * and its arguments are in the range the firmware serves.
 */
module ParserFrames {
  import opened Bytes
  import opened Tags
  import opened ParserSpec
  import opened ParserProps
  import Gpio
  import Analog

  /** Idle and able to take a frame. */
  predicate Ready(s: State)
  {
    ValidState(s) && Idle(s) && !s.halted
  }

  // --------------------------------------------------------------------- misc

  /** Reset `[1, 1, c]`: an accepted reset is answered, then the device spins until the watchdog fires. */
  lemma MiscResetFrame(s: State, c: byte, envs: seq<Env>)
    requires Ready(s) && |envs| == 3
    ensures var r := Run(s, [CT_MISC, DT_MISC_RESET, c], envs);
      var ok := ChecksumOk([CT_MISC, DT_MISC_RESET, c]);
      && r.reply == Frame(CT_MISC, DT_MISC_RESET, [Status(ok)])
      && r.calls == [] && Idle(r.state) && r.state.halted == ok
  {
    var s1 := s.(top := InMisc);
    var s2 := s1.(misc := MiscReset);
    assert Next(s, CT_MISC, envs[0]) == Step(s1, [], []);
    assert Next(s1, DT_MISC_RESET, envs[1]) == Step(s2, [], []);
    Run3(s, CT_MISC, DT_MISC_RESET, c, envs, s1, s2);
    assert [CT_MISC, DT_MISC_RESET] + [c] == [CT_MISC, DT_MISC_RESET, c];
    ChecksumOkLast([CT_MISC, DT_MISC_RESET], c);
  }

  /** Board id `[1, 2, c]`: the id goes out high byte first. */
  lemma MiscIdFrame(s: State, c: byte, envs: seq<Env>)
    requires Ready(s) && |envs| == 3
    ensures var r := Run(s, [CT_MISC, DT_MISC_ID, c], envs);
      var ok := ChecksumOk([CT_MISC, DT_MISC_ID, c]);
      && r.reply == Frame(CT_MISC, DT_MISC_ID, if ok then [OK, High(BOARD_ID), Low(BOARD_ID)] else [NOK, 0, 0])
      && r.calls == (if ok then [GetId] else [])
      && Ready(r.state)
  {
    var s1 := s.(top := InMisc);
    var s2 := s1.(misc := MiscId);
    assert Next(s, CT_MISC, envs[0]) == Step(s1, [], []);
    assert Next(s1, DT_MISC_ID, envs[1]) == Step(s2, [], []);
    Run3(s, CT_MISC, DT_MISC_ID, c, envs, s1, s2);
    assert [CT_MISC, DT_MISC_ID] + [c] == [CT_MISC, DT_MISC_ID, c];
    ChecksumOkLast([CT_MISC, DT_MISC_ID], c);
  }

  /** Temperature `[1, 3, c]`: the reading goes out high byte first. */
  lemma MiscTempFrame(s: State, c: byte, envs: seq<Env>)
    requires Ready(s) && |envs| == 3
    ensures var r := Run(s, [CT_MISC, DT_MISC_TEMP, c], envs);
      var ok := ChecksumOk([CT_MISC, DT_MISC_TEMP, c]);
      var t := envs[2].temperature;
      && r.reply == Frame(CT_MISC, DT_MISC_TEMP, if ok then [OK, High(t), Low(t)] else [NOK, 0, 0])
      && r.calls == (if ok then [ReadTemperature] else [])
      && Ready(r.state)
  {
    var s1 := s.(top := InMisc);
    var s2 := s1.(misc := MiscTemp);
    assert Next(s, CT_MISC, envs[0]) == Step(s1, [], []);
    assert Next(s1, DT_MISC_TEMP, envs[1]) == Step(s2, [], []);
    Run3(s, CT_MISC, DT_MISC_TEMP, c, envs, s1, s2);
    assert [CT_MISC, DT_MISC_TEMP] + [c] == [CT_MISC, DT_MISC_TEMP, c];
    ChecksumOkLast([CT_MISC, DT_MISC_TEMP], c);
  }

  // --------------------------------------------------------------------- gpio

  /**
   * GPIO config `[2, 1, pin, options, c]`: accepted iff the checksum is
   * right and the pin is 2..13; the options byte carries the direction in
   * bit 0, the initial value in bit 1 and the pull-up in bit 2.
   */
  lemma GpioConfigFrame(s: State, pin: byte, opt: byte, c: byte, envs: seq<Env>)
    requires Ready(s) && |envs| == 5
    ensures var r := Run(s, [CT_GPIO, DT_GPIO_CONFIG, pin, opt, c], envs);
      var ok := ChecksumOk([CT_GPIO, DT_GPIO_CONFIG, pin, opt, c]) && GpioPinOk(pin);
      && r.reply == Frame(CT_GPIO, DT_GPIO_CONFIG, [Status(ok)])
      && r.calls == (if ok then [ConfigGpio(Gpio.D(pin), opt % 2 == 1, (opt / 2) % 2, (opt / 4) % 2)] else [])
      && Ready(r.state)
  {
    var s1 := s.(top := InGpio);
    var s2 := s1.(gpio := s1.gpio.(st := GpioConfig1));
    var s3 := s2.(gpio := s2.gpio.(pin := pin, st := GpioConfig2));
    var s4 := s3.(gpio := s3.gpio.(options := opt, st := GpioConfig3));
    assert Next(s, CT_GPIO, envs[0]) == Step(s1, [], []);
    assert Next(s1, DT_GPIO_CONFIG, envs[1]) == Step(s2, [], []);
    assert Next(s2, pin, envs[2]) == Step(s3, [], []);
    assert Next(s3, opt, envs[3]) == Step(s4, [], []);
    Run5(s, CT_GPIO, DT_GPIO_CONFIG, pin, opt, c, envs, s1, s2, s3, s4);
    assert [CT_GPIO, DT_GPIO_CONFIG, pin, opt] + [c] == [CT_GPIO, DT_GPIO_CONFIG, pin, opt, c];
    ChecksumOkLast([CT_GPIO, DT_GPIO_CONFIG, pin, opt], c);
  }

  /**
   * GPIO read `[2, 2, pin, c]`: an accepted read answers with the value in
   * bit 0, the rise flag in bit 1 and the fall flag in bit 2.
   */
  lemma GpioReadFrame(s: State, pin: byte, c: byte, envs: seq<Env>)
    requires Ready(s) && |envs| == 4
    ensures var r := Run(s, [CT_GPIO, DT_GPIO_READ, pin, c], envs);
      var ok := ChecksumOk([CT_GPIO, DT_GPIO_READ, pin, c]) && GpioPinOk(pin);
      var g := envs[3].gpio;
      && r.reply == Frame(CT_GPIO, DT_GPIO_READ,
           if ok then [OK, GpioBits(g)] else [NOK, 0])
      && r.calls == (if ok then [ReadGpio(Gpio.D(pin))] else [])
      && Ready(r.state)
  {
    var s1 := s.(top := InGpio);
    var s2 := s1.(gpio := s1.gpio.(st := GpioRead1));
    var s3 := s2.(gpio := s2.gpio.(pin := pin, st := GpioRead2));
    assert Next(s, CT_GPIO, envs[0]) == Step(s1, [], []);
    assert Next(s1, DT_GPIO_READ, envs[1]) == Step(s2, [], []);
    assert Next(s2, pin, envs[2]) == Step(s3, [], []);
    Run4(s, CT_GPIO, DT_GPIO_READ, pin, c, envs, s1, s2, s3);
    assert [CT_GPIO, DT_GPIO_READ, pin] + [c] == [CT_GPIO, DT_GPIO_READ, pin, c];
    ChecksumOkLast([CT_GPIO, DT_GPIO_READ, pin], c);
  }

  /** GPIO write `[2, 3, pin, value, c]`. */
  lemma GpioWriteFrame(s: State, pin: byte, v: byte, c: byte, envs: seq<Env>)
    requires Ready(s) && |envs| == 5
    ensures var r := Run(s, [CT_GPIO, DT_GPIO_WRITE, pin, v, c], envs);
      var ok := ChecksumOk([CT_GPIO, DT_GPIO_WRITE, pin, v, c]) && GpioPinOk(pin);
      && r.reply == Frame(CT_GPIO, DT_GPIO_WRITE, [Status(ok)])
      && r.calls == (if ok then [WriteGpio(Gpio.D(pin), v)] else [])
      && Ready(r.state)
  {
    var s1 := s.(top := InGpio);
    var s2 := s1.(gpio := s1.gpio.(st := GpioWrite1));
    var s3 := s2.(gpio := s2.gpio.(pin := pin, st := GpioWrite2));
    var s4 := s3.(gpio := s3.gpio.(value := v, st := GpioWrite3));
    assert Next(s, CT_GPIO, envs[0]) == Step(s1, [], []);
    assert Next(s1, DT_GPIO_WRITE, envs[1]) == Step(s2, [], []);
    assert Next(s2, pin, envs[2]) == Step(s3, [], []);
    assert Next(s3, v, envs[3]) == Step(s4, [], []);
    Run5(s, CT_GPIO, DT_GPIO_WRITE, pin, v, c, envs, s1, s2, s3, s4);
    assert [CT_GPIO, DT_GPIO_WRITE, pin, v] + [c] == [CT_GPIO, DT_GPIO_WRITE, pin, v, c];
    ChecksumOkLast([CT_GPIO, DT_GPIO_WRITE, pin, v], c);
  }

  // ------------------------------------------------------------------- analog

  /** Analog read `[3, 2, pin, c]`: accepted iff the checksum is right and the pin is 0..5. */
  lemma AnalogReadFrame(s: State, pin: byte, c: byte, envs: seq<Env>)
    requires Ready(s) && |envs| == 4
    ensures var r := Run(s, [CT_ANALOG, DT_ANALOG_READ, pin, c], envs);
      var ok := ChecksumOk([CT_ANALOG, DT_ANALOG_READ, pin, c]) && pin <= 5;
      var v := envs[3].adc(pin);
      && r.reply == Frame(CT_ANALOG, DT_ANALOG_READ, if ok then [OK, High(v), Low(v)] else [NOK, 0, 0])
      && r.calls == (if ok then [ReadAdc(Analog.A(pin))] else [])
      && Ready(r.state)
  {
    var s1 := s.(top := InAnalog);
    var s2 := s1.(analog := s1.analog.(st := AnalogRead1));
    var s3 := s2.(analog := s2.analog.(pin := pin, st := AnalogRead2));
    assert Next(s, CT_ANALOG, envs[0]) == Step(s1, [], []);
    assert Next(s1, DT_ANALOG_READ, envs[1]) == Step(s2, [], []);
    assert Next(s2, pin, envs[2]) == Step(s3, [], []);
    Run4(s, CT_ANALOG, DT_ANALOG_READ, pin, c, envs, s1, s2, s3);
    assert [CT_ANALOG, DT_ANALOG_READ, pin] + [c] == [CT_ANALOG, DT_ANALOG_READ, pin, c];
    ChecksumOkLast([CT_ANALOG, DT_ANALOG_READ, pin], c);
  }

  /** Analog read-all `[3, 3, c]`: six conversions, A0..A5 in order, each high byte first. */
  lemma AnalogReadAllFrame(s: State, c: byte, envs: seq<Env>)
    requires Ready(s) && |envs| == 3
    ensures var r := Run(s, [CT_ANALOG, DT_ANALOG_READ_ALL, c], envs);
      var ok := ChecksumOk([CT_ANALOG, DT_ANALOG_READ_ALL, c]);
      && r.reply == Frame(CT_ANALOG, DT_ANALOG_READ_ALL, ReadAllBody(ok, envs[2]))
      && |r.reply| == 16
      && r.calls == (if ok then seq(6, i requires 0 <= i < 6 => ReadAdc(Analog.A(i))) else [])
      && Ready(r.state)
  {
    var s1 := s.(top := InAnalog);
    var s2 := s1.(analog := s1.analog.(st := AnalogReadAll1));
    assert Next(s, CT_ANALOG, envs[0]) == Step(s1, [], []);
    assert Next(s1, DT_ANALOG_READ_ALL, envs[1]) == Step(s2, [], []);
    Run3(s, CT_ANALOG, DT_ANALOG_READ_ALL, c, envs, s1, s2);
    assert [CT_ANALOG, DT_ANALOG_READ_ALL] + [c] == [CT_ANALOG, DT_ANALOG_READ_ALL, c];
    ChecksumOkLast([CT_ANALOG, DT_ANALOG_READ_ALL], c);
  }

  // ---------------------------------------------------------------------- i2c

  /** I2C config `[4, 1, speed, c]`: accepted iff the checksum is right and speed is 0 (100 kHz) or 1 (400 kHz). */
  lemma I2cConfigFrame(s: State, o: byte, c: byte, envs: seq<Env>)
    requires Ready(s) && |envs| == 4
    ensures var r := Run(s, [CT_I2C, DT_I2C_CONFIG, o, c], envs);
      var ok := ChecksumOk([CT_I2C, DT_I2C_CONFIG, o, c]) && o <= 1;
      && r.reply == Frame(CT_I2C, DT_I2C_CONFIG, [Status(ok)])
      && r.calls == (if ok then [ConfigI2c(o == 1)] else [])
      && Ready(r.state)
  {
    var s1 := s.(top := InI2c);
    var s2 := s1.(i2c := s1.i2c.(st := I2cConfig1));
    var s3 := s2.(i2c := s2.i2c.(options := o, st := I2cConfig2));
    assert Next(s, CT_I2C, envs[0]) == Step(s1, [], []);
    assert Next(s1, DT_I2C_CONFIG, envs[1]) == Step(s2, [], []);
    assert Next(s2, o, envs[2]) == Step(s3, [], []);
    Run4(s, CT_I2C, DT_I2C_CONFIG, o, c, envs, s1, s2, s3);
    assert [CT_I2C, DT_I2C_CONFIG, o] + [c] == [CT_I2C, DT_I2C_CONFIG, o, c];
    ChecksumOkLast([CT_I2C, DT_I2C_CONFIG, o], c);
    var ok := c == Checksum([CT_I2C, DT_I2C_CONFIG, o]) && o <= 1;
    var s4 := s3.(i2c := s3.i2c.(st := I2cDt), top := ClassTag);
    assert Next(s3, c, envs[3]) == Step(s4, Frame(CT_I2C, DT_I2C_CONFIG, [Status(ok)]), if ok then [ConfigI2c(o == 1)] else []);
    assert Ready(s4);
  }

  /**
   * I2C read `[4, 2, adr, offset, length, c]` with length below 252: a
   * frame with the right checksum calls `i2c_read`; the reply is
   * `length + 4` bytes, OK only when the driver succeeded (never for
   * length 0), and carries `reply[3..]` whatever the status.
   */
  lemma I2cReadFrame(s: State, adr: byte, off: byte, len: byte, c: byte, envs: seq<Env>)
    requires Ready(s) && |envs| == 6 && len < 252
    ensures var r := Run(s, [CT_I2C, DT_I2C_READ, adr, off, len, c], envs);
      var csOk := ChecksumOk([CT_I2C, DT_I2C_READ, adr, off, len, c]);
      var e := envs[5];
      && r.reply == Frame(CT_I2C, DT_I2C_READ, I2cReadBody(Status(csOk && len != 0 && e.i2cReadOk), len, e))
      && r.calls == (if csOk then [I2cRead(adr, off, len)] else [])
      && Ready(r.state)
  {
    var s1 := s.(top := InI2c);
    var s2 := s1.(i2c := s1.i2c.(st := I2cRead1));
    var s3 := s2.(i2c := s2.i2c.(adr := adr, st := I2cRead2));
    var s4 := s3.(i2c := s3.i2c.(offset := off, st := I2cRead3));
    var s5 := s4.(i2c := s4.i2c.(length := len, st := I2cRead4));
    assert Next(s, CT_I2C, envs[0]) == Step(s1, [], []);
    assert Next(s1, DT_I2C_READ, envs[1]) == Step(s2, [], []);
    assert Next(s2, adr, envs[2]) == Step(s3, [], []);
    assert Next(s3, off, envs[3]) == Step(s4, [], []);
    assert Next(s4, len, envs[4]) == Step(s5, [], []);
    Run6(s, CT_I2C, DT_I2C_READ, adr, off, len, c, envs, s1, s2, s3, s4, s5);
    I2cReadLast(s5, c, envs[5]);
  }

  /** The checksum byte of an I2C read shorter than 252 bytes: the whole reply frame goes out. */
  lemma I2cReadLast(s: State, c: byte, e: Env)
    requires ValidState(s) && !s.halted && s.top == InI2c && s.i2c.st == I2cRead4 && s.i2c.length < 252
    ensures var v := s.i2c;
      var csOk := ChecksumOk([CT_I2C, DT_I2C_READ, v.adr, v.offset, v.length, c]);
      Next(s, c, e) == Step(s.(i2c := v.(st := I2cDt), top := ClassTag),
        Frame(CT_I2C, DT_I2C_READ, I2cReadBody(Status(csOk && v.length != 0 && e.i2cReadOk), v.length, e)),
        if csOk then [I2cRead(v.adr, v.offset, v.length)] else [])
  {
    var v := s.i2c;
    assert [CT_I2C, DT_I2C_READ, v.adr, v.offset, v.length] + [c] == [CT_I2C, DT_I2C_READ, v.adr, v.offset, v.length, c];
    ChecksumOkLast([CT_I2C, DT_I2C_READ, v.adr, v.offset, v.length], c);
    var csOk := c == Checksum([CT_I2C, DT_I2C_READ, v.adr, v.offset, v.length]);
    I2cReadSent(Status(csOk && v.length != 0 && e.i2cReadOk), v.length, e);
  }

  /** How many payload bytes the firmware takes for a write length: 0 wraps the 8-bit count. */
  function PayloadLength(len: byte): nat
  {
    if len == 0 then 256 else len
  }

  /** One payload byte of an I2C write, stored at the 8-bit count. */
  lemma WriteByte(s: State, b: byte, env: Env)
    requires ValidState(s) && !s.halted && s.top == InI2c && s.i2c.st == I2cWrite4
    ensures var v := s.i2c; var cnt := (v.cnt + 1) % 0x100;
      Next(s, b, env) == Step(s.(mem := s.mem[v.cnt := b],
        overrun := s.overrun || v.cnt >= DATA_ARR_SIZE,
        i2c := v.(cnt := cnt, st := if cnt == v.length then I2cWrite5 else I2cWrite4)), [], [])
  {
  }

  /**
   * The state a payload leaves once the count reaches the length: the bytes
   * stored from `data_arr[cnt]` on, the checksum byte next.
   */
  function PayloadStored(s: State, p: seq<byte>): (t: State)
    requires ValidState(s) && s.i2c.cnt + |p| <= MEM_SIZE
    ensures ValidState(t)
  {
    var n := s.i2c.cnt + |p|;
    s.(mem := s.mem[..s.i2c.cnt] + p + s.mem[n..], overrun := s.overrun || n > DATA_ARR_SIZE,
       i2c := s.i2c.(cnt := n % 0x100, st := I2cWrite5))
  }

  /**
   * Payload bytes of an I2C write: from count `k`, the remaining bytes are
   * stored at cells k.. in order, nothing is answered, and the parser
   * waits for the checksum once the 8-bit count reaches the length.
   * Cells past `data_arr` are written exactly when more than 8 bytes come.
   */
  lemma {:induction false} Payload(s: State, p: seq<byte>, envs: seq<Env>)
    requires ValidState(s) && !s.halted && s.top == InI2c && s.i2c.st == I2cWrite4
    requires |p| >= 1 && |envs| == |p| && s.i2c.cnt + |p| == PayloadLength(s.i2c.length)
    ensures Run(s, p, envs) == Step(PayloadStored(s, p), [], [])
    decreases |p|
  {
    if |p| == 1 {
      assert p == [p[0]] && envs == [envs[0]];
      PayloadLast(s, p[0], envs[0]);
    } else {
      var s1 := Next(s, p[0], envs[0]).state;
      WriteByte(s, p[0], envs[0]);
      StoreMore(s, p);
      assert p == [p[0]] + p[1..];
      RunQuiet(s, p[0], p[1..], envs);
      Payload(s1, p[1..], envs[1..]);
      PayloadCompose(s, p, s1);
    }
  }

  /** Storing a payload byte that is not the last: the count goes up by one. */
  lemma StoreMore(s: State, p: seq<byte>)
    requires ValidState(s) && |p| >= 2 && s.i2c.cnt + |p| == PayloadLength(s.i2c.length)
    ensures var v := s.i2c; var k := v.cnt; var cnt := (v.cnt + 1) % 0x100;
      && cnt == k + 1 && cnt != v.length
      && s.(mem := s.mem[k := p[0]], overrun := s.overrun || k >= DATA_ARR_SIZE,
            i2c := v.(cnt := cnt, st := if cnt == v.length then I2cWrite5 else I2cWrite4))
         == s.(mem := s.mem[k := p[0]], overrun := s.overrun || k >= DATA_ARR_SIZE,
               i2c := v.(cnt := k + 1, st := I2cWrite4))
  {
  }

  /** The last payload byte: the count reaches the length. */
  lemma PayloadLast(s: State, b: byte, e: Env)
    requires ValidState(s) && !s.halted && s.top == InI2c && s.i2c.st == I2cWrite4
    requires s.i2c.cnt + 1 == PayloadLength(s.i2c.length)
    ensures Run(s, [b], [e]) == Step(PayloadStored(s, [b]), [], [])
  {
    RunOne(s, b, [e]);
    WriteByte(s, b, e);
    StoreLast(s, b);
  }

  /** Storing the last payload byte, written as the whole payload stored. */
  lemma StoreLast(s: State, b: byte)
    requires ValidState(s) && s.i2c.cnt + 1 == PayloadLength(s.i2c.length)
    ensures var v := s.i2c; var k := v.cnt; var cnt := (v.cnt + 1) % 0x100;
      s.(mem := s.mem[k := b], overrun := s.overrun || k >= DATA_ARR_SIZE,
         i2c := v.(cnt := cnt, st := if cnt == v.length then I2cWrite5 else I2cWrite4))
      == PayloadStored(s, [b])
  {
    var k := s.i2c.cnt;
    assert s.mem[..k] + [b] + s.mem[k + 1..] == s.mem[k := b];
  }

  /** One stored byte followed by the rest of the payload is the whole payload stored. */
  lemma PayloadCompose(s: State, p: seq<byte>, s1: State)
    requires ValidState(s) && |p| >= 2 && s.i2c.cnt + |p| <= 256
    requires s1 == s.(mem := s.mem[s.i2c.cnt := p[0]], overrun := s.overrun || s.i2c.cnt >= DATA_ARR_SIZE,
                      i2c := s.i2c.(cnt := s.i2c.cnt + 1, st := I2cWrite4))
    ensures PayloadStored(s1, p[1..]) == PayloadStored(s, p)
  {
    var k := s.i2c.cnt;
    var n := k + |p|;
    assert s1.mem[..k + 1] + p[1..] + s1.mem[n..] == s.mem[..k] + p + s.mem[n..];
  }

  /** The five header bytes of an I2C write leave the parser waiting for the payload, silently. */
  lemma WriteHeader(s: State, adr: byte, off: byte, len: byte, envs: seq<Env>)
    requires Ready(s) && |envs| == 5
    ensures Run(s, [CT_I2C, DT_I2C_WRITE, adr, off, len], envs) ==
      Step(s.(top := InI2c, i2c := s.i2c.(adr := adr, offset := off, length := len, cnt := 0, st := I2cWrite4)), [], [])
  {
    var s1 := s.(top := InI2c);
    var s2 := s1.(i2c := s1.i2c.(st := I2cWrite1));
    var s3 := s2.(i2c := s2.i2c.(adr := adr, st := I2cWrite2));
    var s4 := s3.(i2c := s3.i2c.(offset := off, st := I2cWrite3));
    var s5 := s4.(i2c := s4.i2c.(length := len, cnt := 0, st := I2cWrite4));
    assert Next(s, CT_I2C, envs[0]) == Step(s1, [], []);
    assert Next(s1, DT_I2C_WRITE, envs[1]) == Step(s2, [], []);
    assert Next(s2, adr, envs[2]) == Step(s3, [], []);
    assert Next(s3, off, envs[3]) == Step(s4, [], []);
    assert Next(s4, len, envs[4]) == Step(s5, [], []);
    Run5(s, CT_I2C, DT_I2C_WRITE, adr, off, len, envs, s1, s2, s3, s4);
    assert s5 == s.(top := InI2c, i2c := s.i2c.(adr := adr, offset := off, length := len, cnt := 0, st := I2cWrite4));
  }

  /**
   * I2C write `[4, 3, adr, offset, length] + payload + [c]`: the payload
   * is `length` bytes, or 256 for length 0. The checksum covers the header
   * and the first `length` payload bytes; a right one calls `i2c_write`
   * with them, and the reply is OK only when the driver succeeded (never
   * for length 0). Memory past `data_arr` is written exactly when the
   * payload is longer than 8 bytes: for length 0 and for 9..255. Those
   * stores are undefined behaviour in C; for them the reply and the calls
   * below hold for the model's memory image, in which the cells past
   * `data_arr` belong to no other variable.
   */
  lemma I2cWriteFrame(s: State, adr: byte, off: byte, len: byte, p: seq<byte>, c: byte, envs: seq<Env>)
    requires Ready(s) && |p| == PayloadLength(len) && |envs| == |p| + 6
    ensures var header := [CT_I2C, DT_I2C_WRITE, adr, off, len];
      var r := Run(s, header + p + [c], envs);
      var csOk := c == Checksum(header + p[..len]);
      && r.reply == Frame(CT_I2C, DT_I2C_WRITE, [Status(csOk && len != 0 && envs[|p| + 5].i2cWriteOk)])
      && r.calls == (if csOk then [I2cWrite(adr, off, p[..len])] else [])
      && Ready(r.state)
      && (r.state.overrun <==> s.overrun || len == 0 || len > DATA_ARR_SIZE)
  {
    var header := [CT_I2C, DT_I2C_WRITE, adr, off, len];
    var e0 := envs[..5];
    var rest := envs[5..];
    WriteHeader(s, adr, off, len, e0);
    var s5 := Run(s, header, e0).state;
    assert header + p + [c] == header + (p + [c]);
    assert envs == e0 + rest;
    RunAppend(s, header, p + [c], e0, rest);
    GlueQuiet(Run(s, header, e0), Run(s5, p + [c], rest));
    PayloadRun(s5, p, c, rest);
    RunOne(PayloadStored(s5, p), c, rest[|p|..]);
    StoredLast(s5, p, c, rest[|p|]);
    assert rest[|p|..][0] == rest[|p|] == envs[|p| + 5];
  }

  /** The payload of an I2C write only stores; its checksum byte is then read in the stored state. */
  lemma PayloadRun(s: State, p: seq<byte>, c: byte, envs: seq<Env>)
    requires ValidState(s) && !s.halted && s.top == InI2c && s.i2c.st == I2cWrite4 && s.i2c.cnt == 0
    requires |p| == PayloadLength(s.i2c.length) && |envs| == |p| + 1
    ensures Run(s, p + [c], envs) == Run(PayloadStored(s, p), [c], envs[|p|..])
  {
    var ep, ec := envs[..|p|], envs[|p|..];
    assert envs == ep + ec;
    RunAppend(s, p, [c], ep, ec);
    Payload(s, p, ep);
    GlueQuiet(Step(PayloadStored(s, p), [], []), Run(PayloadStored(s, p), [c], ec));
  }

  /** The checksum byte of an I2C write, read after the whole payload is stored. */
  lemma StoredLast(s: State, p: seq<byte>, c: byte, e: Env)
    requires ValidState(s) && !s.halted && s.top == InI2c && s.i2c.cnt == 0 && |p| == PayloadLength(s.i2c.length)
    ensures var v := s.i2c;
      var t := PayloadStored(s, p);
      var csOk := c == Checksum([CT_I2C, DT_I2C_WRITE, v.adr, v.offset, v.length] + p[..v.length]);
      Next(t, c, e) == Step(t.(i2c := t.i2c.(st := I2cDt), top := ClassTag),
        Frame(CT_I2C, DT_I2C_WRITE, [Status(csOk && v.length != 0 && e.i2cWriteOk)]),
        if csOk then [I2cWrite(v.adr, v.offset, p[..v.length])] else [])
  {
    var t := PayloadStored(s, p);
    assert t.mem[..s.i2c.length] == p[..s.i2c.length];
    I2cWriteLast(t, c, e);
  }

  /** The checksum byte of an I2C write, checked against the header and the stored cells. */
  lemma I2cWriteLast(s: State, c: byte, e: Env)
    requires ValidState(s) && !s.halted && s.top == InI2c && s.i2c.st == I2cWrite5
    ensures var v := s.i2c;
      var csOk := c == Checksum([CT_I2C, DT_I2C_WRITE, v.adr, v.offset, v.length] + s.mem[..v.length]);
      Next(s, c, e) == Step(s.(i2c := v.(st := I2cDt), top := ClassTag),
        Frame(CT_I2C, DT_I2C_WRITE, [Status(csOk && v.length != 0 && e.i2cWriteOk)]),
        if csOk then [I2cWrite(v.adr, v.offset, s.mem[..v.length])] else [])
  {
  }

  // -------------------------------------------------------------------- servo

  /**
   * Servo config `[5, 1, pin, low, high, c]`: accepted iff the checksum is
   * right and the pin is 2..7, 9 or 10; the width is `high * 256 + low`.
   */
  lemma ServoConfigFrame(s: State, pin: byte, lo: byte, hi: byte, c: byte, envs: seq<Env>)
    requires Ready(s) && |envs| == 6
    ensures var r := Run(s, [CT_SERVO, DT_SERVO_CONFIG, pin, lo, hi, c], envs);
      var ok := ChecksumOk([CT_SERVO, DT_SERVO_CONFIG, pin, lo, hi, c]) && ServoPinOk(pin);
      && r.reply == Frame(CT_SERVO, DT_SERVO_CONFIG, [Status(ok)])
      && r.calls == (if ok then [ConfigServo(ServoPinOf(pin), hi * 0x100 + lo)] else [])
      && Ready(r.state)
  {
    var t := ServoHeader(s, DT_SERVO_CONFIG, pin, lo, hi, c, envs);
    ServoConfigLast(t, pin, lo, hi, c, envs[5]);
  }

  /** The checksum byte of a servo config. */
  lemma ServoConfigLast(s: State, pin: byte, lo: byte, hi: byte, c: byte, env: Env)
    requires ValidState(s) && !s.halted && s.top == InServo && s.servo.st == ServoConfig4
    requires s.servo.pin == pin && s.servo.low == lo && s.servo.high == hi
    ensures var ok := ChecksumOk([CT_SERVO, DT_SERVO_CONFIG, pin, lo, hi, c]) && ServoPinOk(pin);
      Next(s, c, env) == Step(s.(servo := s.servo.(st := ServoDt), top := ClassTag),
        Frame(CT_SERVO, DT_SERVO_CONFIG, [Status(ok)]),
        if ok then [ConfigServo(ServoPinOf(pin), hi * 0x100 + lo)] else [])
  {
    ChecksumOkLast([CT_SERVO, DT_SERVO_CONFIG, pin, lo, hi], c);
    assert [CT_SERVO, DT_SERVO_CONFIG, pin, lo, hi] + [c] == [CT_SERVO, DT_SERVO_CONFIG, pin, lo, hi, c];
  }

  /** Servo set `[5, 2, pin, low, high, c]`, accepted like a config. */
  lemma ServoSetFrame(s: State, pin: byte, lo: byte, hi: byte, c: byte, envs: seq<Env>)
    requires Ready(s) && |envs| == 6
    ensures var r := Run(s, [CT_SERVO, DT_SERVO_SET, pin, lo, hi, c], envs);
      var ok := ChecksumOk([CT_SERVO, DT_SERVO_SET, pin, lo, hi, c]) && ServoPinOk(pin);
      && r.reply == Frame(CT_SERVO, DT_SERVO_SET, [Status(ok)])
      && r.calls == (if ok then [SetServoPwm(ServoPinOf(pin), hi * 0x100 + lo)] else [])
      && Ready(r.state)
  {
    var t := ServoHeader(s, DT_SERVO_SET, pin, lo, hi, c, envs);
    ServoSetLast(t, pin, lo, hi, c, envs[5]);
  }

  /** The five bytes before a servo request's checksum only record pin and width. */
  lemma ServoHeader(s: State, dt: byte, pin: byte, lo: byte, hi: byte, c: byte, envs: seq<Env>) returns (t: State)
    requires Ready(s) && |envs| == 6 && (dt == DT_SERVO_CONFIG || dt == DT_SERVO_SET)
    ensures ValidState(t)
    ensures t == s.(top := InServo, servo := s.servo.(pin := pin, low := lo, high := hi,
                    st := if dt == DT_SERVO_CONFIG then ServoConfig4 else ServoSet4))
    ensures Run(s, [CT_SERVO, dt, pin, lo, hi, c], envs) == Next(t, c, envs[5])
  {
    var config := dt == DT_SERVO_CONFIG;
    var s1 := s.(top := InServo);
    var s2 := s1.(servo := s1.servo.(st := if config then ServoConfig1 else ServoSet1));
    var s3 := s2.(servo := s2.servo.(pin := pin, st := if config then ServoConfig2 else ServoSet2));
    var s4 := s3.(servo := s3.servo.(low := lo, st := if config then ServoConfig3 else ServoSet3));
    t := s4.(servo := s4.servo.(high := hi, st := if config then ServoConfig4 else ServoSet4));
    assert Next(s, CT_SERVO, envs[0]) == Step(s1, [], []);
    assert Next(s1, dt, envs[1]) == Step(s2, [], []);
    assert Next(s2, pin, envs[2]) == Step(s3, [], []);
    assert Next(s3, lo, envs[3]) == Step(s4, [], []);
    assert Next(s4, hi, envs[4]) == Step(t, [], []);
    Run6(s, CT_SERVO, dt, pin, lo, hi, c, envs, s1, s2, s3, s4, t);
  }

  /** The checksum byte of a servo set. */
  lemma ServoSetLast(s: State, pin: byte, lo: byte, hi: byte, c: byte, env: Env)
    requires ValidState(s) && !s.halted && s.top == InServo && s.servo.st == ServoSet4
    requires s.servo.pin == pin && s.servo.low == lo && s.servo.high == hi
    ensures var ok := ChecksumOk([CT_SERVO, DT_SERVO_SET, pin, lo, hi, c]) && ServoPinOk(pin);
      Next(s, c, env) == Step(s.(servo := s.servo.(st := ServoDt), top := ClassTag),
        Frame(CT_SERVO, DT_SERVO_SET, [Status(ok)]),
        if ok then [SetServoPwm(ServoPinOf(pin), hi * 0x100 + lo)] else [])
  {
    ChecksumOkLast([CT_SERVO, DT_SERVO_SET, pin, lo, hi], c);
    assert [CT_SERVO, DT_SERVO_SET, pin, lo, hi] + [c] == [CT_SERVO, DT_SERVO_SET, pin, lo, hi, c];
  }

  // ------------------------------------------------------------------ counter

  /**
   * Counter config `[6, 1, pin, options, c]`: accepted iff the checksum is
   * right and the pin is 2 or 3.
   */
  lemma CounterConfigFrame(s: State, pin: byte, opt: byte, c: byte, envs: seq<Env>)
    requires Ready(s) && |envs| == 5
    ensures var r := Run(s, [CT_COUNTER, DT_COUNTER_CONFIG, pin, opt, c], envs);
      var ok := ChecksumOk([CT_COUNTER, DT_COUNTER_CONFIG, pin, opt, c]) && (pin == 2 || pin == 3);
      && r.reply == Frame(CT_COUNTER, DT_COUNTER_CONFIG, [Status(ok)])
      && r.calls == (if ok then [ConfigCounter(CntPinOf(pin), CounterOption(opt, envs[4].garbageOption))] else [])
      && Ready(r.state)
  {
    var s1 := s.(top := InCounter);
    var s2 := s1.(counter := s1.counter.(st := CounterConfig1));
    var s3 := s2.(counter := s2.counter.(pin := pin, st := CounterConfig2));
    var s4 := s3.(counter := s3.counter.(options := opt, st := CounterConfig3));
    assert Next(s, CT_COUNTER, envs[0]) == Step(s1, [], []);
    assert Next(s1, DT_COUNTER_CONFIG, envs[1]) == Step(s2, [], []);
    assert Next(s2, pin, envs[2]) == Step(s3, [], []);
    assert Next(s3, opt, envs[3]) == Step(s4, [], []);
    Run5(s, CT_COUNTER, DT_COUNTER_CONFIG, pin, opt, c, envs, s1, s2, s3, s4);
    assert [CT_COUNTER, DT_COUNTER_CONFIG, pin, opt] + [c] == [CT_COUNTER, DT_COUNTER_CONFIG, pin, opt, c];
    ChecksumOkLast([CT_COUNTER, DT_COUNTER_CONFIG, pin, opt], c);
  }

  /** Counter read `[6, 2, pin, c]`: an accepted read answers with the 8-bit count. */
  lemma CounterReadFrame(s: State, pin: byte, c: byte, envs: seq<Env>)
    requires Ready(s) && |envs| == 4
    ensures var r := Run(s, [CT_COUNTER, DT_COUNTER_READ, pin, c], envs);
      var ok := ChecksumOk([CT_COUNTER, DT_COUNTER_READ, pin, c]) && (pin == 2 || pin == 3);
      && r.reply == Frame(CT_COUNTER, DT_COUNTER_READ, if ok then [OK, envs[3].counter] else [NOK, 0])
      && r.calls == (if ok then [ReadCounter(CntPinOf(pin))] else [])
      && Ready(r.state)
  {
    var s1 := s.(top := InCounter);
    var s2 := s1.(counter := s1.counter.(st := CounterRead1));
    var s3 := s2.(counter := s2.counter.(pin := pin, st := CounterRead2));
    assert Next(s, CT_COUNTER, envs[0]) == Step(s1, [], []);
    assert Next(s1, DT_COUNTER_READ, envs[1]) == Step(s2, [], []);
    assert Next(s2, pin, envs[2]) == Step(s3, [], []);
    Run4(s, CT_COUNTER, DT_COUNTER_READ, pin, c, envs, s1, s2, s3);
    assert [CT_COUNTER, DT_COUNTER_READ, pin] + [c] == [CT_COUNTER, DT_COUNTER_READ, pin, c];
    ChecksumOkLast([CT_COUNTER, DT_COUNTER_READ, pin], c);
  }
}
