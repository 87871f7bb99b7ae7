/**
 * The firmware's command parser (firmware/src/parser.c) as a pure state
 * machine: one byte in, the new parser state, the reply bytes handed to
 * `sendByteArray` and the driver calls made. Driver results are oracles,
 * supplied per byte in an `Env`. `Run` is the main loop of
 * firmware/src/main.c: every received byte goes to `parse`, in order.
 */
module ParserSpec {
  import opened Bytes
  import opened Tags
  import Gpio
  import Analog
  import ServoDriver
  import Counter

  /** `parse_state`. */
  datatype Top = ClassTag | InMisc | InGpio | InAnalog | InI2c | InServo | InCounter

  /** `misc_parse_state` .. `counter_parse_state`. */
  datatype MiscState = MiscDt | MiscReset | MiscId | MiscTemp
  datatype GpioState = GpioDt | GpioConfig1 | GpioConfig2 | GpioConfig3 | GpioRead1 | GpioRead2
    | GpioWrite1 | GpioWrite2 | GpioWrite3
  datatype AnalogState = AnalogDt | AnalogRead1 | AnalogRead2 | AnalogReadAll1
  datatype I2cState = I2cDt | I2cConfig1 | I2cConfig2 | I2cRead1 | I2cRead2 | I2cRead3 | I2cRead4
    | I2cWrite1 | I2cWrite2 | I2cWrite3 | I2cWrite4 | I2cWrite5
  datatype ServoState = ServoDt | ServoConfig1 | ServoConfig2 | ServoConfig3 | ServoConfig4
    | ServoSet1 | ServoSet2 | ServoSet3 | ServoSet4
  datatype CounterState = CounterDt | CounterConfig1 | CounterConfig2 | CounterConfig3
    | CounterRead1 | CounterRead2

  /** Size of `data_arr`, and the number of cells an 8-bit `data_cnt` can index. */
  const DATA_ARR_SIZE: nat := 8
  const MEM_SIZE: nat := 256

  /** The board id `getId` returns (firmware/src/id.c). */
  const BOARD_ID: uint16 := 0x0002

  /** `parse_gpio`'s state and statics: pin number, config options, pin value. */
  datatype GpioVars = GpioVars(st: GpioState, pin: byte, options: byte, value: byte)

  /** `parse_analog`'s state and its pin number. */
  datatype AnalogVars = AnalogVars(st: AnalogState, pin: byte)

  /**
   * `parse_i2c`'s state and statics, apart from `data_arr`: the config
   * options, address, offset, length, and the 8-bit payload count.
   */
  datatype I2cVars = I2cVars(st: I2cState, options: byte, adr: byte, offset: byte, length: byte, cnt: byte)

  /** `parse_servo`'s state and statics: pin and the two pulse-width bytes. */
  datatype ServoVars = ServoVars(st: ServoState, pin: byte, low: byte, high: byte)

  /** `parse_counter`'s state and statics: pin and options. */
  datatype CounterVars = CounterVars(st: CounterState, pin: byte, options: byte)

  /**
   * Everything `parse` keeps between bytes: `parse_state`, each
   * sub-parser's state and statics, and `mem`: `data_arr` (cells 0..7)
   * followed by the memory past its end that an 8-bit `data_cnt` reaches;
   * the model gives that memory to no other variable, and `overrun`
   * records that a store landed there. `halted` is a device spinning in
   * an endless loop.
   */
  datatype State = State(
    top: Top,
    misc: MiscState,
    gpio: GpioVars,
    analog: AnalogVars,
    i2c: I2cVars,
    mem: seq<byte>,
    servo: ServoVars,
    counter: CounterVars,
    halted: bool,
    overrun: bool)

  predicate ValidState(s: State)
  {
    |s.mem| == MEM_SIZE
  }

  /** The state after reset: all statics zero. */
  function Initial(): (s: State)
    ensures ValidState(s) && Idle(s) && !s.halted && !s.overrun
  {
    State(ClassTag, MiscDt, GpioVars(GpioDt, 0, 0, 0), AnalogVars(AnalogDt, 0),
          I2cVars(I2cDt, 0, 0, 0, 0, 0), seq(MEM_SIZE, _ => 0), ServoVars(ServoDt, 0, 0, 0),
          CounterVars(CounterDt, 0, 0), false, false)
  }

  /** Waiting for a class tag, with every sub-parser waiting for a data tag. */
  predicate Idle(s: State)
  {
    s.top == ClassTag && s.misc == MiscDt && s.gpio.st == GpioDt && s.analog.st == AnalogDt &&
    s.i2c.st == I2cDt && s.servo.st == ServoDt && s.counter.st == CounterDt
  }

  /** A sub-parser other than the selected one is at its data-tag state. */
  predicate Consistent(s: State)
  {
    && (s.top != InMisc ==> s.misc == MiscDt)
    && (s.top != InGpio ==> s.gpio.st == GpioDt)
    && (s.top != InAnalog ==> s.analog.st == AnalogDt)
    && (s.top != InI2c ==> s.i2c.st == I2cDt)
    && (s.top != InServo ==> s.servo.st == ServoDt)
    && (s.top != InCounter ==> s.counter.st == CounterDt)
  }

  /** A sampled `readGpio` result. */
  datatype GpioSample = GpioSample(value: bool, rise: bool, fall: bool)

  /**
   * Driver results at one byte: the temperature, the ADC reading of each
   * channel, the GPIO record, the result of `i2c_read`/`i2c_write`, the
   * bytes found at `reply[3..]` when the I2C read reply is summed (data
   * read, or stack contents never written), the counter value, and the
   * value an uninitialised `cnt_options` variable happens to hold.
   */
  datatype Env = Env(
    temperature: uint16,
    adc: nat -> uint16,
    gpio: GpioSample,
    i2cReadOk: bool,
    i2cData: nat -> byte,
    i2cWriteOk: bool,
    counter: byte,
    garbageOption: nat)

  /** A call into a driver, with the arguments the parser passes. */
  datatype Call =
    | GetId
    | ReadTemperature
    | ConfigGpio(gpioPin: Gpio.GpioPin, output: bool, value: byte, pullUp: byte)
    | ReadGpio(gpioPin: Gpio.GpioPin)
    | WriteGpio(gpioPin: Gpio.GpioPin, value: byte)
    | ReadAdc(analogPin: Analog.AnalogPin)
    | ConfigI2c(fast: bool)
    | I2cRead(adr: byte, offset: byte, length: byte)
    | I2cWrite(adr: byte, offset: byte, data: seq<byte>)
    | ConfigServo(servoPin: ServoDriver.ServoPin, pwm: uint16)
    | SetServoPwm(servoPin: ServoDriver.ServoPin, pwm: uint16)
    | ConfigCounter(cntPin: Counter.CntPin, option: nat)
    | ReadCounter(cntPin: Counter.CntPin)

  /** The result of one `parse` call, or of a run of them. */
  datatype Step = Step(state: State, reply: seq<byte>, calls: seq<Call>)

  function Status(accepted: bool): byte
  {
    if accepted then OK else NOK
  }

  function Bit(b: bool): byte
  {
    if b then 1 else 0
  }

  /** The GPIO read reply's data byte: the level in bit 0, a rising edge in bit 1, a falling edge in bit 2. */
  function GpioBits(e: GpioSample): byte
  {
    Bit(e.value) + 2 * Bit(e.rise) + 4 * Bit(e.fall)
  }

  // ---------------------------------------------------------------- top level

  /** `parse`: the class-tag state selects a sub-parser; every other state delegates. */
  function Next(s: State, b: byte, env: Env): (r: Step)
    requires ValidState(s)
    ensures ValidState(r.state)
  {
    if s.halted then Step(s, [], [])
    else
      match s.top
      case ClassTag => Step(ClassTagStep(s, b), [], [])
      case InMisc => NextMisc(s, b, env)
      case InGpio => NextGpio(s, b, env)
      case InAnalog => NextAnalog(s, b, env)
      case InI2c => NextI2c(s, b, env)
      case InServo => NextServo(s, b)
      case InCounter => NextCounter(s, b, env)
  }

  function ClassTagStep(s: State, b: byte): State
  {
    if b == CT_MISC then s.(top := InMisc)
    else if b == CT_GPIO then s.(top := InGpio)
    else if b == CT_ANALOG then s.(top := InAnalog)
    else if b == CT_I2C then s.(top := InI2c)
    else if b == CT_SERVO then s.(top := InServo)
    else if b == CT_COUNTER then s.(top := InCounter)
    else s
  }

  /** The main loop: feed every byte to `parse`, collecting replies and calls. */
  function Run(s: State, input: seq<byte>, envs: seq<Env>): (r: Step)
    requires ValidState(s) && |envs| == |input|
    ensures ValidState(r.state)
    decreases |input|
  {
    if input == [] then Step(s, [], [])
    else
      var st := Next(s, input[0], envs[0]);
      var rest := Run(st.state, input[1..], envs[1..]);
      Step(rest.state, st.reply + rest.reply, st.calls + rest.calls)
  }

  // --------------------------------------------------------------------- misc

  function NextMisc(s: State, b: byte, env: Env): (r: Step)
    requires ValidState(s)
    ensures ValidState(r.state)
  {
    var done := s.(misc := MiscDt, top := ClassTag);
    match s.misc
    case MiscDt =>
      Step(if b == DT_MISC_RESET then s.(misc := MiscReset)
           else if b == DT_MISC_ID then s.(misc := MiscId)
           else if b == DT_MISC_TEMP then s.(misc := MiscTemp)
           else s, [], [])
    case MiscReset =>
      var ok := b == Checksum([CT_MISC, DT_MISC_RESET]);
      Step(done.(halted := ok), Frame(CT_MISC, DT_MISC_RESET, [Status(ok)]), [])
    case MiscId =>
      var ok := b == Checksum([CT_MISC, DT_MISC_ID]);
      if ok then Step(done, Frame(CT_MISC, DT_MISC_ID, [OK, High(BOARD_ID), Low(BOARD_ID)]), [GetId])
      else Step(done, Frame(CT_MISC, DT_MISC_ID, [NOK, 0, 0]), [])
    case MiscTemp =>
      var ok := b == Checksum([CT_MISC, DT_MISC_TEMP]);
      if ok then
        Step(done, Frame(CT_MISC, DT_MISC_TEMP, [OK, High(env.temperature), Low(env.temperature)]), [ReadTemperature])
      else Step(done, Frame(CT_MISC, DT_MISC_TEMP, [NOK, 0, 0]), [])
  }

  // --------------------------------------------------------------------- gpio

  /** The GPIO pin numbers the parser accepts. */
  predicate GpioPinOk(n: byte)
  {
    2 <= n <= 13
  }

  function NextGpio(s: State, b: byte, env: Env): (r: Step)
    requires ValidState(s)
    ensures ValidState(r.state)
  {
    var g := s.gpio;
    var done := s.(gpio := g.(st := GpioDt), top := ClassTag);
    match g.st
    case GpioDt =>
      Step(if b == DT_GPIO_CONFIG then s.(gpio := g.(st := GpioConfig1))
           else if b == DT_GPIO_READ then s.(gpio := g.(st := GpioRead1))
           else if b == DT_GPIO_WRITE then s.(gpio := g.(st := GpioWrite1))
           else s, [], [])
    case GpioConfig1 => Step(s.(gpio := g.(pin := b, st := GpioConfig2)), [], [])
    case GpioConfig2 => Step(s.(gpio := g.(options := b, st := GpioConfig3)), [], [])
    case GpioConfig3 =>
      var ok := b == Checksum([CT_GPIO, DT_GPIO_CONFIG, g.pin, g.options]) && GpioPinOk(g.pin);
      var o := g.options;
      Step(done, Frame(CT_GPIO, DT_GPIO_CONFIG, [Status(ok)]),
           if ok then [ConfigGpio(Gpio.ConvertNumberToGpio(g.pin), o % 2 == 1, (o / 2) % 2, (o / 4) % 2)] else [])
    case GpioRead1 => Step(s.(gpio := g.(pin := b, st := GpioRead2)), [], [])
    case GpioRead2 =>
      var ok := b == Checksum([CT_GPIO, DT_GPIO_READ, g.pin]) && GpioPinOk(g.pin);
      var e := env.gpio;
      if ok then
        Step(done, Frame(CT_GPIO, DT_GPIO_READ, [OK, GpioBits(e)]),
             [ReadGpio(Gpio.ConvertNumberToGpio(g.pin))])
      else Step(done, Frame(CT_GPIO, DT_GPIO_READ, [NOK, 0]), [])
    case GpioWrite1 => Step(s.(gpio := g.(pin := b, st := GpioWrite2)), [], [])
    case GpioWrite2 => Step(s.(gpio := g.(value := b, st := GpioWrite3)), [], [])
    case GpioWrite3 =>
      var ok := b == Checksum([CT_GPIO, DT_GPIO_WRITE, g.pin, g.value]) && GpioPinOk(g.pin);
      Step(done, Frame(CT_GPIO, DT_GPIO_WRITE, [Status(ok)]),
           if ok then [WriteGpio(Gpio.ConvertNumberToGpio(g.pin), g.value)] else [])
  }

  // ------------------------------------------------------------------- analog

  /** The body of a read-all reply: status, then high and low byte of A0..A5. */
  function ReadAllBody(ok: bool, env: Env): (body: seq<byte>)
    ensures |body| == 13 && body[0] == Status(ok)
  {
    [Status(ok)] + seq<byte>(12, i requires 0 <= i < 12 => ReadAllByte(ok, env, i))
  }

  /** Byte `i` after the status of a read-all reply: zero unless accepted. */
  function ReadAllByte(ok: bool, env: Env, i: nat): byte
  {
    if !ok then 0 else if i % 2 == 0 then High(env.adc(i / 2)) else Low(env.adc(i / 2))
  }

  function NextAnalog(s: State, b: byte, env: Env): (r: Step)
    requires ValidState(s)
    ensures ValidState(r.state)
  {
    var a := s.analog;
    var done := s.(analog := a.(st := AnalogDt), top := ClassTag);
    match a.st
    case AnalogDt =>
      Step(if b == DT_ANALOG_READ then s.(analog := a.(st := AnalogRead1))
           else if b == DT_ANALOG_READ_ALL then s.(analog := a.(st := AnalogReadAll1))
           else s, [], [])
    case AnalogRead1 => Step(s.(analog := a.(pin := b, st := AnalogRead2)), [], [])
    case AnalogRead2 =>
      var ok := b == Checksum([CT_ANALOG, DT_ANALOG_READ, a.pin]) && a.pin <= 5;
      if ok then
        var v := env.adc(a.pin);
        Step(done, Frame(CT_ANALOG, DT_ANALOG_READ, [OK, High(v), Low(v)]),
             [ReadAdc(Analog.ConvertNumberToAnalog(a.pin))])
      else Step(done, Frame(CT_ANALOG, DT_ANALOG_READ, [NOK, 0, 0]), [])
    case AnalogReadAll1 =>
      var ok := b == Checksum([CT_ANALOG, DT_ANALOG_READ_ALL]);
      Step(done, Frame(CT_ANALOG, DT_ANALOG_READ_ALL, ReadAllBody(ok, env)),
           if ok then seq(6, i requires 0 <= i < 6 => ReadAdc(Analog.A(i))) else [])
  }

  // ---------------------------------------------------------------------- i2c

  /** The I2C read reply buffer: status, then `length` bytes from `reply[3..]`. */
  function I2cReadBody(status: byte, length: byte, env: Env): (body: seq<byte>)
    ensures |body| == length + 1 && body[0] == status
  {
    var data := seq<byte>(length, i requires 0 <= i < length => env.i2cData(i));
    [status] + data
  }

  /** The checksum covering the write header and the `length` cells of `data_arr`. */
  function WriteChecksum(s: State): byte
    requires ValidState(s)
  {
    var v := s.i2c;
    Checksum([CT_I2C, DT_I2C_WRITE, v.adr, v.offset, v.length] + s.mem[..v.length])
  }

  function NextI2c(s: State, b: byte, env: Env): (r: Step)
    requires ValidState(s)
    ensures ValidState(r.state)
  {
    var v := s.i2c;
    var done := s.(i2c := v.(st := I2cDt), top := ClassTag);
    match v.st
    case I2cDt =>
      Step(if b == DT_I2C_CONFIG then s.(i2c := v.(st := I2cConfig1))
           else if b == DT_I2C_READ then s.(i2c := v.(st := I2cRead1))
           else if b == DT_I2C_WRITE then s.(i2c := v.(st := I2cWrite1))
           else s, [], [])
    case I2cConfig1 => Step(s.(i2c := v.(options := b, st := I2cConfig2)), [], [])
    case I2cConfig2 =>
      var ok := b == Checksum([CT_I2C, DT_I2C_CONFIG, v.options]) && v.options <= 1;
      Step(done, Frame(CT_I2C, DT_I2C_CONFIG, [Status(ok)]), if ok then [ConfigI2c(v.options == 1)] else [])
    case I2cRead1 => Step(s.(i2c := v.(adr := b, st := I2cRead2)), [], [])
    case I2cRead2 => Step(s.(i2c := v.(offset := b, st := I2cRead3)), [], [])
    case I2cRead3 => Step(s.(i2c := v.(length := b, st := I2cRead4)), [], [])
    case I2cRead4 =>
      var csOk := b == Checksum([CT_I2C, DT_I2C_READ, v.adr, v.offset, v.length]);
      // `i2c_read` fails for length 0 before touching the bus
      var ok := csOk && v.length != 0 && env.i2cReadOk;
      var calls := if csOk then [I2cRead(v.adr, v.offset, v.length)] else [];
      if v.length >= 253 then
        // the 8-bit index of the checksum loop never reaches length + 3
        Step(s.(halted := true), [], calls)
      else
        var frame := Frame(CT_I2C, DT_I2C_READ, I2cReadBody(Status(ok), v.length, env));
        // `sendByteArray` takes an 8-bit size: length + 4 == 256 sends nothing
        Step(done, frame[..(v.length + 4) % 0x100], calls)
    case I2cWrite1 => Step(s.(i2c := v.(adr := b, st := I2cWrite2)), [], [])
    case I2cWrite2 => Step(s.(i2c := v.(offset := b, st := I2cWrite3)), [], [])
    case I2cWrite3 => Step(s.(i2c := v.(length := b, cnt := 0, st := I2cWrite4)), [], [])
    case I2cWrite4 =>
      var cnt := (v.cnt + 1) % 0x100;
      Step(s.(mem := s.mem[v.cnt := b], overrun := s.overrun || v.cnt >= DATA_ARR_SIZE,
              i2c := v.(cnt := cnt, st := if cnt == v.length then I2cWrite5 else I2cWrite4)), [], [])
    case I2cWrite5 =>
      var csOk := b == WriteChecksum(s);
      // `i2c_write` fails for length 0 before touching the bus
      var ok := csOk && v.length != 0 && env.i2cWriteOk;
      Step(done, Frame(CT_I2C, DT_I2C_WRITE, [Status(ok)]),
           if csOk then [I2cWrite(v.adr, v.offset, s.mem[..v.length])] else [])
  }

  // -------------------------------------------------------------------- servo

  /** The servo pin numbers the parser accepts. */
  predicate ServoPinOk(n: byte)
  {
    2 <= n <= 7 || n == 9 || n == 10
  }

  function ServoPinOf(n: byte): (p: ServoDriver.ServoPin)
    requires ServoPinOk(n)
    ensures ServoDriver.ValidServoPin(p)
  {
    if n == 9 then ServoDriver.ServoD9 else if n == 10 then ServoDriver.ServoD10 else ServoDriver.ServoSoft(n)
  }

  /** The pulse width from the two frame bytes: low byte first. */
  function Pwm(low: byte, high: byte): uint16
  {
    high * 0x100 + low
  }

  function NextServo(s: State, b: byte): (r: Step)
    requires ValidState(s)
    ensures ValidState(r.state)
  {
    var v := s.servo;
    var done := s.(servo := v.(st := ServoDt), top := ClassTag);
    match v.st
    case ServoDt =>
      Step(if b == DT_SERVO_CONFIG then s.(servo := v.(st := ServoConfig1))
           else if b == DT_SERVO_SET then s.(servo := v.(st := ServoSet1))
           else s, [], [])
    case ServoConfig1 => Step(s.(servo := v.(pin := b, st := ServoConfig2)), [], [])
    case ServoConfig2 => Step(s.(servo := v.(low := b, st := ServoConfig3)), [], [])
    case ServoConfig3 => Step(s.(servo := v.(high := b, st := ServoConfig4)), [], [])
    case ServoConfig4 =>
      var ok := b == Checksum([CT_SERVO, DT_SERVO_CONFIG, v.pin, v.low, v.high]) && ServoPinOk(v.pin);
      Step(done, Frame(CT_SERVO, DT_SERVO_CONFIG, [Status(ok)]),
           if ok then [ConfigServo(ServoPinOf(v.pin), Pwm(v.low, v.high))] else [])
    case ServoSet1 => Step(s.(servo := v.(pin := b, st := ServoSet2)), [], [])
    case ServoSet2 => Step(s.(servo := v.(low := b, st := ServoSet3)), [], [])
    case ServoSet3 => Step(s.(servo := v.(high := b, st := ServoSet4)), [], [])
    case ServoSet4 =>
      var ok := b == Checksum([CT_SERVO, DT_SERVO_SET, v.pin, v.low, v.high]) && ServoPinOk(v.pin);
      Step(done, Frame(CT_SERVO, DT_SERVO_SET, [Status(ok)]),
           if ok then [SetServoPwm(ServoPinOf(v.pin), Pwm(v.low, v.high))] else [])
  }

  // ------------------------------------------------------------------ counter

  /**
   * The option the parser passes to `configCounter`: bit 0 is RISE, else
   * bit 1 FALL, else bit 2 BOTH; with none of them set the variable is
   * never assigned and holds whatever `garbage` is.
   */
  function CounterOption(options: byte, garbage: nat): nat
  {
    if options % 2 == 1 then Counter.RISE
    else if (options / 2) % 2 == 1 then Counter.FALL
    else if (options / 4) % 2 == 1 then Counter.BOTH
    else garbage
  }

  function CntPinOf(n: byte): Counter.CntPin
  {
    if n == 2 then Counter.CntD2 else Counter.CntD3
  }

  function NextCounter(s: State, b: byte, env: Env): (r: Step)
    requires ValidState(s)
    ensures ValidState(r.state)
  {
    var v := s.counter;
    var done := s.(counter := v.(st := CounterDt), top := ClassTag);
    match v.st
    case CounterDt =>
      Step(if b == DT_COUNTER_CONFIG then s.(counter := v.(st := CounterConfig1))
           else if b == DT_COUNTER_READ then s.(counter := v.(st := CounterRead1))
           else s, [], [])
    case CounterConfig1 => Step(s.(counter := v.(pin := b, st := CounterConfig2)), [], [])
    case CounterConfig2 => Step(s.(counter := v.(options := b, st := CounterConfig3)), [], [])
    case CounterConfig3 =>
      var ok := b == Checksum([CT_COUNTER, DT_COUNTER_CONFIG, v.pin, v.options]) && (v.pin == 2 || v.pin == 3);
      Step(done, Frame(CT_COUNTER, DT_COUNTER_CONFIG, [Status(ok)]),
           if ok then [ConfigCounter(CntPinOf(v.pin), CounterOption(v.options, env.garbageOption))] else [])
    case CounterRead1 => Step(s.(counter := v.(pin := b, st := CounterRead2)), [], [])
    case CounterRead2 =>
      var ok := b == Checksum([CT_COUNTER, DT_COUNTER_READ, v.pin]) && (v.pin == 2 || v.pin == 3);
      if ok then Step(done, Frame(CT_COUNTER, DT_COUNTER_READ, [OK, env.counter]), [ReadCounter(CntPinOf(v.pin))])
      else Step(done, Frame(CT_COUNTER, DT_COUNTER_READ, [NOK, 0]), [])
  }
}
