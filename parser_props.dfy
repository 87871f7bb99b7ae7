/**
 * Properties of the firmware parser model: how the class-tag state
 * dispatches, that unknown data tags keep the parser in its subsystem,
 * that every completed frame is answered by exactly one well-formed reply
 * and resets the parser, and what each request frame fed to an idle
 * parser produces.
 */
module ParserProps {
  import opened Bytes
  import opened Tags
  import opened ParserSpec
  import Gpio
  import Analog

  // ------------------------------------------------------------ running

  function Glue(first: Step, rest: Step): Step
  {
    Step(rest.state, first.reply + rest.reply, first.calls + rest.calls)
  }

  /** One byte, then the rest. */
  lemma RunCons(s: State, x: byte, rest: seq<byte>, envs: seq<Env>)
    requires ValidState(s) && |envs| == |rest| + 1
    ensures Run(s, [x] + rest, envs) ==
      Glue(Next(s, x, envs[0]), Run(Next(s, x, envs[0]).state, rest, envs[1..]))
  {
    assert ([x] + rest)[1..] == rest;
  }

  /** A byte that produces no reply and no call only moves the state. */
  lemma RunQuiet(s: State, x: byte, rest: seq<byte>, envs: seq<Env>)
    requires ValidState(s) && |envs| == |rest| + 1
    requires Next(s, x, envs[0]).reply == [] && Next(s, x, envs[0]).calls == []
    ensures Run(s, [x] + rest, envs) == Run(Next(s, x, envs[0]).state, rest, envs[1..])
  {
    RunCons(s, x, rest, envs);
    GlueQuiet(Next(s, x, envs[0]), Run(Next(s, x, envs[0]).state, rest, envs[1..]));
  }

  /** A step with no reply and no call adds nothing in front of the next. */
  lemma GlueQuiet(first: Step, rest: Step)
    requires first.reply == [] && first.calls == []
    ensures Glue(first, rest) == rest
  {
    assert first.reply + rest.reply == rest.reply;
    assert first.calls + rest.calls == rest.calls;
  }

  /** The last byte alone. */
  lemma RunOne(s: State, x: byte, envs: seq<Env>)
    requires ValidState(s) && |envs| == 1
    ensures Run(s, [x], envs) == Next(s, x, envs[0])
  {
    RunCons(s, x, [], envs);
    var st := Next(s, x, envs[0]);
    assert st.reply + [] == st.reply && st.calls + [] == st.calls;
  }

  /**
   * A frame of two to six bytes whose leading bytes only move the state
   * answers whatever its last byte answers.
   */
  lemma Run2(s: State, x0: byte, x1: byte, envs: seq<Env>, t1: State)
    requires ValidState(s) && |envs| == 2
    requires Next(s, x0, envs[0]) == Step(t1, [], [])
    ensures Run(s, [x0, x1], envs) == Next(t1, x1, envs[1])
  {
    assert [x0, x1] == [x0] + [x1];
    RunQuiet(s, x0, [x1], envs);
    RunOne(t1, x1, envs[1..]);
  }

  lemma Run3(s: State, x0: byte, x1: byte, x2: byte, envs: seq<Env>, t1: State, t2: State)
    requires ValidState(s) && |envs| == 3
    requires Next(s, x0, envs[0]) == Step(t1, [], [])
    requires ValidState(t1) && Next(t1, x1, envs[1]) == Step(t2, [], [])
    ensures Run(s, [x0, x1, x2], envs) == Next(t2, x2, envs[2])
  {
    assert [x0, x1, x2] == [x0] + [x1, x2];
    RunQuiet(s, x0, [x1, x2], envs);
    Run2(t1, x1, x2, envs[1..], t2);
  }

  lemma Run4(s: State, x0: byte, x1: byte, x2: byte, x3: byte, envs: seq<Env>, t1: State, t2: State, t3: State)
    requires ValidState(s) && |envs| == 4
    requires Next(s, x0, envs[0]) == Step(t1, [], [])
    requires ValidState(t1) && Next(t1, x1, envs[1]) == Step(t2, [], [])
    requires ValidState(t2) && Next(t2, x2, envs[2]) == Step(t3, [], [])
    ensures Run(s, [x0, x1, x2, x3], envs) == Next(t3, x3, envs[3])
  {
    assert [x0, x1, x2, x3] == [x0] + [x1, x2, x3];
    RunQuiet(s, x0, [x1, x2, x3], envs);
    Run3(t1, x1, x2, x3, envs[1..], t2, t3);
  }

  lemma Run5(s: State, x0: byte, x1: byte, x2: byte, x3: byte, x4: byte, envs: seq<Env>,
             t1: State, t2: State, t3: State, t4: State)
    requires ValidState(s) && |envs| == 5
    requires Next(s, x0, envs[0]) == Step(t1, [], [])
    requires ValidState(t1) && Next(t1, x1, envs[1]) == Step(t2, [], [])
    requires ValidState(t2) && Next(t2, x2, envs[2]) == Step(t3, [], [])
    requires ValidState(t3) && Next(t3, x3, envs[3]) == Step(t4, [], [])
    ensures Run(s, [x0, x1, x2, x3, x4], envs) == Next(t4, x4, envs[4])
  {
    assert [x0, x1, x2, x3, x4] == [x0] + [x1, x2, x3, x4];
    RunQuiet(s, x0, [x1, x2, x3, x4], envs);
    Run4(t1, x1, x2, x3, x4, envs[1..], t2, t3, t4);
  }

  lemma Run6(s: State, x0: byte, x1: byte, x2: byte, x3: byte, x4: byte, x5: byte, envs: seq<Env>,
             t1: State, t2: State, t3: State, t4: State, t5: State)
    requires ValidState(s) && |envs| == 6
    requires Next(s, x0, envs[0]) == Step(t1, [], [])
    requires ValidState(t1) && Next(t1, x1, envs[1]) == Step(t2, [], [])
    requires ValidState(t2) && Next(t2, x2, envs[2]) == Step(t3, [], [])
    requires ValidState(t3) && Next(t3, x3, envs[3]) == Step(t4, [], [])
    requires ValidState(t4) && Next(t4, x4, envs[4]) == Step(t5, [], [])
    ensures Run(s, [x0, x1, x2, x3, x4, x5], envs) == Next(t5, x5, envs[5])
  {
    assert [x0, x1, x2, x3, x4, x5] == [x0] + [x1, x2, x3, x4, x5];
    RunQuiet(s, x0, [x1, x2, x3, x4, x5], envs);
    Run5(t1, x1, x2, x3, x4, x5, envs[1..], t2, t3, t4, t5);
  }

  /** Running two inputs one after the other is running their concatenation. */
  lemma {:induction false} RunAppend(s: State, a: seq<byte>, b: seq<byte>, ea: seq<Env>, eb: seq<Env>)
    requires ValidState(s) && |ea| == |a| && |eb| == |b|
    ensures Run(s, a + b, ea + eb) == Glue(Run(s, a, ea), Run(Run(s, a, ea).state, b, eb))
    decreases |a|
  {
    if a == [] {
      assert a + b == b;
      assert ea + eb == eb;
    } else {
      var st := Next(s, a[0], ea[0]);
      assert (a + b)[0] == a[0] && (ea + eb)[0] == ea[0];
      assert (a + b)[1..] == a[1..] + b;
      assert (ea + eb)[1..] == ea[1..] + eb;
      RunAppend(st.state, a[1..], b, ea[1..], eb);
      var r1 := Run(st.state, a[1..], ea[1..]);
      var r2 := Run(r1.state, b, eb);
      assert st.reply + (r1.reply + r2.reply) == (st.reply + r1.reply) + r2.reply;
      assert st.calls + (r1.calls + r2.calls) == (st.calls + r1.calls) + r2.calls;
    }
  }

  // ------------------------------------------------------------ dispatch

  /** The sub-parser a class tag selects. */
  function TopOf(b: byte): Top
    requires 1 <= b <= 6
  {
    if b == 1 then InMisc else if b == 2 then InGpio else if b == 3 then InAnalog
    else if b == 4 then InI2c else if b == 5 then InServo else InCounter
  }

  /** The class tag a sub-parser answers with. */
  function ClassOf(t: Top): byte
  {
    match t
    case ClassTag => 0
    case InMisc => CT_MISC
    case InGpio => CT_GPIO
    case InAnalog => CT_ANALOG
    case InI2c => CT_I2C
    case InServo => CT_SERVO
    case InCounter => CT_COUNTER
  }

  /**
   * In the class-tag state a byte 1..6 selects the matching sub-parser;
   * any other byte is dropped and nothing changes. No reply, no call.
   */
  lemma ClassTagDispatch(s: State, b: byte, env: Env)
    requires ValidState(s) && !s.halted && s.top == ClassTag
    ensures Next(s, b, env).reply == [] && Next(s, b, env).calls == []
    ensures 1 <= b <= 6 ==> Next(s, b, env).state == s.(top := TopOf(b))
    ensures !(1 <= b <= 6) ==> Next(s, b, env).state == s
    ensures ClassOf(Next(s, b, env).state.top) == (if 1 <= b <= 6 then b else ClassOf(s.top))
  {
  }

  /** The sub-parser of the selected subsystem waits for a data tag. */
  predicate AtDataTag(s: State)
  {
    match s.top
    case ClassTag => false
    case InMisc => s.misc == MiscDt
    case InGpio => s.gpio.st == GpioDt
    case InAnalog => s.analog.st == AnalogDt
    case InI2c => s.i2c.st == I2cDt
    case InServo => s.servo.st == ServoDt
    case InCounter => s.counter.st == CounterDt
  }

  /** The data tags each subsystem knows. */
  predicate KnownDataTag(t: Top, b: byte)
  {
    match t
    case ClassTag => false
    case InMisc => 1 <= b <= 3
    case InGpio => 1 <= b <= 3
    case InAnalog => 2 <= b <= 3
    case InI2c => 1 <= b <= 3
    case InServo => 1 <= b <= 2
    case InCounter => 1 <= b <= 2
  }

  /**
   * An unknown data tag is dropped but the parser stays in the subsystem,
   * still waiting for a data tag; a known one leaves the data-tag state.
   */
  lemma UnknownDataTag(s: State, b: byte, env: Env)
    requires ValidState(s) && !s.halted && AtDataTag(s)
    ensures Next(s, b, env).reply == [] && Next(s, b, env).calls == []
    ensures !KnownDataTag(s.top, b) <==> Next(s, b, env).state == s
    ensures Next(s, b, env).state.top == s.top
  {
  }

  // ----------------------------------------------------- terminal steps

  /** The last state of a frame: the next byte is the checksum byte. */
  predicate Terminal(s: State)
  {
    match s.top
    case ClassTag => false
    case InMisc => s.misc != MiscDt
    case InGpio => s.gpio.st in {GpioConfig3, GpioRead2, GpioWrite3}
    case InAnalog => s.analog.st in {AnalogRead2, AnalogReadAll1}
    case InI2c => s.i2c.st in {I2cConfig2, I2cRead4, I2cWrite5}
    case InServo => s.servo.st in {ServoConfig4, ServoSet4}
    case InCounter => s.counter.st in {CounterConfig3, CounterRead2}
  }

  /** The data tag of the frame a sub-parser is in. */
  function DataTagOf(s: State): byte
  {
    match s.top
    case ClassTag => 0
    case InMisc => if s.misc == MiscReset then 1 else if s.misc == MiscId then 2 else if s.misc == MiscTemp then 3 else 0
    case InGpio =>
      if s.gpio.st in {GpioConfig1, GpioConfig2, GpioConfig3} then 1
      else if s.gpio.st in {GpioRead1, GpioRead2} then 2
      else if s.gpio.st in {GpioWrite1, GpioWrite2, GpioWrite3} then 3 else 0
    case InAnalog =>
      if s.analog.st in {AnalogRead1, AnalogRead2} then 2 else if s.analog.st == AnalogReadAll1 then 3 else 0
    case InI2c =>
      if s.i2c.st in {I2cConfig1, I2cConfig2} then 1
      else if s.i2c.st in {I2cRead1, I2cRead2, I2cRead3, I2cRead4} then 2
      else if s.i2c.st in {I2cWrite1, I2cWrite2, I2cWrite3, I2cWrite4, I2cWrite5} then 3 else 0
    case InServo =>
      if s.servo.st in {ServoConfig1, ServoConfig2, ServoConfig3, ServoConfig4} then 1
      else if s.servo.st in {ServoSet1, ServoSet2, ServoSet3, ServoSet4} then 2 else 0
    case InCounter =>
      if s.counter.st in {CounterConfig1, CounterConfig2, CounterConfig3} then 1
      else if s.counter.st in {CounterRead1, CounterRead2} then 2 else 0
  }

  /** An I2C read whose length the firmware cannot answer (252 and up). */
  predicate LongI2cRead(s: State)
  {
    s.top == InI2c && s.i2c.st == I2cRead4 && s.i2c.length >= 252
  }

  /** Every step keeps the other sub-parsers at their data-tag state. */
  lemma NextConsistent(s: State, b: byte, env: Env)
    requires ValidState(s) && Consistent(s)
    ensures Consistent(Next(s, b, env).state)
  {
    if !s.halted {
      match s.top
      case ClassTag =>
      case InMisc => MiscConsistent(s, b, env);
      case InGpio => GpioConsistent(s, b, env);
      case InAnalog => AnalogConsistent(s, b, env);
      case InI2c => I2cConsistent(s, b, env);
      case InServo => ServoConsistent(s, b, env);
      case InCounter => CounterConsistent(s, b, env);
    }
  }

  lemma MiscConsistent(s: State, b: byte, env: Env)
    requires ValidState(s) && Consistent(s) && s.top == InMisc
    ensures Consistent(NextMisc(s, b, env).state)
  {
  }

  lemma GpioConsistent(s: State, b: byte, env: Env)
    requires ValidState(s) && Consistent(s) && s.top == InGpio
    ensures Consistent(NextGpio(s, b, env).state)
  {
  }

  lemma AnalogConsistent(s: State, b: byte, env: Env)
    requires ValidState(s) && Consistent(s) && s.top == InAnalog
    ensures Consistent(NextAnalog(s, b, env).state)
  {
  }

  lemma I2cConsistent(s: State, b: byte, env: Env)
    requires ValidState(s) && Consistent(s) && s.top == InI2c
    ensures Consistent(NextI2c(s, b, env).state)
  {
    if s.i2c.st == I2cRead4 {
      I2cReadConsistent(s, b, env);
    }
  }

  lemma I2cReadConsistent(s: State, b: byte, env: Env)
    requires ValidState(s) && Consistent(s) && s.top == InI2c && s.i2c.st == I2cRead4
    ensures Consistent(NextI2c(s, b, env).state)
  {
  }

  lemma ServoConsistent(s: State, b: byte, env: Env)
    requires ValidState(s) && Consistent(s) && s.top == InServo
    ensures Consistent(NextServo(s, b).state)
  {
  }

  lemma CounterConsistent(s: State, b: byte, env: Env)
    requires ValidState(s) && Consistent(s) && s.top == InCounter
    ensures Consistent(NextCounter(s, b, env).state)
  {
  }

  /** Only the checksum byte of a frame produces a reply or calls a driver. */
  lemma NonTerminalSilent(s: State, b: byte, env: Env)
    requires ValidState(s) && !Terminal(s)
    ensures Next(s, b, env).reply == [] && Next(s, b, env).calls == []
  {
    if !s.halted {
      match s.top
      case ClassTag =>
      case InMisc =>
      case InGpio => GpioSilent(s, b, env);
      case InAnalog =>
      case InI2c => I2cSilent(s, b, env);
      case InServo => ServoSilent(s, b);
      case InCounter => CounterSilent(s, b, env);
    }
  }

  lemma GpioSilent(s: State, b: byte, env: Env)
    requires ValidState(s) && s.top == InGpio && !Terminal(s)
    ensures NextGpio(s, b, env).reply == [] && NextGpio(s, b, env).calls == []
  {
    match s.gpio.st
    case GpioDt =>
    case GpioConfig1 =>
    case GpioConfig2 =>
    case GpioRead1 =>
    case GpioWrite1 =>
    case GpioWrite2 =>
  }

  lemma I2cSilent(s: State, b: byte, env: Env)
    requires ValidState(s) && s.top == InI2c && !Terminal(s)
    ensures NextI2c(s, b, env).reply == [] && NextI2c(s, b, env).calls == []
  {
    match s.i2c.st
    case I2cDt =>
    case I2cConfig1 =>
    case I2cRead1 =>
    case I2cRead2 =>
    case I2cRead3 =>
    case I2cWrite1 =>
    case I2cWrite2 =>
    case I2cWrite3 =>
    case I2cWrite4 =>
  }

  lemma ServoSilent(s: State, b: byte)
    requires ValidState(s) && s.top == InServo && !Terminal(s)
    ensures NextServo(s, b).reply == [] && NextServo(s, b).calls == []
  {
    match s.servo.st
    case ServoDt =>
    case ServoConfig1 =>
    case ServoConfig2 =>
    case ServoConfig3 =>
    case ServoSet1 =>
    case ServoSet2 =>
    case ServoSet3 =>
  }

  lemma CounterSilent(s: State, b: byte, env: Env)
    requires ValidState(s) && s.top == InCounter && !Terminal(s)
    ensures NextCounter(s, b, env).reply == [] && NextCounter(s, b, env).calls == []
  {
    match s.counter.st
    case CounterDt =>
    case CounterConfig1 =>
    case CounterConfig2 =>
    case CounterRead1 =>
  }

  /**
   * One reply frame answering the frame `s` was in: it echoes the class and
   * data tags, carries a status byte, ends in the checksum of the bytes
   * before it, and the parser is back at its initial states.
   */
  predicate AnswersFrame(s: State, r: Step)
  {
    && |r.reply| >= 4 && ChecksumOk(r.reply)
    && r.reply[0] == ClassOf(s.top) && r.reply[1] == DataTagOf(s)
    && (r.reply[2] == OK || r.reply[2] == NOK)
    && Idle(r.state)
  }

  /**
   * The checksum byte of a frame produces exactly one reply frame, whatever
   * its status, and resets both the sub-parser and `parse_state`. The
   * exceptions are I2C reads of length 252 and more. Only an accepted
   * reset leaves the device halted.
   */
  lemma TerminalReplies(s: State, b: byte, env: Env)
    requires ValidState(s) && Consistent(s) && !s.halted && Terminal(s) && !LongI2cRead(s)
    ensures AnswersFrame(s, Next(s, b, env))
    ensures Next(s, b, env).state.halted <==> s.top == InMisc && s.misc == MiscReset && Next(s, b, env).reply[2] == OK
  {
    match s.top
    case InMisc => MiscTerminal(s, b, env);
    case InGpio => GpioTerminal(s, b, env);
    case InAnalog => AnalogTerminal(s, b, env);
    case InI2c => I2cTerminal(s, b, env);
    case InServo => ServoTerminal(s, b);
    case InCounter => CounterTerminal(s, b, env);
  }

  lemma MiscTerminal(s: State, b: byte, env: Env)
    requires ValidState(s) && Consistent(s) && !s.halted && s.top == InMisc && Terminal(s)
    ensures AnswersFrame(s, NextMisc(s, b, env))
    ensures NextMisc(s, b, env).state.halted <==> s.misc == MiscReset && NextMisc(s, b, env).reply[2] == OK
  {
    match s.misc
    case MiscReset =>
    case MiscId =>
    case MiscTemp =>
  }

  lemma GpioTerminal(s: State, b: byte, env: Env)
    requires ValidState(s) && Consistent(s) && !s.halted && s.top == InGpio && Terminal(s)
    ensures AnswersFrame(s, NextGpio(s, b, env)) && !NextGpio(s, b, env).state.halted
  {
    if s.gpio.st == GpioRead2 {
      GpioReadTerminal(s, b, env);
    }
  }

  lemma GpioReadTerminal(s: State, b: byte, env: Env)
    requires ValidState(s) && Consistent(s) && !s.halted && s.top == InGpio && s.gpio.st == GpioRead2
    ensures AnswersFrame(s, NextGpio(s, b, env)) && !NextGpio(s, b, env).state.halted
  {
  }

  lemma AnalogTerminal(s: State, b: byte, env: Env)
    requires ValidState(s) && Consistent(s) && !s.halted && s.top == InAnalog && Terminal(s)
    ensures AnswersFrame(s, NextAnalog(s, b, env)) && !NextAnalog(s, b, env).state.halted
  {
    match s.analog.st
    case AnalogRead2 =>
    case AnalogReadAll1 =>
  }

  lemma I2cTerminal(s: State, b: byte, env: Env)
    requires ValidState(s) && Consistent(s) && !s.halted && s.top == InI2c && Terminal(s) && !LongI2cRead(s)
    ensures AnswersFrame(s, NextI2c(s, b, env)) && !NextI2c(s, b, env).state.halted
  {
    var v := s.i2c;
    match v.st
    case I2cConfig2 =>
    case I2cRead4 => I2cReadTerminal(s, b, env);
    case I2cWrite5 =>
  }

  lemma I2cReadTerminal(s: State, b: byte, env: Env)
    requires ValidState(s) && s.top == InI2c && s.i2c.st == I2cRead4 && s.i2c.length < 252
    requires Consistent(s) && !s.halted
    ensures AnswersFrame(s, NextI2c(s, b, env)) && !NextI2c(s, b, env).state.halted
  {
    var v := s.i2c;
    var ok := b == Checksum([CT_I2C, DT_I2C_READ, v.adr, v.offset, v.length]) && v.length != 0 && env.i2cReadOk;
    I2cReadSent(Status(ok), v.length, env);
    var r := NextI2c(s, b, env);
    assert r.reply == Frame(CT_I2C, DT_I2C_READ, I2cReadBody(Status(ok), v.length, env));
    assert r.state == s.(i2c := v.(st := I2cDt), top := ClassTag);
  }

  /** An I2C read reply shorter than 256 bytes goes out whole, its status at index 2. */
  lemma I2cReadSent(status: byte, length: byte, env: Env)
    requires length < 252
    ensures var f := Frame(CT_I2C, DT_I2C_READ, I2cReadBody(status, length, env));
      f[..(length + 4) % 0x100] == f && f[2] == status
  {
    var body := I2cReadBody(status, length, env);
    var f := Frame(CT_I2C, DT_I2C_READ, body);
    assert f[..(length + 4) % 0x100] == f;
    assert f[2] == f[2..|f| - 1][0];
  }

  lemma ServoTerminal(s: State, b: byte)
    requires ValidState(s) && Consistent(s) && !s.halted && s.top == InServo && Terminal(s)
    ensures AnswersFrame(s, NextServo(s, b)) && !NextServo(s, b).state.halted
  {
  }

  lemma CounterTerminal(s: State, b: byte, env: Env)
    requires ValidState(s) && Consistent(s) && !s.halted && s.top == InCounter && Terminal(s)
    ensures AnswersFrame(s, NextCounter(s, b, env)) && !NextCounter(s, b, env).state.halted
  {
    match s.counter.st
    case CounterConfig3 =>
    case CounterRead2 =>
  }

  /**
   * An I2C read of length 253..255 never replies: the checksum loop never
   * ends and the device stays halted. Length 252 replies with nothing,
   * since the reply size 256 does not fit `sendByteArray`'s 8-bit size.
   * Below that the reply is `length + 4` bytes.
   */
  lemma I2cReadReplyLength(s: State, b: byte, env: Env)
    requires ValidState(s) && Consistent(s) && !s.halted && s.top == InI2c && s.i2c.st == I2cRead4
    ensures var r := Next(s, b, env);
      && (s.i2c.length >= 253 ==> r.reply == [] && r.state.halted)
      && (s.i2c.length == 252 ==> r.reply == [] && Idle(r.state) && !r.state.halted)
      && (s.i2c.length < 252 ==> |r.reply| == s.i2c.length + 4 && !r.state.halted)
  {
  }

  /** A halted device ignores every byte. */
  lemma HaltedStays(s: State, input: seq<byte>, envs: seq<Env>)
    requires ValidState(s) && s.halted && |envs| == |input|
    ensures Run(s, input, envs) == Step(s, [], [])
    decreases |input|
  {
  }
}
