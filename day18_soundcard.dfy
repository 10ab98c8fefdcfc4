/** The sound-card register machine: `snd`, `set`, `add`, `mul`, `mod`, `rcv` and `jgz`
    over named registers that default to zero, driven by an instruction pointer. */
module Soundcard {
  import opened Common
  import Text
  import Decimal
  import opened Arith

  const I64Min: int := -0x8000_0000_0000_0000
  const I64Max: int := 0x7FFF_FFFF_FFFF_FFFF

  /** An operand: a register name or a 64-bit literal. */
  datatype RegisterValue = Register(name: string) | Value(n: int)

  datatype Instruction =
    | Sound(val: RegisterValue)
    | Set(reg: string, val: RegisterValue)
    | Add(reg: string, val: RegisterValue)
    | Mul(reg: string, val: RegisterValue)
    | Mod(reg: string, val: RegisterValue)
    | Recv(reg: string)
    | Jump(cond: RegisterValue, offset: RegisterValue)

  /** Rust's `str::parse::<i64>()`: a signed decimal literal within the 64-bit range. */
  function ParseI64(token: string): (r: Option<int>)
    ensures r.Some? ==> I64Min <= r.value <= I64Max
  {
    match Decimal.ParseSigned(token)
    case Some(n) => if I64Min <= n <= I64Max then Some(n) else None
    case None => None
  }

  /** `RegisterValue::parse`: a literal when the token reads as an `i64`, a register otherwise. */
  function ParseRegisterValue(token: string): (v: RegisterValue)
    ensures v.Register? ==> v.name == token
    ensures v.Value? ==> I64Min <= v.n <= I64Max
  {
    match ParseI64(token)
    case Some(n) => Value(n)
    case None => Register(token)
  }

  /** Every 64-bit integer, written in decimal, is read back as that literal. */
  lemma ParseRegisterValueLiteral(n: int)
    requires I64Min <= n <= I64Max
    ensures ParseRegisterValue(Decimal.ShowInt(n)) == Value(n)
  {
    Decimal.ParseShowInt(n);
  }

  /** A token that does not start with a sign or a digit always names a register. */
  lemma ParseRegisterValueName(token: string)
    requires |token| > 0 && !Decimal.IsDigit(token[0]) && token[0] != '-' && token[0] != '+'
    ensures ParseRegisterValue(token) == Register(token)
  {
  }

  /** `SoundcardInstruction::parse`: the first space-separated token selects the opcode. */
  function ParseInstruction(line: string): Result<Option<Instruction>>
  {
    ParseTokens(Text.Split(line, {' '}))
  }

  /** A line is skipped (parsed to nothing) exactly when its first token is not a mnemonic. */
  lemma UnknownOpcodeSkipped(line: string)
    ensures var r := ParseInstruction(line);
      r.Ok? && r.value.None? <==> Text.Split(line, {' '})[0] !in Opcodes
  {
    OpcodeOfKnown(Text.Split(line, {' '})[0]);
  }

  /** The seven opcodes. */
  datatype Opcode = Snd | SetOp | AddOp | MulOp | ModOp | Rcv | Jgz

  /** The opcode a mnemonic selects, if any. */
  function OpcodeOf(mnemonic: string): Option<Opcode>
  {
    if mnemonic == "snd" then Some(Snd)
    else if mnemonic == "set" then Some(SetOp)
    else if mnemonic == "add" then Some(AddOp)
    else if mnemonic == "mul" then Some(MulOp)
    else if mnemonic == "mod" then Some(ModOp)
    else if mnemonic == "rcv" then Some(Rcv)
    else if mnemonic == "jgz" then Some(Jgz)
    else None
  }

  const Opcodes: set<string> := {"snd", "set", "add", "mul", "mod", "rcv", "jgz"}

  /** The mnemonics are exactly the seven opcode names. */
  lemma OpcodeOfKnown(mnemonic: string)
    ensures OpcodeOf(mnemonic).None? <==> mnemonic !in Opcodes
  {
  }

  /** How many operand tokens an opcode takes. */
  function Arity(op: Opcode): nat
  {
    if op == Snd || op == Rcv then 1 else 2
  }

  /** The instruction an opcode builds from its operand tokens. */
  function Build(op: Opcode, parts: seq<string>): Instruction
    requires |parts| > Arity(op)
  {
    match op
    case Snd => Sound(ParseRegisterValue(parts[1]))
    case SetOp => Set(parts[1], ParseRegisterValue(parts[2]))
    case AddOp => Add(parts[1], ParseRegisterValue(parts[2]))
    case MulOp => Mul(parts[1], ParseRegisterValue(parts[2]))
    case ModOp => Mod(parts[1], ParseRegisterValue(parts[2]))
    case Rcv => Recv(parts[1])
    case Jgz => Jump(ParseRegisterValue(parts[1]), ParseRegisterValue(parts[2]))
  }

  /** The opcode dispatch of `SoundcardInstruction::parse` on the line's tokens. An unknown
      opcode gives `None`; a missing operand is the `unwrap` panic (`Err`); tokens beyond
      the operands are ignored. */
  function ParseTokens(parts: seq<string>): Result<Option<Instruction>>
    requires |parts| >= 1
  {
    match OpcodeOf(parts[0])
    case None => Ok(None)
    case Some(op) => if |parts| <= Arity(op) then Err("missing operand") else Ok(Some(Build(op, parts)))
  }

  /** The program-text spelling of an operand. */
  function ShowValue(v: RegisterValue): string
  {
    match v
    case Register(name) => name
    case Value(n) => Decimal.ShowInt(n)
  }

  /** The tokens of an instruction's program-text line. */
  function Tokens(i: Instruction): seq<string>
  {
    match i
    case Sound(v) => ["snd", ShowValue(v)]
    case Set(r, v) => ["set", r, ShowValue(v)]
    case Add(r, v) => ["add", r, ShowValue(v)]
    case Mul(r, v) => ["mul", r, ShowValue(v)]
    case Mod(r, v) => ["mod", r, ShowValue(v)]
    case Recv(r) => ["rcv", r]
    case Jump(c, o) => ["jgz", ShowValue(c), ShowValue(o)]
  }

  /** The program-text line of an instruction: its tokens separated by single spaces. */
  function ShowInstruction(i: Instruction): string
  {
    Text.Join(Tokens(i), ' ')
  }

  /** A register name the text format can carry: no space in it, and not readable as a literal. */
  predicate WellFormedName(name: string)
  {
    ' ' !in name && ParseI64(name).None?
  }

  predicate WellFormedValue(v: RegisterValue)
  {
    match v
    case Register(name) => WellFormedName(name)
    case Value(n) => I64Min <= n <= I64Max
  }

  predicate WellFormed(i: Instruction)
  {
    match i
    case Sound(v) => WellFormedValue(v)
    case Set(r, v) => ' ' !in r && WellFormedValue(v)
    case Add(r, v) => ' ' !in r && WellFormedValue(v)
    case Mul(r, v) => ' ' !in r && WellFormedValue(v)
    case Mod(r, v) => ' ' !in r && WellFormedValue(v)
    case Recv(r) => ' ' !in r
    case Jump(c, o) => WellFormedValue(c) && WellFormedValue(o)
  }

  lemma ShowValueParses(v: RegisterValue)
    requires WellFormedValue(v)
    ensures ' ' !in ShowValue(v)
    ensures ParseRegisterValue(ShowValue(v)) == v
  {
    if v.Value? {
      Decimal.ParseShowInt(v.n);
      Decimal.ShowIntChars(v.n);
    }
  }

  /** The token dispatch reads an instruction's own tokens back as that instruction. */
  lemma ParseTokensOf(i: Instruction)
    requires WellFormed(i)
    ensures ParseTokens(Tokens(i)) == Ok(Some(i))
  {
    match i {
      case Sound(v) => ParseSoundTokens(v);
      case Recv(r) => ParseRecvTokens(r);
      case Jump(c, o) => ParseJumpTokens(c, o);
      case Set(r, v) => ParseSetTokens(r, v);
      case Add(r, v) => ParseAddTokens(r, v);
      case Mul(r, v) => ParseMulTokens(r, v);
      case Mod(r, v) => ParseModTokens(r, v);
    }
  }

  /** Token lists whose first token is a mnemonic and that carry enough operands are built
      into that opcode's instruction. */
  lemma ParseTokensKnown(parts: seq<string>, op: Opcode)
    requires |parts| > Arity(op) && OpcodeOf(parts[0]) == Some(op)
    ensures ParseTokens(parts) == Ok(Some(Build(op, parts)))
  {
  }

  lemma ParseSoundTokens(v: RegisterValue)
    requires WellFormedValue(v)
    ensures ParseTokens(Tokens(Sound(v))) == Ok(Some(Sound(v)))
  {
    assert OpcodeOf("snd") == Some(Snd);
    ParseTokensKnown(Tokens(Sound(v)), Snd);
    ShowValueParses(v);
  }

  lemma ParseRecvTokens(r: string)
    ensures ParseTokens(Tokens(Recv(r))) == Ok(Some(Recv(r)))
  {
    assert OpcodeOf("rcv") == Some(Rcv);
    ParseTokensKnown(Tokens(Recv(r)), Rcv);
  }

  lemma ParseJumpTokens(c: RegisterValue, o: RegisterValue)
    requires WellFormedValue(c) && WellFormedValue(o)
    ensures ParseTokens(Tokens(Jump(c, o))) == Ok(Some(Jump(c, o)))
  {
    assert OpcodeOf("jgz") == Some(Jgz);
    ParseTokensKnown(Tokens(Jump(c, o)), Jgz);
    ShowValueParses(c);
    ShowValueParses(o);
  }

  lemma ParseSetTokens(r: string, v: RegisterValue)
    requires WellFormedValue(v)
    ensures ParseTokens(Tokens(Set(r, v))) == Ok(Some(Set(r, v)))
  {
    assert OpcodeOf("set") == Some(SetOp);
    ParseTokensKnown(Tokens(Set(r, v)), SetOp);
    ShowValueParses(v);
  }

  lemma ParseAddTokens(r: string, v: RegisterValue)
    requires WellFormedValue(v)
    ensures ParseTokens(Tokens(Add(r, v))) == Ok(Some(Add(r, v)))
  {
    assert OpcodeOf("add") == Some(AddOp);
    ParseTokensKnown(Tokens(Add(r, v)), AddOp);
    ShowValueParses(v);
  }

  lemma ParseMulTokens(r: string, v: RegisterValue)
    requires WellFormedValue(v)
    ensures ParseTokens(Tokens(Mul(r, v))) == Ok(Some(Mul(r, v)))
  {
    assert OpcodeOf("mul") == Some(MulOp);
    ParseTokensKnown(Tokens(Mul(r, v)), MulOp);
    ShowValueParses(v);
  }

  lemma ParseModTokens(r: string, v: RegisterValue)
    requires WellFormedValue(v)
    ensures ParseTokens(Tokens(Mod(r, v))) == Ok(Some(Mod(r, v)))
  {
    assert OpcodeOf("mod") == Some(ModOp);
    ParseTokensKnown(Tokens(Mod(r, v)), ModOp);
    ShowValueParses(v);
  }

  /** Parsing the spelling of a well-formed instruction gives the instruction back. */
  lemma ParseShowInstruction(i: Instruction)
    requires WellFormed(i)
    ensures ParseInstruction(ShowInstruction(i)) == Ok(Some(i))
  {
    SplitShow(i);
    ParseTokensOf(i);
  }

  /** The spelling of a well-formed instruction splits on spaces into its tokens. */
  lemma SplitShow(i: Instruction)
    requires WellFormed(i)
    ensures Text.Split(ShowInstruction(i), {' '}) == Tokens(i)
  {
    TokensSpaceFree(i);
    Text.SplitJoin(Tokens(i), ' ', {' '});
  }

  /** No token of a well-formed instruction holds a space. */
  lemma TokensSpaceFree(i: Instruction)
    requires WellFormed(i)
    ensures |Tokens(i)| >= 1
    ensures forall k :: 0 <= k < |Tokens(i)| ==> forall c :: c in Tokens(i)[k] ==> c !in {' '}
  {
    match i {
      case Sound(v) => ShowValueParses(v);
      case Set(r, v) => ShowValueParses(v);
      case Add(r, v) => ShowValueParses(v);
      case Mul(r, v) => ShowValueParses(v);
      case Mod(r, v) => ShowValueParses(v);
      case Recv(r) =>
      case Jump(c, o) => ShowValueParses(c); ShowValueParses(o);
    }
  }

  /** The tested lines `snd 14` and `snd x` are the spellings of the stated instructions,
      so by `ParseShowInstruction` they parse to them. */
  lemma SoundSpellings()
    ensures ShowInstruction(Sound(Value(14))) == "snd 14" && WellFormed(Sound(Value(14)))
    ensures ShowInstruction(Sound(Register("x"))) == "snd x" && WellFormed(Sound(Register("x")))
  {
    assert Decimal.ShowInt(14) == "14";
  }

  /** The tested lines `set a 13` and `set a x`, likewise. */
  lemma SetSpellings()
    ensures ShowInstruction(Set("a", Value(13))) == "set a 13" && WellFormed(Set("a", Value(13)))
    ensures ShowInstruction(Set("a", Register("x"))) == "set a x" && WellFormed(Set("a", Register("x")))
  {
    assert Decimal.ShowInt(13) == "13";
  }

  // ---------------------------------------------------------------------------------------
  // Register file and operand resolution

  /** `resolve_value`: a literal is itself, a register is its current value (0 if never set). */
  function Resolve(registers: map<string, int>, v: RegisterValue): (r: int)
    ensures v.Value? ==> r == v.n
    ensures v.Register? ==> r == ValueOrZero(registers, v.name)
  {
    match v
    case Value(n) => n
    case Register(name) => ValueOrZero(registers, name)
  }

  /** After `set_register(r, v)` reading `r` gives `v` and every other register is unchanged. */
  lemma SetThenGet(registers: map<string, int>, reg: string, v: int, other: string)
    ensures ValueOrZero(registers[reg := v], reg) == v
    ensures other != reg ==> ValueOrZero(registers[reg := v], other) == ValueOrZero(registers, other)
  {
  }

  // ---------------------------------------------------------------------------------------
  // Execution

  /** The machine's state during `run`: its registers, its last sound and the pointer. */
  datatype Cpu = Cpu(registers: map<string, int>, sound: Option<int>, pointer: int)

  /** Why `run` stopped: the pointer left the program, a `rcv` of a non-zero register,
      a `mod` by zero (a Rust panic), or the step budget of the model ran out. */
  datatype Halt = Exited | Recovered | ModByZero | OutOfFuel

  datatype StepResult = Next(cpu: Cpu) | Stop(halt: Halt)

  predicate InRange(prog: seq<Instruction>, pointer: int)
  {
    0 <= pointer < |prog|
  }

  /** One iteration of the `while` loop in `Machine::run`. */
  function Step(prog: seq<Instruction>, c: Cpu): StepResult
    requires InRange(prog, c.pointer)
  {
    var regs := c.registers;
    match prog[c.pointer]
    case Sound(v) => Next(Cpu(regs, Some(Resolve(regs, v)), c.pointer + 1))
    case Set(r, v) => Next(Cpu(regs[r := Resolve(regs, v)], c.sound, c.pointer + 1))
    case Add(r, v) => Next(Cpu(regs[r := ValueOrZero(regs, r) + Resolve(regs, v)], c.sound, c.pointer + 1))
    case Mul(r, v) => Next(Cpu(regs[r := ValueOrZero(regs, r) * Resolve(regs, v)], c.sound, c.pointer + 1))
    case Mod(r, v) =>
      var d := Resolve(regs, v);
      if d == 0 then Stop(ModByZero)
      else Next(Cpu(regs[r := TruncRem(ValueOrZero(regs, r), d)], c.sound, c.pointer + 1))
    case Recv(r) => if ValueOrZero(regs, r) != 0 then Stop(Recovered) else Next(Cpu(regs, c.sound, c.pointer + 1))
    case Jump(cond, off) =>
      Next(Cpu(regs, c.sound, c.pointer + (if Resolve(regs, cond) > 0 then Resolve(regs, off) else 1)))
  }

  /** How far one step moves the pointer: exactly 1, except a `jgz` whose condition is
      positive, which moves it by its offset. Only `snd` changes the sound, to the value sent. */
  lemma StepMovesPointer(prog: seq<Instruction>, c: Cpu)
    requires InRange(prog, c.pointer) && Step(prog, c).Next?
    ensures var n := Step(prog, c).cpu;
      (if prog[c.pointer].Jump? && Resolve(c.registers, prog[c.pointer].cond) > 0
       then n.pointer == c.pointer + Resolve(c.registers, prog[c.pointer].offset)
       else n.pointer == c.pointer + 1) &&
      (if prog[c.pointer].Sound? then n.sound == Some(Resolve(c.registers, prog[c.pointer].val))
       else n.sound == c.sound)
  {
  }

  /** Only the written register changes; `snd`, `rcv` and `jgz` change no register. */
  lemma StepRegisters(prog: seq<Instruction>, c: Cpu, other: string)
    requires InRange(prog, c.pointer) && Step(prog, c).Next?
    requires !(prog[c.pointer].Set? || prog[c.pointer].Add? || prog[c.pointer].Mul? || prog[c.pointer].Mod?)
      || other != prog[c.pointer].reg
    ensures ValueOrZero(Step(prog, c).cpu.registers, other) == ValueOrZero(c.registers, other)
  {
  }

  /** `run` with a budget of `fuel` steps: runs while the pointer is in `[0, len)`. */
  function Execute(prog: seq<Instruction>, c: Cpu, fuel: nat): (r: (Cpu, Halt))
    ensures r.1 == Exited ==> !InRange(prog, r.0.pointer)
    ensures r.1 == Recovered ==> InRange(prog, r.0.pointer) && prog[r.0.pointer].Recv?
                                 && ValueOrZero(r.0.registers, prog[r.0.pointer].reg) != 0
    ensures r.1 == ModByZero ==> InRange(prog, r.0.pointer) && prog[r.0.pointer].Mod?
                                 && Resolve(r.0.registers, prog[r.0.pointer].val) == 0
    decreases fuel
  {
    if !InRange(prog, c.pointer) then (c, Exited)
    else if fuel == 0 then (c, OutOfFuel)
    else match Step(prog, c)
      case Next(c') => Execute(prog, c', fuel - 1)
      case Stop(h) => (c, h)
  }

  /** Sound is the value of the most recent `snd`: a program with no `snd` never changes it. */
  lemma {:induction false} NoSoundKeepsSound(prog: seq<Instruction>, c: Cpu, fuel: nat)
    requires forall k :: 0 <= k < |prog| ==> !prog[k].Sound?
    ensures Execute(prog, c, fuel).0.sound == c.sound
    decreases fuel
  {
    if InRange(prog, c.pointer) && fuel > 0 && Step(prog, c).Next? {
      NoSoundKeepsSound(prog, Step(prog, c).cpu, fuel - 1);
    }
  }

  /** More fuel never changes a run that already stopped for a reason of its own. */
  lemma {:induction false} ExecuteMoreFuel(prog: seq<Instruction>, c: Cpu, fuel: nat, more: nat)
    requires Execute(prog, c, fuel).1 != OutOfFuel
    requires fuel <= more
    ensures Execute(prog, c, more) == Execute(prog, c, fuel)
    decreases fuel
  {
    if InRange(prog, c.pointer) && Step(prog, c).Next? {
      ExecuteMoreFuel(prog, Step(prog, c).cpu, fuel - 1, more - 1);
    }
  }

  /** The tested ten-line program stops at its `rcv` with sound 4. */
  lemma SampleProgram()
    ensures var r := Execute(Sample, Cpu(map[], None, 0), 13);
      r.0.sound == Some(4) && r.1 == Recovered
  {
    SampleStepsStart();
    SampleStepsMiddle();
    SampleStepsEnd();
    ExecuteNext(Sample, SampleCpu(0), 13, SampleCpu(1));
    ExecuteNext(Sample, SampleCpu(1), 12, SampleCpu(2));
    ExecuteNext(Sample, SampleCpu(2), 11, SampleCpu(3));
    ExecuteNext(Sample, SampleCpu(3), 10, SampleCpu(4));
    ExecuteNext(Sample, SampleCpu(4), 9, SampleCpu(5));
    ExecuteNext(Sample, SampleCpu(5), 8, SampleCpu(6));
    ExecuteNext(Sample, SampleCpu(6), 7, SampleCpu(7));
    ExecuteNext(Sample, SampleCpu(7), 6, SampleCpu(8));
    ExecuteNext(Sample, SampleCpu(8), 5, SampleCpu(9));
    ExecuteNext(Sample, SampleCpu(9), 4, SampleCpu(10));
    ExecuteNext(Sample, SampleCpu(10), 3, SampleCpu(11));
  }

  /** The machine states the sample passes through, each register map written as the
      updates that lead to it. */
  function SampleCpu(k: nat): Cpu
  {
    var m4 := map[]["a" := 1]["a" := 3]["a" := 9]["a" := 4];
    var m6 := m4["a" := 0];
    var m9 := m6["a" := 1];
    if k == 0 then Cpu(map[], None, 0)
    else if k == 1 then Cpu(map[]["a" := 1], None, 1)
    else if k == 2 then Cpu(map[]["a" := 1]["a" := 3], None, 2)
    else if k == 3 then Cpu(map[]["a" := 1]["a" := 3]["a" := 9], None, 3)
    else if k == 4 then Cpu(m4, None, 4)
    else if k == 5 then Cpu(m4, Some(4), 5)
    else if k == 6 then Cpu(m6, Some(4), 6)
    else if k == 7 then Cpu(m6, Some(4), 7)
    else if k == 8 then Cpu(m6, Some(4), 8)
    else if k == 9 then Cpu(m9, Some(4), 9)
    else if k == 10 then Cpu(m9, Some(4), 7)
    else Cpu(m9, Some(4), 6)
  }

  /** `set a 1`, `add a 2`, `mul a a`, `mod a 5`: a = 4. */
  lemma SampleStepsStart()
    ensures InRange(Sample, 0) && Step(Sample, SampleCpu(0)) == Next(SampleCpu(1))
    ensures InRange(Sample, 1) && Step(Sample, SampleCpu(1)) == Next(SampleCpu(2))
    ensures InRange(Sample, 2) && Step(Sample, SampleCpu(2)) == Next(SampleCpu(3))
    ensures InRange(Sample, 3) && Step(Sample, SampleCpu(3)) == Next(SampleCpu(4))
  {
  }

  /** `snd a` plays 4, `set a 0`, `rcv a` with a = 0 goes on, `jgz a -1` is not taken. */
  lemma SampleStepsMiddle()
    ensures InRange(Sample, 4) && Step(Sample, SampleCpu(4)) == Next(SampleCpu(5))
    ensures InRange(Sample, 5) && Step(Sample, SampleCpu(5)) == Next(SampleCpu(6))
    ensures InRange(Sample, 6) && Step(Sample, SampleCpu(6)) == Next(SampleCpu(7))
    ensures InRange(Sample, 7) && Step(Sample, SampleCpu(7)) == Next(SampleCpu(8))
  {
  }

  /** `set a 1`, `jgz a -2` is taken back to `jgz a -1`, which is taken back to `rcv a`,
      which recovers. */
  lemma SampleStepsEnd()
    ensures InRange(Sample, 8) && Step(Sample, SampleCpu(8)) == Next(SampleCpu(9))
    ensures InRange(Sample, 9) && Step(Sample, SampleCpu(9)) == Next(SampleCpu(10))
    ensures InRange(Sample, 7) && Step(Sample, SampleCpu(10)) == Next(SampleCpu(11))
    ensures InRange(Sample, 6) && Step(Sample, SampleCpu(11)) == Stop(Recovered)
  {
  }

  /** A step that continues leaves the rest of the run to the next state, with one step less. */
  lemma ExecuteNext(prog: seq<Instruction>, c: Cpu, fuel: nat, next: Cpu)
    requires InRange(prog, c.pointer) && fuel > 0 && Step(prog, c) == Next(next)
    ensures Execute(prog, c, fuel) == Execute(prog, next, fuel - 1)
  {
  }

  /** `set a 1 / add a 2 / mul a a / mod a 5 / snd a / set a 0 / rcv a / jgz a -1 / set a 1 / jgz a -2` */
  const Sample: seq<Instruction> := [
    Set("a", Value(1)), Add("a", Value(2)), Mul("a", Register("a")), Mod("a", Value(5)),
    Sound(Register("a")), Set("a", Value(0)), Recv("a"), Jump(Register("a"), Value(-1)),
    Set("a", Value(1)), Jump(Register("a"), Value(-2))
  ]

  /** The interpreter object: its registers and the last sound played. */
  class Machine {
    var registers: map<string, int>
    var sound: Option<int>

    constructor ()
      ensures registers == map[] && sound == None
    {
      registers := map[];
      sound := None;
    }

    function GetRegister(reg: string): int
      reads this
    {
      ValueOrZero(registers, reg)
    }

    function ResolveValue(v: RegisterValue): int
      reads this
    {
      Resolve(registers, v)
    }

    method SetRegister(reg: string, value: int)
      modifies this
      ensures registers == old(registers)[reg := value] && sound == old(sound)
      ensures GetRegister(reg) == value
      ensures forall other :: other != reg ==> GetRegister(other) == old(GetRegister(other))
    {
      registers := registers[reg := value];
    }

    /** `Machine::run`, allowed at most `fuel` steps: the registers and sound end as
        `Execute` says, and the reason it stopped is returned. */
    method Run(prog: seq<Instruction>, fuel: nat) returns (halt: Halt)
      modifies this
      ensures var r := Execute(prog, Cpu(old(registers), old(sound), 0), fuel);
        registers == r.0.registers && sound == r.0.sound && halt == r.1
    {
      var pointer := 0;
      var left := fuel;
      while InRange(prog, pointer) && left > 0
        invariant Execute(prog, Cpu(registers, sound, pointer), left)
               == Execute(prog, Cpu(old(registers), old(sound), 0), fuel)
        decreases left
      {
        var c := Cpu(registers, sound, pointer);
        match prog[pointer] {
          case Sound(v) =>
            sound := Some(ResolveValue(v));
            pointer := pointer + 1;
          case Set(r, v) =>
            SetRegister(r, ResolveValue(v));
            pointer := pointer + 1;
          case Add(r, v) =>
            SetRegister(r, GetRegister(r) + ResolveValue(v));
            pointer := pointer + 1;
          case Mul(r, v) =>
            SetRegister(r, GetRegister(r) * ResolveValue(v));
            pointer := pointer + 1;
          case Mod(r, v) =>
            var d := ResolveValue(v);
            if d == 0 {
              return ModByZero;
            }
            SetRegister(r, TruncRem(GetRegister(r), d));
            pointer := pointer + 1;
          case Recv(r) =>
            if GetRegister(r) != 0 {
              return Recovered;
            }
            pointer := pointer + 1;
          case Jump(cond, off) =>
            if ResolveValue(cond) > 0 {
              pointer := pointer + ResolveValue(off);
            } else {
              pointer := pointer + 1;
            }
        }
        assert Step(prog, c) == Next(Cpu(registers, sound, pointer));
        left := left - 1;
      }
      halt := if InRange(prog, pointer) then OutOfFuel else Exited;
    }
  }
}
