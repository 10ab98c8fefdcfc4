/** Day 8: a register machine whose instructions increase or decrease one register when a
    comparison on another register holds, remembering the highest value ever stored. */
module Registers {
  import opened Common
  import Text
  import Decimal

  datatype Operation = Inc | Dec

  datatype Comparator = Eq | Neq | Lt | Lte | Gt | Gte

  datatype Condition = Condition(register: string, comparator: Comparator, value: int)

  datatype Instruction = Instruction(register: string, operation: Operation, amount: int, condition: Condition)

  // ---------------------------------------------------------------------------------------
  // Parsing
  // ---------------------------------------------------------------------------------------

  const Comparators: set<string> := {"==", "!=", "<", "<=", ">", ">="}

  /** The comparator a token names. */
  function ComparatorOf(token: string): (r: Option<Comparator>)
    ensures r.Some? <==> token in Comparators
    ensures r.Some? ==> ComparatorText(r.value) == token
  {
    if token == "==" then Some(Eq)
    else if token == "!=" then Some(Neq)
    else if token == "<" then Some(Lt)
    else if token == "<=" then Some(Lte)
    else if token == ">" then Some(Gt)
    else if token == ">=" then Some(Gte)
    else None
  }

  function ComparatorText(c: Comparator): string
  {
    match c
    case Eq => "=="
    case Neq => "!="
    case Lt => "<"
    case Lte => "<="
    case Gt => ">"
    case Gte => ">="
  }

  /** The operation a token names. */
  function OperationOf(token: string): (r: Option<Operation>)
    ensures r.Some? <==> token == "inc" || token == "dec"
    ensures r.Some? ==> OperationText(r.value) == token
  {
    if token == "inc" then Some(Inc) else if token == "dec" then Some(Dec) else None
  }

  function OperationText(op: Operation): string
  {
    match op
    case Inc => "inc"
    case Dec => "dec"
  }

  /** A condition from its words `register comparator value`; words after the third are
      ignored. A missing word, an unknown comparator or a value that is not an integer is an
      error. */
  function ConditionOf(words: seq<string>): (r: Result<Condition>)
    ensures r.Ok? <==> |words| >= 3 && words[1] in Comparators && Decimal.ParseSigned(words[2]).Some?
    ensures r.Ok? ==>
      r.value.register == words[0] && ComparatorText(r.value.comparator) == words[1]
      && Decimal.ParseSigned(words[2]) == Some(r.value.value)
  {
    if |words| < 2 then Err("missing register or comparator")
    else match ComparatorOf(words[1])
      case None => Err("bad comparator")
      case Some(comparator) =>
        if |words| < 3 then Err("missing compare amount")
        else match Decimal.ParseSigned(words[2])
          case None => Err("couldn't parse compare amount")
          case Some(value) => Ok(Condition(words[0], comparator, value))
  }

  function ParseCondition(text: string): Result<Condition>
  {
    ConditionOf(Text.Words(text))
  }

  /** An instruction from the words `register operation amount` in front of its condition;
      words after the third are ignored. An operation other than `inc`/`dec`, a missing word
      or an amount that is not an integer is an error. */
  function ActionOf(words: seq<string>, condition: Condition): (r: Result<Instruction>)
    ensures r.Ok? <==> |words| >= 3 && (words[1] == "inc" || words[1] == "dec") && Decimal.ParseSigned(words[2]).Some?
    ensures r.Ok? ==>
      r.value.register == words[0] && OperationText(r.value.operation) == words[1]
      && Decimal.ParseSigned(words[2]) == Some(r.value.amount) && r.value.condition == condition
  {
    if |words| < 2 then Err("missing register or operation")
    else match OperationOf(words[1])
      case None => Err("Invalid operation")
      case Some(operation) =>
        if |words| < 3 then Err("missing amount")
        else match Decimal.ParseSigned(words[2])
          case None => Err("couldn't parse amount")
          case Some(amount) => Ok(Instruction(words[0], operation, amount, condition))
  }

  /** `register operation amount if condition`: the text is cut at the first " if ", the
      condition is read from what follows and the action from what precedes it. */
  function ParseInstruction(text: string): (r: Result<Instruction>)
    ensures Text.Find(text, " if ").None? ==> r.Err?
  {
    match Text.Find(text, " if ")
    case None => Err("missing ' if '")
    case Some(idx) =>
      match ParseCondition(text[idx + 4..])
      case Err(e) => Err(e)
      case Ok(condition) => ActionOf(Text.Words(text[..idx]), condition)
  }

  /** One instruction per line; a line that does not parse makes the program an error. */
  function ParseProgram(input: string): Result<seq<Instruction>>
  {
    MapAll(Text.Lines(input), ParseInstruction)
  }

  // ---------------------------------------------------------------------------------------
  // Spelling, and parsing it back
  // ---------------------------------------------------------------------------------------

  function ShowCondition(c: Condition): string
  {
    Text.Join([c.register, ComparatorText(c.comparator), Decimal.ShowInt(c.value)], ' ')
  }

  function ActionText(i: Instruction): string
  {
    Text.Join([i.register, OperationText(i.operation), Decimal.ShowInt(i.amount)], ' ')
  }

  function ShowInstruction(i: Instruction): string
  {
    ActionText(i) + " if " + ShowCondition(i.condition)
  }

  /** A register name is one non-empty word. */
  predicate WellFormedName(name: string)
  {
    name != [] && forall c :: c in name ==> c !in Text.Whitespace
  }

  predicate WellFormed(i: Instruction)
  {
    WellFormedName(i.register) && WellFormedName(i.condition.register)
  }

  lemma ShowIntIsWord(n: int)
    ensures Decimal.ShowInt(n) != [] && forall c :: c in Decimal.ShowInt(n) ==> c !in Text.Whitespace
  {
    Decimal.ShowIntChars(n);
  }

  /** The words of a condition's spelling. */
  lemma ConditionWords(c: Condition)
    requires WellFormedName(c.register)
    ensures Text.Words(ShowCondition(c)) == [c.register, ComparatorText(c.comparator), Decimal.ShowInt(c.value)]
  {
    ShowIntIsWord(c.value);
    Text.WordsJoin([c.register, ComparatorText(c.comparator), Decimal.ShowInt(c.value)]);
  }

  /** A condition's spelling parses back to the condition. */
  lemma ParseShowCondition(c: Condition)
    requires WellFormedName(c.register)
    ensures ParseCondition(ShowCondition(c)) == Ok(c)
  {
    ConditionWords(c);
    Decimal.ParseShowInt(c.value);
    ComparatorRoundTrip(c.comparator);
    var w := [c.register, ComparatorText(c.comparator), Decimal.ShowInt(c.value)];
    assert ConditionOf(w) == Ok(c);
  }

  lemma ComparatorRoundTrip(c: Comparator)
    ensures ComparatorOf(ComparatorText(c)) == Some(c)
  {
    match c
    case Eq => case Neq => case Lt => case Lte => case Gt => case Gte =>
  }

  /** The spelling of an instruction, word by word. */
  lemma SpelledOut(i: Instruction)
    ensures ActionText(i) == i.register + " " + OperationText(i.operation) + " " + Decimal.ShowInt(i.amount)
    ensures ShowInstruction(i) == ActionText(i) + " if " + i.condition.register + " "
      + ComparatorText(i.condition.comparator) + " " + Decimal.ShowInt(i.condition.value)
  {
    Text.Join3(i.register, OperationText(i.operation), Decimal.ShowInt(i.amount), ' ');
    Text.Join3(i.condition.register, ComparatorText(i.condition.comparator), Decimal.ShowInt(i.condition.value), ' ');
  }

  /** The action part of a spelled instruction holds no " if ", so the first " if " of the
      whole spelling is the one in front of the condition. */
  lemma ActionHasNoIf(i: Instruction)
    requires WellFormedName(i.register)
    ensures forall j :: 0 <= j < |ActionText(i)| ==> !Text.OccursAt(ActionText(i) + " if ", " if ", j)
  {
    var reg, op, amt := i.register, OperationText(i.operation), Decimal.ShowInt(i.amount);
    var s := ActionText(i) + " if ";
    Decimal.ShowIntChars(i.amount);
    SpelledOut(i);
    assert s == reg + " " + op + " " + amt + " if ";
    assert |op| == 3 && op[1] != 'f';
    forall j | 0 <= j < |ActionText(i)|
      ensures !Text.OccursAt(s, " if ", j)
    {
      if j < |reg| {
        assert s[j] == reg[j];
      } else if j == |reg| {
        assert s[j + 2] == op[1];
      } else if j < |reg| + 4 {
        assert s[j] == op[j - |reg| - 1];
      } else if j == |reg| + 4 {
        assert s[j + 1] == amt[0];
      } else {
        assert s[j] == amt[j - |reg| - 5];
      }
    }
  }

  /** An instruction's spelling is cut at the " if " in front of its condition. */
  lemma CutAtIf(i: Instruction)
    requires WellFormedName(i.register)
    ensures Text.Find(ShowInstruction(i), " if ") == Some(|ActionText(i)|)
    ensures ShowInstruction(i)[..|ActionText(i)|] == ActionText(i)
    ensures ShowInstruction(i)[|ActionText(i)| + 4..] == ShowCondition(i.condition)
  {
    ActionHasNoIf(i);
    Text.FindAfterPrefix(ActionText(i), " if ", ShowCondition(i.condition));
  }

  /** An instruction's spelling parses back to the instruction. */
  lemma ParseShowInstruction(i: Instruction)
    requires WellFormed(i)
    ensures ParseInstruction(ShowInstruction(i)) == Ok(i)
  {
    var text, action := ShowInstruction(i), ActionText(i);
    CutAtIf(i);
    ParseShowCondition(i.condition);
    ActionWords(i);
    Decimal.ParseShowInt(i.amount);
    OperationRoundTrip(i.operation);
    ParseAtCut(text, |action|, i.condition);
  }

  /** The words in front of the cut are the register, the operation and the amount. */
  lemma ActionWords(i: Instruction)
    requires WellFormedName(i.register)
    ensures |ActionText(i)| <= |ShowInstruction(i)|
    ensures Text.Words(ShowInstruction(i)[..|ActionText(i)|])
      == [i.register, OperationText(i.operation), Decimal.ShowInt(i.amount)]
  {
    CutAtIf(i);
    ShowIntIsWord(i.amount);
    OperationIsWord(i.operation);
    Text.WordsJoin([i.register, OperationText(i.operation), Decimal.ShowInt(i.amount)]);
  }

  /** Parsing once the cut and the condition are known. */
  lemma ParseAtCut(text: string, idx: nat, condition: Condition)
    requires Text.Find(text, " if ") == Some(idx)
    requires ParseCondition(text[idx + 4..]) == Ok(condition)
    ensures ParseInstruction(text) == ActionOf(Text.Words(text[..idx]), condition)
  {
  }

  lemma OperationIsWord(op: Operation)
    ensures OperationText(op) != [] && forall c :: c in OperationText(op) ==> c !in Text.Whitespace
  {
    assert OperationText(op) == "inc" || OperationText(op) == "dec";
  }

  lemma OperationRoundTrip(op: Operation)
    ensures OperationOf(OperationText(op)) == Some(op)
  {
  }

  lemma NoNewline(i: Instruction)
    requires WellFormed(i)
    ensures '\n' !in ShowInstruction(i) && ShowInstruction(i) != []
    ensures !Text.EndsInCR(ShowInstruction(i))
  {
    ShowIntIsWord(i.amount);
    ShowIntIsWord(i.condition.value);
    assert '\n' !in OperationText(i.operation) && '\n' !in ComparatorText(i.condition.comparator) by {
      match i.operation
      case Inc => case Dec =>
      match i.condition.comparator
      case Eq => case Neq => case Lt => case Lte => case Gt => case Gte =>
    }
    SpelledOut(i);
    var value := Decimal.ShowInt(i.condition.value);
    assert value[|value| - 1] in value;
    assert ShowInstruction(i)[|ShowInstruction(i)| - 1] == value[|value| - 1];
  }

  /** A program spelled one instruction per line parses back to the program. */
  lemma ParseShowProgram(prog: seq<Instruction>, lines: seq<string>)
    requires |prog| >= 1 && |lines| == |prog|
    requires forall k :: 0 <= k < |prog| ==> WellFormed(prog[k]) && lines[k] == ShowInstruction(prog[k])
    ensures ParseProgram(Text.Join(lines, '\n')) == Ok(prog)
  {
    forall k | 0 <= k < |prog|
      ensures '\n' !in lines[k] && lines[k] != [] && !Text.EndsInCR(lines[k])
      ensures ParseInstruction(lines[k]) == Ok(prog[k])
    {
      ParseShowInstruction(prog[k]);
      NoNewline(prog[k]);
    }
    Text.LinesJoin(lines);
    MapAllOk(lines, ParseInstruction, prog);
  }

  // ---------------------------------------------------------------------------------------
  // Execution, as a function of the machine state
  // ---------------------------------------------------------------------------------------

  /** The machine's registers and the highest value ever recorded. */
  datatype State = State(registers: map<string, int>, highest: int)

  const Initial := State(map[], 0)

  /** Makes a register known, with value 0 if it was not known before. */
  function Touch(registers: map<string, int>, name: string): (r: map<string, int>)
    ensures r.Keys == registers.Keys + {name}
    ensures forall k :: k in registers ==> r[k] == registers[k]
    ensures name !in registers ==> r[name] == 0
  {
    if name in registers then registers else registers[name := 0]
  }

  function Compare(comparator: Comparator, current: int, value: int): bool
  {
    match comparator
    case Eq => current == value
    case Neq => current != value
    case Lt => current < value
    case Lte => current <= value
    case Gt => current > value
    case Gte => current >= value
  }

  /** Whether the condition holds, and the registers after touching its register. */
  function Check(registers: map<string, int>, cond: Condition): (map<string, int>, bool)
  {
    (Touch(registers, cond.register), Compare(cond.comparator, ValueOrZero(registers, cond.register), cond.value))
  }

  /** Stores a value and raises the highest value if the new one exceeds it. */
  function Record(s: State, name: string, value: int): State
  {
    State(s.registers[name := value], if value > s.highest then value else s.highest)
  }

  /** The value an instruction stores, or None when its condition does not hold. */
  function Stored(registers: map<string, int>, inst: Instruction): Option<int>
  {
    var touched := Touch(registers, inst.register);
    var (checked, holds) := Check(touched, inst.condition);
    if !holds then None
    else
      var current := ValueOrZero(checked, inst.register);
      Some(match inst.operation
        case Inc => current + inst.amount
        case Dec => current - inst.amount)
  }

  /** One instruction: both registers are touched, and the target register is updated when
      the condition holds. */
  function Execute(s: State, inst: Instruction): State
  {
    var touched := Touch(s.registers, inst.register);
    var (checked, _) := Check(touched, inst.condition);
    match Stored(s.registers, inst)
    case None => State(checked, s.highest)
    case Some(v) => Record(State(checked, s.highest), inst.register, v)
  }

  /** A program's instructions, each once, in order. */
  function ExecuteAll(s: State, prog: seq<Instruction>): State
  {
    if prog == [] then s else Execute(ExecuteAll(s, prog[..|prog| - 1]), prog[|prog| - 1])
  }

  /** The values a program stores, in order. */
  function Written(s: State, prog: seq<Instruction>): seq<int>
  {
    if prog == [] then []
    else
      var before := ExecuteAll(s, prog[..|prog| - 1]);
      Written(s, prog[..|prog| - 1]) + Emitted(Stored(before.registers, prog[|prog| - 1]))
  }

  /** The stored value, if any, as a sequence of zero or one values. */
  function Emitted(stored: Option<int>): (r: seq<int>)
    ensures |r| <= 1
  {
    match stored
    case None => []
    case Some(v) => [v]
  }

  /** The largest of `m` and the elements of `xs`. */
  function Maximum(m: int, xs: seq<int>): (r: int)
    ensures r >= m && forall k :: 0 <= k < |xs| ==> r >= xs[k]
    ensures r == m || r in xs
  {
    if xs == [] then m
    else
      var rest := Maximum(m, xs[..|xs| - 1]);
      if xs[|xs| - 1] > rest then xs[|xs| - 1] else rest
  }

  /** Executing an instruction makes both its register and its condition's register known,
      adds no other register, and only the target register can change value. */
  lemma ExecuteTouches(s: State, inst: Instruction)
    ensures Execute(s, inst).registers.Keys == s.registers.Keys + {inst.register, inst.condition.register}
    ensures forall k :: k in s.registers && k != inst.register ==> Execute(s, inst).registers[k] == s.registers[k]
    ensures forall k :: k !in s.registers && k != inst.register ==> k in Execute(s, inst).registers ==> Execute(s, inst).registers[k] == 0
  {
  }

  /** When the condition does not hold, no register changes value and the highest value
      stays; when it holds, the target register gets its value plus or minus the amount. */
  lemma ExecuteEffect(s: State, inst: Instruction)
    ensures !Compare(inst.condition.comparator, ValueOrZero(s.registers, inst.condition.register), inst.condition.value) ==>
      Execute(s, inst).highest == s.highest
      && forall k :: k in s.registers ==> Execute(s, inst).registers[k] == s.registers[k]
    ensures Compare(inst.condition.comparator, ValueOrZero(s.registers, inst.condition.register), inst.condition.value) ==>
      Execute(s, inst).registers[inst.register] == match inst.operation
        case Inc => ValueOrZero(s.registers, inst.register) + inst.amount
        case Dec => ValueOrZero(s.registers, inst.register) - inst.amount
  {
    var touched := Touch(s.registers, inst.register);
    assert ValueOrZero(touched, inst.condition.register) == ValueOrZero(s.registers, inst.condition.register);
    assert ValueOrZero(touched, inst.register) == ValueOrZero(s.registers, inst.register);
  }

  /** The highest value is the maximum of its starting value and every value stored. */
  lemma {:induction false} HighestIsMaximum(s: State, prog: seq<Instruction>)
    ensures ExecuteAll(s, prog).highest == Maximum(s.highest, Written(s, prog))
  {
    if prog != [] {
      var init, last := prog[..|prog| - 1], prog[|prog| - 1];
      HighestIsMaximum(s, init);
      var before := ExecuteAll(s, init);
      var e := Emitted(Stored(before.registers, last));
      ExecuteHighest(before, last);
      MaximumAppend(s.highest, Written(s, init), e);
    }
  }

  /** One instruction raises the highest value to the value it stores, if that is larger. */
  lemma ExecuteHighest(s: State, inst: Instruction)
    ensures Execute(s, inst).highest == Maximum(s.highest, Emitted(Stored(s.registers, inst)))
  {
  }

  /** The maximum over a sequence extended by at most one value. */
  lemma MaximumAppend(m: int, xs: seq<int>, e: seq<int>)
    requires |e| <= 1
    ensures Maximum(m, xs + e) == Maximum(Maximum(m, xs), e)
  {
    if e == [] {
      assert xs + e == xs;
    } else {
      assert (xs + e)[..|xs + e| - 1] == xs;
    }
  }

  /** Every register holds at most the highest value, which is at least 0. */
  predicate Bounded(s: State)
  {
    s.highest >= 0 && forall k :: k in s.registers ==> s.registers[k] <= s.highest
  }

  /** The highest value bounds every register at every step, and never decreases. */
  lemma {:induction false} ExecuteAllBounded(s: State, prog: seq<Instruction>)
    requires Bounded(s)
    ensures Bounded(ExecuteAll(s, prog))
    ensures ExecuteAll(s, prog).highest >= s.highest
  {
    if prog != [] {
      ExecuteAllBounded(s, prog[..|prog| - 1]);
    }
  }

  // ---------------------------------------------------------------------------------------
  // The machine
  // ---------------------------------------------------------------------------------------

  class Machine {
    var registers: map<string, int>
    var highest: int

    constructor()
      ensures registers == map[] && highest == 0
    {
      registers := map[];
      highest := 0;
    }

    function Snapshot(): State
      reads this
    {
      State(registers, highest)
    }

    /** The highest value ever recorded; it bounds every register. */
    function HighestValue(): (h: int)
      reads this
      requires Bounded(Snapshot())
      ensures h >= 0 && forall k :: k in registers ==> registers[k] <= h
    {
      highest
    }

    method CheckCondition(cond: Condition) returns (holds: bool)
      modifies this
      ensures (registers, holds) == Check(old(registers), cond)
      ensures highest == old(highest)
    {
      var current := ValueOrZero(registers, cond.register);
      registers := Touch(registers, cond.register);
      holds := Compare(cond.comparator, current, cond.value);
    }

    method RecordValue(name: string, value: int)
      modifies this
      ensures Snapshot() == Record(old(Snapshot()), name, value)
    {
      registers := registers[name := value];
      if value > highest {
        highest := value;
      }
    }

    method RunInstruction(inst: Instruction)
      modifies this
      ensures Snapshot() == Execute(old(Snapshot()), inst)
    {
      registers := Touch(registers, inst.register);
      var holds := CheckCondition(inst.condition);
      if holds {
        var current := ValueOrZero(registers, inst.register);
        var amount := match inst.operation
          case Inc => current + inst.amount
          case Dec => current - inst.amount;
        RecordValue(inst.register, amount);
      }
    }

    method Run(prog: seq<Instruction>)
      modifies this
      ensures Snapshot() == ExecuteAll(old(Snapshot()), prog)
    {
      for k := 0 to |prog|
        invariant Snapshot() == ExecuteAll(old(Snapshot()), prog[..k])
      {
        assert prog[..k + 1][..k] == prog[..k];
        RunInstruction(prog[k]);
      }
      assert prog[..|prog|] == prog;
    }
  }

  // ---------------------------------------------------------------------------------------
  // The tested program
  // ---------------------------------------------------------------------------------------

  const Sample: seq<Instruction> := [
    Instruction("b", Inc, 5, Condition("a", Gt, 1)),
    Instruction("a", Inc, 1, Condition("b", Lt, 5)),
    Instruction("c", Dec, -10, Condition("a", Gte, 1)),
    Instruction("c", Inc, -20, Condition("c", Eq, 10))
  ]

  const SampleLines: seq<string> := [
    "b inc 5 if a > 1", "a inc 1 if b < 5", "c dec -10 if a >= 1", "c inc -20 if c == 10"
  ]

  /** The sample's lines are spelled as in the test. */
  lemma SampleSpellings()
    ensures forall k :: 0 <= k < |Sample| ==> WellFormed(Sample[k]) && ShowInstruction(Sample[k]) == SampleLines[k]
  {
    forall k | 0 <= k < |Sample|
      ensures WellFormed(Sample[k]) && ShowInstruction(Sample[k]) == SampleLines[k]
    {
      if k == 0 {
        FirstLine();
      } else if k == 1 {
        SecondLine();
      } else if k == 2 {
        ThirdLine();
      } else {
        FourthLine();
      }
    }
  }

  lemma FirstLine()
    ensures WellFormed(Sample[0]) && ShowInstruction(Sample[0]) == SampleLines[0]
  {
    assert SampleLines[0] == "b" + " " + "inc" + " " + "5" + " if " + "a" + " " + ">" + " " + "1";
    SampleLine(Sample[0], "b", "inc", "5", "a", ">", "1");
  }

  lemma SecondLine()
    ensures WellFormed(Sample[1]) && ShowInstruction(Sample[1]) == SampleLines[1]
  {
    assert SampleLines[1] == "a" + " " + "inc" + " " + "1" + " if " + "b" + " " + "<" + " " + "5";
    SampleLine(Sample[1], "a", "inc", "1", "b", "<", "5");
  }

  lemma ThirdLine()
    ensures WellFormed(Sample[2]) && ShowInstruction(Sample[2]) == SampleLines[2]
  {
    assert SampleLines[2] == "c" + " " + "dec" + " " + "-10" + " if " + "a" + " " + ">=" + " " + "1";
    SampleLine(Sample[2], "c", "dec", "-10", "a", ">=", "1");
  }

  lemma FourthLine()
    ensures WellFormed(Sample[3]) && ShowInstruction(Sample[3]) == SampleLines[3]
  {
    assert SampleLines[3] == "c" + " " + "inc" + " " + "-20" + " if " + "c" + " " + "==" + " " + "10";
    SampleLine(Sample[3], "c", "inc", "-20", "c", "==", "10");
  }

  /** The spelling of an instruction from the spellings of its parts. */
  lemma SampleLine(i: Instruction, reg: string, op: string, amt: string, creg: string, cmp: string, v: string)
    requires reg == i.register && op == OperationText(i.operation) && amt == Decimal.ShowInt(i.amount)
    requires creg == i.condition.register && cmp == ComparatorText(i.condition.comparator)
    requires v == Decimal.ShowInt(i.condition.value)
    ensures ShowInstruction(i) == reg + " " + op + " " + amt + " if " + creg + " " + cmp + " " + v
  {
    SpelledOut(i);
  }

  /** `test_instruction`: the first line of the sample parses to its instruction. */
  lemma InstructionSample()
    ensures ParseInstruction("b inc 5 if a > 1") == Ok(Instruction("b", Inc, 5, Condition("a", Gt, 1)))
  {
    FirstLine();
    ParseShowInstruction(Sample[0]);
  }

  /** A condition's spelling from the spellings of its parts. */
  lemma ConditionLine(c: Condition, reg: string, cmp: string, v: string)
    requires reg == c.register && cmp == ComparatorText(c.comparator) && v == Decimal.ShowInt(c.value)
    ensures ShowCondition(c) == reg + " " + cmp + " " + v
  {
    Text.Join3(reg, cmp, v, ' ');
  }

  /** `test_condition`: `a == -3` parses to its condition. */
  lemma ConditionSampleEq(text: string)
    requires text == "a == -3"
    ensures ParseCondition(text) == Ok(Condition("a", Eq, -3))
  {
    var c := Condition("a", Eq, -3);
    assert text == "a" + " " + "==" + " " + "-3";
    ConditionLine(c, "a", "==", "-3");
    ParseShowCondition(c);
  }

  /** `test_condition`: `tux <= 42` parses to its condition. */
  lemma ConditionSampleLte(text: string)
    requires text == "tux <= 42"
    ensures ParseCondition(text) == Ok(Condition("tux", Lte, 42))
  {
    var c := Condition("tux", Lte, 42);
    assert text == "tux" + " " + "<=" + " " + "42";
    ConditionLine(c, "tux", "<=", "42");
    ParseShowCondition(c);
  }

  /** The tested program text parses to the sample program. */
  lemma SampleParses()
    ensures ParseProgram(Text.Join(SampleLines, '\n')) == Ok(Sample)
  {
    SampleSpellings();
    ParseShowProgram(Sample, SampleLines);
  }

  /** The sample ends with a = 1, b = 0, c = -10 and a highest value of 10. */
  lemma SampleRun()
    ensures ExecuteAll(Initial, Sample).registers == map["a" := 1, "b" := 0, "c" := -10]
    ensures ExecuteAll(Initial, Sample).highest == 10
  {
    var s1 := State(map["b" := 0, "a" := 0], 0);
    var s2 := State(map["b" := 0, "a" := 1], 1);
    var s3 := State(map["b" := 0, "a" := 1, "c" := 10], 10);
    SampleSteps();
    assert Sample[..0] == [];
    ExecuteAllStep(Initial, Sample, 1);
    assert ExecuteAll(Initial, Sample[..1]) == s1;
    ExecuteAllStep(Initial, Sample, 2);
    assert ExecuteAll(Initial, Sample[..2]) == s2;
    ExecuteAllStep(Initial, Sample, 3);
    assert ExecuteAll(Initial, Sample[..3]) == s3;
    ExecuteAllStep(Initial, Sample, 4);
    assert Sample[..4] == Sample;
  }

  /** The state after each instruction of the sample: the first condition fails but still
      makes `a` and `b` known; `c` is raised to 10 and then lowered to -10. */
  lemma SampleSteps()
    ensures Execute(Initial, Sample[0]) == State(map["b" := 0, "a" := 0], 0)
    ensures Execute(State(map["b" := 0, "a" := 0], 0), Sample[1]) == State(map["b" := 0, "a" := 1], 1)
    ensures Execute(State(map["b" := 0, "a" := 1], 1), Sample[2]) == State(map["b" := 0, "a" := 1, "c" := 10], 10)
    ensures Execute(State(map["b" := 0, "a" := 1, "c" := 10], 10), Sample[3])
      == State(map["b" := 0, "a" := 1, "c" := -10], 10)
  {
  }

  lemma ExecuteAllStep(s: State, prog: seq<Instruction>, k: nat)
    requires 1 <= k <= |prog|
    ensures ExecuteAll(s, prog[..k]) == Execute(ExecuteAll(s, prog[..k - 1]), prog[k - 1])
  {
    assert prog[..k][..k - 1] == prog[..k - 1];
  }
}
