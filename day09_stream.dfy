/** The stream scanner: groups `{...}` separated by commas, garbage `<...>` in which `!`
    cancels the next character. The score is the sum of the depths of all groups; the
    garbage count is the number of characters inside garbage that are neither cancelled,
    nor a cancelling `!`, nor the closing `>`. */
module Stream {
  import opened Common

  datatype ParserState = Normal | Garbage

  /** Everything the parser keeps besides the remaining input. */
  datatype Scan = Scan(state: ParserState, stack: seq<nat>, score: nat, garbage: nat)

  const Initial := Scan(Normal, [], 0, 0)

  /** The score of the innermost open group, 0 outside every group. */
  function Top(stack: seq<nat>): nat
  {
    if stack == [] then 0 else stack[|stack| - 1]
  }

  /** One iteration of the `get_score` loop on a non-empty input: the scan after it and the
      input it leaves. `Err` is a panic of `parse_normal`. */
  function Step(sc: Scan, input: string): (r: Result<(Scan, string)>)
    requires input != []
    ensures r.Ok? ==> |r.value.1| < |input|
  {
    var c := input[0];
    match sc.state
    case Normal =>
      if c == '{' then Ok((sc.(stack := sc.stack + [Top(sc.stack) + 1]), input[1..]))
      else if c == '}' then
        if sc.stack == [] then Err("found a close group with no group")
        else Ok((sc.(stack := sc.stack[..|sc.stack| - 1], score := sc.score + Top(sc.stack)), input[1..]))
      else if c == '<' then Ok((sc.(state := Garbage), input[1..]))
      else if c == ',' then Ok((sc, input[1..]))
      else Err("found an unexpected character!")
    case Garbage =>
      if c == '!' then Ok((sc, if |input| >= 2 then input[2..] else []))
      else if c == '>' then Ok((sc.(state := Normal), input[1..]))
      else Ok((sc.(garbage := sc.garbage + 1), input[1..]))
  }

  /** The `get_score` loop: steps until the input is used up. */
  function Run(sc: Scan, input: string): Result<Scan>
    decreases |input|, 1
  {
    if input == [] then Ok(sc) else Continue(sc, input)
  }

  /** One step on a non-empty input, then the rest of the loop. */
  function Continue(sc: Scan, input: string): Result<Scan>
    requires input != []
    decreases |input|, 0
  {
    match Step(sc, input)
    case Err(e) => Err(e)
    case Ok((next, rest)) => Run(next, rest)
  }

  /** `Parser::score`: the score and the garbage count of a whole stream. */
  function ScoreOf(input: string): Result<(nat, nat)>
  {
    match Run(Initial, input)
    case Err(e) => Err(e)
    case Ok(sc) => Ok((sc.score, sc.garbage))
  }

  // ---------------------------------------------------------------------------------------
  // The depth stack

  /** The stack of a parser `d` groups deep: the scores 1, 2, ..., d. */
  function Depths(d: nat): (s: seq<nat>)
    ensures |s| == d && forall k :: 0 <= k < d ==> s[k] == k + 1
  {
    seq(d, k => k + 1)
  }

  /** Each step keeps the stack of the form 1, 2, ..., d: a `{` pushes the parent's score
      plus one (1 at top level) and a `}` adds the depth of the group it closes. */
  lemma StepKeepsDepths(sc: Scan, input: string, d: nat)
    requires input != [] && sc.stack == Depths(d) && Step(sc, input).Ok?
    ensures var next := Step(sc, input).value.0;
      (next.stack == Depths(d + 1) && input[0] == '{' && sc.state == Normal)
      || (d > 0 && next.stack == Depths(d - 1) && next.score == sc.score + d && input[0] == '}' && sc.state == Normal)
      || (next.stack == sc.stack && next.score == sc.score)
  {
    if sc.state == Normal && input[0] == '{' {
      assert Depths(d) + [Top(Depths(d)) + 1] == Depths(d + 1);
    } else if sc.state == Normal && input[0] == '}' {
      assert Depths(d)[..d - 1] == Depths(d - 1);
    }
  }

  /** The score and the garbage count never decrease. */
  lemma {:induction false} RunMonotone(sc: Scan, input: string)
    requires Run(sc, input).Ok?
    ensures Run(sc, input).value.score >= sc.score && Run(sc, input).value.garbage >= sc.garbage
    decreases |input|
  {
    if input != [] {
      var (next, rest) := Step(sc, input).value;
      RunMonotone(next, rest);
    }
  }

  // ---------------------------------------------------------------------------------------
  // Streams as trees: the meaning of score and garbage count

  /** A character inside garbage: an ordinary one, or one cancelled by a `!` before it. */
  datatype Unit = Plain(c: char) | Cancelled(c: char)

  /** A stream item: a group of items, or a run of garbage. */
  datatype Item = Group(children: seq<Item>) | GarbageRun(units: seq<Unit>)

  /** An ordinary garbage character is neither `!` nor `>`; groups hold well-formed items. */
  predicate WellFormed(item: Item)
    decreases item
  {
    match item
    case Group(cs) => forall k :: 0 <= k < |cs| ==> WellFormed(cs[k])
    case GarbageRun(us) => forall k :: 0 <= k < |us| ==> us[k].Plain? ==> us[k].c != '!' && us[k].c != '>'
  }

  function RenderUnit(u: Unit): string
  {
    match u
    case Plain(c) => [c]
    case Cancelled(c) => ['!', c]
  }

  function RenderUnits(us: seq<Unit>): string
  {
    if us == [] then [] else RenderUnit(us[0]) + RenderUnits(us[1..])
  }

  function ItemRank(item: Item): nat
  {
    if item.Group? then |item.children| + 1 else 0
  }

  /** The stream text of an item. */
  function Render(item: Item): string
    decreases item, ItemRank(item)
  {
    match item
    case Group(cs) => ['{'] + RenderFrom(item, 0) + ['}']
    case GarbageRun(us) => ['<'] + RenderUnits(us) + ['>']
  }

  /** The children of a group from the `k`-th on, separated by commas. */
  function RenderFrom(item: Item, k: nat): string
    requires item.Group? && k <= |item.children|
    decreases item, |item.children| - k
  {
    var cs := item.children;
    if k == |cs| then []
    else if k == |cs| - 1 then Render(cs[k])
    else Render(cs[k]) + [','] + RenderFrom(item, k + 1)
  }

  /** The sum of the depths of the groups in an item at depth `depth`. */
  function GroupScore(item: Item, depth: nat): nat
    decreases item, ItemRank(item)
  {
    match item
    case Group(cs) => depth + GroupScoreFrom(item, depth + 1, 0)
    case GarbageRun(_) => 0
  }

  function GroupScoreFrom(item: Item, depth: nat, k: nat): nat
    requires item.Group? && k <= |item.children|
    decreases item, |item.children| - k
  {
    if k == |item.children| then 0 else GroupScore(item.children[k], depth) + GroupScoreFrom(item, depth, k + 1)
  }

  /** The number of ordinary garbage characters in an item. */
  function Count(item: Item): nat
    decreases item, ItemRank(item)
  {
    match item
    case Group(cs) => CountFrom(item, 0)
    case GarbageRun(us) => CountPlain(us)
  }

  function CountFrom(item: Item, k: nat): nat
    requires item.Group? && k <= |item.children|
    decreases item, |item.children| - k
  {
    if k == |item.children| then 0 else Count(item.children[k]) + CountFrom(item, k + 1)
  }

  function CountPlain(us: seq<Unit>): nat
  {
    if us == [] then 0 else Weight(us[0]) + CountPlain(us[1..])
  }

  function Weight(u: Unit): nat
  {
    if u.Plain? then 1 else 0
  }

  /** The scanner reads the text of a well-formed item as its score (the sum of its group
      depths) and its garbage count. */
  lemma ScoreOfRender(item: Item)
    requires WellFormed(item)
    ensures ScoreOf(Render(item)) == Ok((GroupScore(item, 1), Count(item)))
  {
    RunItem(Initial, item, [], 0);
    assert Render(item) + [] == Render(item);
  }

  /** A `}` with no open group stops the scan with an error, whatever follows. */
  lemma CloseWithoutOpen(x: string)
    ensures ScoreOf(['}'] + x).Err?
  {
    assert (['}'] + x)[0] == '}';
    assert Step(Initial, ['}'] + x).Err?;
    assert Run(Initial, ['}'] + x) == Continue(Initial, ['}'] + x);
  }

  /** Outside garbage only `{`, `}`, `<` and `,` are accepted. */
  lemma UnexpectedCharacter(c: char, x: string)
    requires c != '{' && c != '}' && c != '<' && c != ','
    ensures ScoreOf([c] + x).Err?
  {
    assert ([c] + x)[0] == c;
    assert Step(Initial, [c] + x).Err?;
    assert Run(Initial, [c] + x) == Continue(Initial, [c] + x);
  }

  /** The nested example: three levels of groups. */
  lemma SampleNested()
    ensures ScoreOf("{{{},{},{{}}}}") == Ok((16, 0))
  {
    var t := Group([Group([Group([]), Group([]), Group([Group([])])])]);
    NestedText(t);
    NestedScore(t);
    NestedCount(t);
    NestedWellFormed(t);
    ScoreOfRender(t);
  }

  lemma NestedText(t: Item)
    requires t == Group([Group([Group([]), Group([]), Group([Group([])])])])
    ensures Render(t) == "{{{},{},{{}}}}"
  {
  }

  lemma NestedScore(t: Item)
    requires t == Group([Group([Group([]), Group([]), Group([Group([])])])])
    ensures GroupScore(t, 1) == 16
  {
  }

  lemma NestedCount(t: Item)
    requires t == Group([Group([Group([]), Group([]), Group([Group([])])])])
    ensures Count(t) == 0
  {
  }

  lemma NestedWellFormed(t: Item)
    requires t == Group([Group([Group([]), Group([]), Group([Group([])])])])
    ensures WellFormed(t)
  {
  }

  /** The garbage example: a cancelled `>` keeps the garbage open across three groups. */
  lemma SampleCancelled()
    ensures ScoreOf("{{<a!>},{<a!>},{<a!>},{<ab>}}") == Ok((3, 17))
  {
    var t := Group([Group([GarbageRun(CancelledUnits())])]);
    CancelledText(t);
    CancelledScore(t);
    CancelledCount(t);
    CancelledWellFormed(t);
    ScoreOfRender(t);
  }

  /** The contents of the garbage in the example: three times `a!>},{<`, then `ab`. */
  function CancelledUnits(): seq<Unit>
  {
    Segment() + Segment() + Segment() + [Plain('a'), Plain('b')]
  }

  function Segment(): seq<Unit>
  {
    [Plain('a'), Cancelled('>'), Plain('}'), Plain(','), Plain('{'), Plain('<')]
  }

  lemma SegmentText()
    ensures RenderUnits(Segment()) == "a!>},{<" && CountPlain(Segment()) == 5
  {
    var seg := Segment();
    var t5 := [Plain('<')];
    var t4 := [Plain('{')] + t5;
    var t3 := [Plain(',')] + t4;
    var t2 := [Plain('}')] + t3;
    var t1 := [Cancelled('>')] + t2;
    assert seg == [Plain('a')] + t1;
    assert RenderUnits(t5) == "<" && CountPlain(t5) == 1;
    assert RenderUnits(t4) == "{<" && CountPlain(t4) == 2;
    assert RenderUnits(t3) == ",{<" && CountPlain(t3) == 3;
    assert RenderUnits(t2) == "},{<" && CountPlain(t2) == 4;
    assert RenderUnits(t1) == "!>},{<" && CountPlain(t1) == 4;
  }

  lemma CancelledUnitsText()
    ensures RenderUnits(CancelledUnits()) == "a!>},{<a!>},{<a!>},{<ab"
  {
    var seg, ab := Segment(), [Plain('a'), Plain('b')];
    SegmentText();
    UnitsAppend(seg, seg);
    UnitsAppend(seg + seg, seg);
    UnitsAppend(seg + seg + seg, ab);
    assert RenderUnits(ab) == "ab";
    Concatenated(RenderUnits(seg), RenderUnits(ab));
  }

  lemma Concatenated(x: string, y: string)
    requires x == "a!>},{<" && y == "ab"
    ensures x + x + x + y == "a!>},{<a!>},{<a!>},{<ab"
  {
  }

  lemma CancelledUnitsCount()
    ensures CountPlain(CancelledUnits()) == 17
  {
    var seg, ab := Segment(), [Plain('a'), Plain('b')];
    SegmentText();
    UnitsAppend(seg, seg);
    UnitsAppend(seg + seg, seg);
    UnitsAppend(seg + seg + seg, ab);
    assert CountPlain(ab) == 2;
  }

  lemma CancelledText(t: Item)
    requires t == Group([Group([GarbageRun(CancelledUnits())])])
    ensures Render(t) == "{{<a!>},{<a!>},{<a!>},{<ab>}}"
  {
    var us := CancelledUnits();
    CancelledUnitsText();
    WrappedText(us);
    Bracketed(RenderUnits(us));
  }

  lemma Bracketed(x: string)
    requires x == "a!>},{<a!>},{<a!>},{<ab"
    ensures "{{<" + x + ">}}" == "{{<a!>},{<a!>},{<a!>},{<ab>}}"
  {
  }

  lemma WrappedText(us: seq<Unit>)
    ensures Render(Group([Group([GarbageRun(us)])])) == "{{<" + RenderUnits(us) + ">}}"
  {
    var inner := Group([GarbageRun(us)]);
    assert RenderFrom(inner, 0) == Render(GarbageRun(us));
    assert RenderFrom(Group([inner]), 0) == Render(inner);
  }

  lemma CancelledScore(t: Item)
    requires t == Group([Group([GarbageRun(CancelledUnits())])])
    ensures GroupScore(t, 1) == 3
  {
  }

  lemma CancelledCount(t: Item)
    requires t == Group([Group([GarbageRun(CancelledUnits())])])
    ensures Count(t) == 17
  {
    CancelledUnitsCount();
  }

  lemma CancelledWellFormed(t: Item)
    requires t == Group([Group([GarbageRun(CancelledUnits())])])
    ensures WellFormed(t)
  {
  }

  /** Rendering and counting garbage contents distribute over concatenation. */
  lemma {:induction false} UnitsAppend(a: seq<Unit>, b: seq<Unit>)
    ensures RenderUnits(a + b) == RenderUnits(a) + RenderUnits(b)
    ensures CountPlain(a + b) == CountPlain(a) + CountPlain(b)
  {
    if a != [] {
      assert (a + b)[1..] == a[1..] + b;
      UnitsAppend(a[1..], b);
    } else {
      assert a + b == b;
    }
  }

  /** Scanning garbage contents in garbage state counts the ordinary characters. */
  lemma {:induction false} RunUnits(sc: Scan, us: seq<Unit>, rest: string)
    requires sc.state == Garbage
    requires forall k :: 0 <= k < |us| ==> us[k].Plain? ==> us[k].c != '!' && us[k].c != '>'
    ensures Run(sc, RenderUnits(us) + rest) == Run(sc.(garbage := sc.garbage + CountPlain(us)), rest)
    decreases |us|
  {
    if us == [] {
      assert RenderUnits(us) + rest == rest;
      assert sc.(garbage := sc.garbage + 0) == sc;
    } else {
      var tail := RenderUnits(us[1..]) + rest;
      assert RenderUnits(us) + rest == RenderUnit(us[0]) + tail;
      RunUnit(sc, us[0], tail);
      RunUnits(sc.(garbage := sc.garbage + Weight(us[0])), us[1..], rest);
    }
  }

  /** One garbage character, or a cancelling `!` with the character it cancels. */
  lemma RunUnit(sc: Scan, u: Unit, x: string)
    requires sc.state == Garbage && (u.Plain? ==> u.c != '!' && u.c != '>')
    ensures Run(sc, RenderUnit(u) + x) == Run(sc.(garbage := sc.garbage + Weight(u)), x)
  {
    match u
    case Plain(c) => RunPlain(sc, c, x);
    case Cancelled(c) =>
      RunCancelled(sc, c, x);
      assert sc.(garbage := sc.garbage + 0) == sc;
  }

  /** Scanning an item `d` groups deep adds its score and garbage count and leaves the stack
      as it found it. */
  lemma {:induction false} RunItem(sc: Scan, item: Item, rest: string, d: nat)
    requires sc.state == Normal && sc.stack == Depths(d) && WellFormed(item)
    ensures Run(sc, Render(item) + rest)
         == Run(sc.(score := sc.score + GroupScore(item, d + 1), garbage := sc.garbage + Count(item)), rest)
    decreases item, ItemRank(item) + 1
  {
    if item.Group? {
      RunGroup(sc, item, rest, d);
    } else {
      RunGarbageRun(sc, item.units, rest);
    }
  }

  /** A group: `{`, its children one level deeper, `}`. */
  lemma {:induction false} RunGroup(sc: Scan, item: Item, rest: string, d: nat)
    requires item.Group? && sc.state == Normal && sc.stack == Depths(d) && WellFormed(item)
    ensures Run(sc, Render(item) + rest)
         == Run(sc.(score := sc.score + GroupScore(item, d + 1), garbage := sc.garbage + Count(item)), rest)
    decreases item, ItemRank(item)
  {
    var inner := sc.(stack := Depths(d + 1));
    GroupText(item, rest);
    RunOpen(sc, RenderFrom(item, 0) + (['}'] + rest), d);
    RunChildren(inner, item, 0, ['}'] + rest, d + 1);
    RunClose(inner.(score := sc.score + GroupScoreFrom(item, d + 2, 0), garbage := sc.garbage + Count(item)), rest, d);
  }

  /** A run of garbage: `<`, its contents, `>`. */
  lemma RunGarbageRun(sc: Scan, us: seq<Unit>, rest: string)
    requires sc.state == Normal && WellFormed(GarbageRun(us))
    ensures Run(sc, Render(GarbageRun(us)) + rest) == Run(sc.(garbage := sc.garbage + CountPlain(us)), rest)
  {
    GarbageText(us, rest);
    RunLeft(sc, RenderUnits(us) + (['>'] + rest));
    RunUnits(sc.(state := Garbage), us, ['>'] + rest);
    RunRight(sc.(state := Garbage, garbage := sc.garbage + CountPlain(us)), rest);
  }

  /** Scanning the children of a group from the `k`-th on, inside that group. */
  lemma {:induction false} RunChildren(sc: Scan, item: Item, k: nat, rest: string, d: nat)
    requires item.Group? && k <= |item.children| && WellFormed(item)
    requires sc.state == Normal && sc.stack == Depths(d)
    ensures Run(sc, RenderFrom(item, k) + rest)
         == Run(sc.(score := sc.score + GroupScoreFrom(item, d + 1, k), garbage := sc.garbage + CountFrom(item, k)), rest)
    decreases item, |item.children| - k
  {
    if k == |item.children| {
      RunNoChildren(sc, item, rest);
    } else if k == |item.children| - 1 {
      RunLastChild(sc, item, k, rest, d);
    } else {
      var child := item.children[k];
      var mid := sc.(score := sc.score + GroupScore(child, d + 1), garbage := sc.garbage + Count(child));
      RunChild(sc, item, k, rest, d);
      RunChildren(mid, item, k + 1, rest, d);
      assert mid.(score := mid.score + GroupScoreFrom(item, d + 1, k + 1), garbage := mid.garbage + CountFrom(item, k + 1))
          == sc.(score := sc.score + GroupScoreFrom(item, d + 1, k), garbage := sc.garbage + CountFrom(item, k));
    }
  }

  lemma RunNoChildren(sc: Scan, item: Item, rest: string)
    requires item.Group?
    ensures Run(sc, RenderFrom(item, |item.children|) + rest)
         == Run(sc.(score := sc.score + GroupScoreFrom(item, 0, |item.children|),
                    garbage := sc.garbage + CountFrom(item, |item.children|)), rest)
  {
    assert RenderFrom(item, |item.children|) + rest == rest;
    assert sc.(score := sc.score + 0, garbage := sc.garbage + 0) == sc;
  }

  /** The last child of a group: no comma after it. */
  lemma {:induction false} RunLastChild(sc: Scan, item: Item, k: nat, rest: string, d: nat)
    requires item.Group? && k == |item.children| - 1 && WellFormed(item)
    requires sc.state == Normal && sc.stack == Depths(d)
    ensures Run(sc, RenderFrom(item, k) + rest)
         == Run(sc.(score := sc.score + GroupScoreFrom(item, d + 1, k), garbage := sc.garbage + CountFrom(item, k)), rest)
    decreases item, 0
  {
    var child := item.children[k];
    assert RenderFrom(item, k) == Render(child);
    assert GroupScoreFrom(item, d + 1, k) == GroupScore(child, d + 1);
    assert CountFrom(item, k) == Count(child);
    RunItem(sc, child, rest, d);
  }

  /** A child that is not the last one, and the comma after it. */
  lemma {:induction false} RunChild(sc: Scan, item: Item, k: nat, rest: string, d: nat)
    requires item.Group? && k < |item.children| - 1 && WellFormed(item)
    requires sc.state == Normal && sc.stack == Depths(d)
    ensures Run(sc, RenderFrom(item, k) + rest)
         == Run(sc.(score := sc.score + GroupScore(item.children[k], d + 1),
                    garbage := sc.garbage + Count(item.children[k])), RenderFrom(item, k + 1) + rest)
    decreases item, 0
  {
    var child := item.children[k];
    var mid := sc.(score := sc.score + GroupScore(child, d + 1), garbage := sc.garbage + Count(child));
    var tail := RenderFrom(item, k + 1) + rest;
    ChildrenText(item, k, rest);
    RunItem(sc, child, [','] + tail, d);
    RunComma(mid, tail);
  }

  lemma GroupText(item: Item, rest: string)
    requires item.Group?
    ensures Render(item) + rest == ['{'] + (RenderFrom(item, 0) + (['}'] + rest))
  {
  }

  lemma GarbageText(us: seq<Unit>, rest: string)
    ensures Render(GarbageRun(us)) + rest == ['<'] + (RenderUnits(us) + (['>'] + rest))
  {
  }

  lemma ChildrenText(item: Item, k: nat, rest: string)
    requires item.Group? && k < |item.children| - 1
    ensures RenderFrom(item, k) + rest == Render(item.children[k]) + ([','] + (RenderFrom(item, k + 1) + rest))
  {
  }

  /** `{` at depth `d` opens a group of score `d + 1`. */
  lemma RunOpen(sc: Scan, x: string, d: nat)
    requires sc.state == Normal && sc.stack == Depths(d)
    ensures Run(sc, ['{'] + x) == Run(sc.(stack := Depths(d + 1)), x)
  {
    assert (['{'] + x)[1..] == x;
    assert Depths(d) + [Top(Depths(d)) + 1] == Depths(d + 1);
  }

  /** `}` at depth `d + 1` closes the group and adds its score `d + 1`. */
  lemma RunClose(sc: Scan, x: string, d: nat)
    requires sc.state == Normal && sc.stack == Depths(d + 1)
    ensures Run(sc, ['}'] + x) == Run(sc.(stack := Depths(d), score := sc.score + d + 1), x)
  {
    assert (['}'] + x)[1..] == x;
    assert Depths(d + 1)[..d] == Depths(d);
  }

  lemma RunComma(sc: Scan, x: string)
    requires sc.state == Normal
    ensures Run(sc, [','] + x) == Run(sc, x)
  {
    assert ([','] + x)[1..] == x;
  }

  lemma RunLeft(sc: Scan, x: string)
    requires sc.state == Normal
    ensures Run(sc, ['<'] + x) == Run(sc.(state := Garbage), x)
  {
    assert (['<'] + x)[1..] == x;
  }

  lemma RunRight(sc: Scan, x: string)
    requires sc.state == Garbage
    ensures Run(sc, ['>'] + x) == Run(sc.(state := Normal), x)
  {
    assert (['>'] + x)[1..] == x;
  }

  lemma RunPlain(sc: Scan, c: char, x: string)
    requires sc.state == Garbage && c != '!' && c != '>'
    ensures Run(sc, [c] + x) == Run(sc.(garbage := sc.garbage + 1), x)
  {
    StepPlain(sc, c, x);
  }

  lemma StepPlain(sc: Scan, c: char, x: string)
    requires sc.state == Garbage && c != '!' && c != '>'
    ensures Step(sc, [c] + x) == Ok((sc.(garbage := sc.garbage + 1), x))
  {
    assert ([c] + x)[0] == c;
    assert ([c] + x)[1..] == x;
  }

  lemma RunCancelled(sc: Scan, c: char, x: string)
    requires sc.state == Garbage
    ensures Run(sc, ['!', c] + x) == Run(sc, x)
  {
    assert (['!', c] + x)[2..] == x;
  }

  // ---------------------------------------------------------------------------------------
  // The parser object

  class Parser {
    var input: string
    var score: nat
    var garbageCount: nat
    var stack: seq<nat>
    var state: ParserState

    function Snapshot(): Scan
      reads this
    {
      Scan(state, stack, score, garbageCount)
    }

    constructor (text: string)
      ensures input == text && Snapshot() == Initial
    {
      input := text;
      score := 0;
      garbageCount := 0;
      stack := [];
      state := Normal;
    }

    /** Takes the next character when it is `check`. */
    method Consume(check: char) returns (taken: bool)
      modifies this
      ensures taken <==> old(input) != [] && old(input)[0] == check
      ensures input == if taken then old(input)[1..] else old(input)
      ensures Snapshot() == old(Snapshot())
    {
      if input != [] && input[0] == check {
        input := input[1..];
        taken := true;
      } else {
        taken := false;
      }
    }

    /** Takes the next character, if there is one. */
    method ConsumeAny()
      modifies this
      ensures input == if old(input) == [] then [] else old(input)[1..]
      ensures Snapshot() == old(Snapshot())
    {
      if input != [] {
        input := input[1..];
      }
    }

    /** One character outside garbage; `false` where the source panics. */
    method ParseNormal() returns (ok: bool)
      requires input != [] && state == Normal
      modifies this
      ensures ok <==> Step(old(Snapshot()), old(input)).Ok?
      ensures ok ==> (Snapshot(), input) == Step(old(Snapshot()), old(input)).value
    {
      var taken := Consume('{');
      if taken {
        stack := stack + [Top(stack) + 1];
        return true;
      }
      taken := Consume('}');
      if taken {
        if stack == [] {
          return false;
        }
        score := score + stack[|stack| - 1];
        stack := stack[..|stack| - 1];
        return true;
      }
      taken := Consume('<');
      if taken {
        state := Garbage;
        return true;
      }
      taken := Consume(',');
      return taken;
    }

    /** One character (or a `!` and the character it cancels) inside garbage. */
    method ParseGarbage()
      requires input != [] && state == Garbage
      modifies this
      ensures Step(old(Snapshot()), old(input)).Ok?
      ensures (Snapshot(), input) == Step(old(Snapshot()), old(input)).value
    {
      var taken := Consume('!');
      if taken {
        ConsumeAny();
        if |old(input)| >= 2 {
          assert old(input)[1..][1..] == old(input)[2..];
        }
        return;
      }
      taken := Consume('>');
      if taken {
        state := Normal;
        return;
      }
      garbageCount := garbageCount + 1;
      ConsumeAny();
    }

    /** `get_score`: runs to the end of the input; `Err` where the source panics. */
    method GetScore() returns (r: Result<(nat, nat)>)
      modifies this
      ensures var run := Run(old(Snapshot()), old(input));
        r == match run case Err(e) => Err(e) case Ok(sc) => Ok((sc.score, sc.garbage))
    {
      while input != []
        invariant Run(Snapshot(), input) == Run(old(Snapshot()), old(input))
        decreases |input|
      {
        var before, text := Snapshot(), input;
        var ok := true;
        match state {
          case Normal => ok := ParseNormal();
          case Garbage => ParseGarbage();
        }
        if !ok {
          return Err(Step(before, text).msg);
        }
      }
      return Ok((score, garbageCount));
    }

    /** `Parser::score`: a fresh parser over the text, run to the end. */
    static method Score(text: string) returns (r: Result<(nat, nat)>)
      ensures r == ScoreOf(text)
    {
      var parser := new Parser(text);
      r := parser.GetScore();
    }
  }
}
