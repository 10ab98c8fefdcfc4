/** Permutation promenade: a line of programs dances through spins, exchanges and partner
    swaps read from a comma-separated list of moves. */
module Dance {
  import opened Common
  import Text
  import Decimal
  import Arith

  /** A dance move: `sN`, `xA/B` or `pA/B`. */
  datatype DanceMove = Spin(amount: nat) | Exchange(pos1: nat, pos2: nat) | Partner(prog1: char, prog2: char)

  /** The programs `a` to `p` in order, the line the dance starts from. */
  const Programs: string := "abcdefghijklmnop"

  // ---------------------------------------------------------------------------------------
  // `parse_move`

  /** One `/`-separated part of an exchange: an index (`usize` parse, `unwrap`ped). */
  function ParseIndex(part: string): (r: Result<nat>)
    ensures r.Ok? <==> Decimal.ParseUnsigned(part).Some?
    ensures r.Ok? ==> r.value == Decimal.ParseUnsigned(part).value
  {
    match Decimal.ParseUnsigned(part)
    case None => Err("invalid index")
    case Some(n) => Ok(n)
  }

  /** `parse_move`: the first character chooses the move and the rest are its arguments.
      An empty move or another first character is no move (`None`); arguments that do not
      parse are an error (the `unwrap`s and the indexing panic). */
  function ParseMove(m: string): (r: Result<Option<DanceMove>>)
    ensures m == [] || m[0] !in {'s', 'x', 'p'} ==> r == Ok(None)
    ensures r.Ok? && r.value.Some? && r.value.value.Spin? ==> m[0] == 's'
    ensures r.Ok? && r.value.Some? && r.value.value.Exchange? ==> m[0] == 'x'
    ensures r.Ok? && r.value.Some? && r.value.value.Partner? ==> m[0] == 'p'
  {
    if m == [] then Ok(None)
    else
      var rest := m[1..];
      if m[0] == 's' then
        match Decimal.ParseUnsigned(rest)
        case None => Err("invalid spin")
        case Some(n) => Ok(Some(Spin(n)))
      else if m[0] == 'x' then
        match MapAll(Text.Split(rest, {'/'}), ParseIndex)
        case Err(e) => Err(e)
        case Ok(parts) => if |parts| < 2 then Err("missing index") else Ok(Some(Exchange(parts[0], parts[1])))
      else if m[0] == 'p' then
        var names := Text.Split(rest, {'/'});
        if names[0] == [] || |names| < 2 || names[1] == [] then Err("missing program name")
        else Ok(Some(Partner(names[0][0], names[1][0])))
      else Ok(None)
  }

  /** How a move is written. */
  function ShowMove(m: DanceMove): string
  {
    match m
    case Spin(n) => "s" + Decimal.ShowNat(n)
    case Exchange(a, b) => "x" + Decimal.ShowNat(a) + "/" + Decimal.ShowNat(b)
    case Partner(a, b) => "p" + [a] + "/" + [b]
  }

  /** Every move written out parses back to itself (partner names must not be `/`). */
  lemma ParseShowMove(m: DanceMove)
    requires m.Partner? ==> m.prog1 != '/' && m.prog2 != '/'
    ensures ParseMove(ShowMove(m)) == Ok(Some(m))
  {
    match m
    case Spin(n) =>
      var s := ShowMove(m);
      assert s[1..] == Decimal.ShowNat(n);
      Decimal.ParseShowNat(n);
    case Exchange(a, b) =>
      ParseShowExchange(a, b);
    case Partner(a, b) =>
      ParseShowPartner(a, b);
  }

  lemma ParseShowExchange(a: nat, b: nat)
    ensures ParseMove(ShowMove(Exchange(a, b))) == Ok(Some(Exchange(a, b)))
  {
    var s := ShowMove(Exchange(a, b));
    var x, y := Decimal.ShowNat(a), Decimal.ShowNat(b);
    assert s[1..] == x + ['/'] + y;
    NoSlash(x);
    NoSlash(y);
    Text.Join3(x, y, "", '/');
    SplitTwo(x, y);
    Decimal.ParseShowNat(a);
    Decimal.ParseShowNat(b);
    MapAllOk([x, y], ParseIndex, [a, b]);
  }

  lemma ParseShowPartner(a: char, b: char)
    requires a != '/' && b != '/'
    ensures ParseMove(ShowMove(Partner(a, b))) == Ok(Some(Partner(a, b)))
  {
    var s := ShowMove(Partner(a, b));
    assert s[1..] == [a] + ['/'] + [b];
    SplitTwo([a], [b]);
  }

  /** Decimal digits hold no `/`. */
  lemma NoSlash(s: string)
    requires Decimal.AllDigits(s)
    ensures forall c :: c in s ==> c != '/'
  {
  }

  /** Two slash-free pieces joined by `/` split back into the two pieces. */
  lemma SplitTwo(x: string, y: string)
    requires forall c :: c in x ==> c != '/'
    requires forall c :: c in y ==> c != '/'
    ensures Text.Split(x + ['/'] + y, {'/'}) == [x, y]
  {
    assert Text.Join([x, y], '/') == x + ['/'] + y;
    Text.SplitJoin([x, y], '/', {'/'});
  }

  // ---------------------------------------------------------------------------------------
  // The moves

  /** The line rotated right by `r` places: its last `r` programs come to the front. */
  function RotatedBy(s: string, r: nat): (t: string)
    requires r <= |s|
    ensures |t| == |s|
  {
    s[|s| - r..] + s[..|s| - r]
  }

  /** The line after `amount` spins of one place each. */
  function Rotated(s: string, amount: nat): (t: string)
    ensures |t| == |s|
  {
    if s == [] then s else RotatedBy(s, amount % |s|)
  }

  /** The first position of `c` in the line. */
  function Position(s: string, c: char): (r: Option<nat>)
    ensures r.Some? <==> c in s
    ensures r.Some? ==> r.value < |s| && s[r.value] == c && c !in s[..r.value]
  {
    if s == [] then None
    else if s[0] == c then Some(0)
    else match Position(s[1..], c)
      case None => None
      case Some(i) => Some(i + 1)
  }

  /** `Vec::swap`: exchanges two positions, which must both be in the line. */
  function SwapAt(s: string, i: nat, j: nat): (r: Result<string>)
    ensures r.Ok? <==> i < |s| && j < |s|
  {
    if i < |s| && j < |s| then Ok(s[i := s[j]][j := s[i]]) else Err("index out of bounds")
  }

  /** One move of `dance`. A spin of an empty line fails at the `pop`, and a partner that is
      not in the line fails at the `expect`. */
  function ApplyMove(s: string, m: DanceMove): Result<string>
  {
    match m
    case Spin(n) => if s == [] && n > 0 then Err("pop from an empty line") else Ok(Rotated(s, n))
    case Exchange(i, j) => SwapAt(s, i, j)
    case Partner(a, b) =>
      match (Position(s, a), Position(s, b))
      case (Some(i), Some(j)) => SwapAt(s, i, j)
      case _ => Err("couldn't find program")
  }

  /** A move as `dance` reads it: parsed, then applied; a move that is not one of the
      three kinds stops the dance. */
  function Step(s: string, text: string): Result<string>
  {
    match ParseMove(text)
    case Err(e) => Err(e)
    case Ok(None) => Err("No dance move found")
    case Ok(Some(m)) => ApplyMove(s, m)
  }

  /** `dance`: the moves in order. */
  function DanceOf(s: string, moves: seq<string>): Result<string>
  {
    if moves == [] then Ok(s)
    else match DanceOf(s, moves[..|moves| - 1])
      case Err(e) => Err(e)
      case Ok(t) => Step(t, moves[|moves| - 1])
  }

  /** `run`: the moves are the trimmed input split at commas, danced by `a` to `p`; a
      finished dance leaves the sixteen programs in some order. */
  function Order(input: string): (r: Result<string>)
    ensures r.Ok? ==> |r.value| == 16 && multiset(r.value) == multiset(Programs)
  {
    var moves := Text.Split(Text.Trim(input), {','});
    if DanceOf(Programs, moves).Ok? then DancePermutes(Programs, moves); DanceOf(Programs, moves)
    else DanceOf(Programs, moves)
  }

  /** The input file, the moves joined by commas and ended by a newline, is read back as
      those moves: the order is their dance. */
  lemma OrderOfMoves(moves: seq<string>)
    requires |moves| >= 1
    requires forall i :: 0 <= i < |moves| ==> moves[i] != [] && forall c :: c in moves[i] ==> c != ',' && c !in Text.Whitespace
    ensures Order(Text.Join(moves, ',')) == DanceOf(Programs, moves)
    ensures Order(Text.Join(moves, ',') + "\n") == DanceOf(Programs, moves)
  {
    var text := Text.Join(moves, ',');
    JoinedMovesTrimmed(moves);
    Text.SplitJoin(moves, ',', {','});
  }

  /** Moves joined by commas neither start nor end with whitespace, so trimming them, or
      them and a final newline, leaves the join. */
  lemma JoinedMovesTrimmed(moves: seq<string>)
    requires |moves| >= 1
    requires forall i :: 0 <= i < |moves| ==> moves[i] != [] && forall c :: c in moves[i] ==> c != ',' && c !in Text.Whitespace
    ensures Text.Trim(Text.Join(moves, ',')) == Text.Join(moves, ',')
    ensures Text.Trim(Text.Join(moves, ',') + "\n") == Text.Join(moves, ',')
  {
    var text := Text.Join(moves, ',');
    Text.JoinStarts(moves, ',');
    Text.JoinEnds(moves, ',');
    var last := moves[|moves| - 1];
    assert last[|last| - 1] in last;
    assert moves[0][0] in moves[0];
    Text.TrimKeeps(text);
    Text.TrimNewline(text);
  }

  // ---------------------------------------------------------------------------------------
  // The loops of `dance`

  /** The spin loop: `amount` times, the last program is popped and inserted at the front. */
  method SpinLine(programs: string, amount: nat) returns (r: Result<string>)
    ensures r == ApplyMove(programs, Spin(amount))
  {
    var line := programs;
    ghost var shift: nat := 0;
    for i := 0 to amount
      invariant |line| == |programs|
      invariant programs != [] ==> shift == i % |programs| && line == RotatedBy(programs, shift)
      invariant programs == [] ==> i == 0
    {
      if line == [] {
        return Err("pop from an empty line");
      }
      var program := line[|line| - 1];
      line := [program] + line[..|line| - 1];
      RotateOnce(programs, shift);
      Arith.ModNext(i, |programs|);
      shift := if shift + 1 == |programs| then 0 else shift + 1;
    }
    if programs == [] {
      return Ok(programs);
    }
    r := Ok(line);
  }

  /** Moving the last program to the front rotates one place further. */
  lemma RotateOnce(s: string, r: nat)
    requires r < |s|
    ensures [RotatedBy(s, r)[|s| - 1]] + RotatedBy(s, r)[..|s| - 1]
         == RotatedBy(s, if r + 1 == |s| then 0 else r + 1)
  {
    var n := |s|;
    var t := RotatedBy(s, r);
    if r + 1 == n {
      assert t[n - 1] == s[0];
      assert t[..n - 1] == s[1..];
      assert [s[0]] + s[1..] == s;
    } else {
      assert t[n - 1] == s[n - r - 1];
      assert t[..n - 1] == s[n - r..] + s[..n - r - 1];
      assert [s[n - r - 1]] + s[n - r..] == s[n - r - 1..];
    }
  }

  /** `dance`: parses and applies each move in order, stopping at the first failure. */
  method Dance(programs: string, moves: seq<string>) returns (r: Result<string>)
    ensures r == DanceOf(programs, moves)
  {
    var line := programs;
    for k := 0 to |moves|
      invariant DanceOf(programs, moves[..k]) == Ok(line)
    {
      var next: Result<string>;
      match ParseMove(moves[k]) {
        case Err(e) =>
          next := Err(e);
        case Ok(None) =>
          next := Err("No dance move found");
        case Ok(Some(m)) =>
          next := Move(line, m);
      }
      DanceAfter(programs, moves, k, line);
      if next.Err? {
        DanceStops(programs, moves, k + 1);
        return next;
      }
      line := next.value;
    }
    assert moves[..|moves|] == moves;
    r := Ok(line);
  }

  /** One arm of the `match` in `dance`. */
  method Move(line: string, m: DanceMove) returns (next: Result<string>)
    ensures next == ApplyMove(line, m)
  {
    match m {
      case Spin(amount) =>
        next := SpinLine(line, amount);
      case Exchange(pos1, pos2) =>
        next := SwapAt(line, pos1, pos2);
      case Partner(prog1, prog2) =>
        var pos1 := Position(line, prog1);
        var pos2 := Position(line, prog2);
        if pos1.None? || pos2.None? {
          next := Err("couldn't find program");
        } else {
          next := SwapAt(line, pos1.value, pos2.value);
        }
    }
  }

  /** The dance up to move `k` is the dance before it followed by that move. */
  lemma DanceAfter(programs: string, moves: seq<string>, k: nat, line: string)
    requires k < |moves| && DanceOf(programs, moves[..k]) == Ok(line)
    ensures DanceOf(programs, moves[..k + 1]) == Step(line, moves[k])
  {
    assert moves[..k + 1][..k] == moves[..k];
  }

  /** Once a move fails, the dance has failed with that move's error. */
  lemma {:induction false} DanceStops(programs: string, moves: seq<string>, k: nat)
    requires 0 < k <= |moves| && DanceOf(programs, moves[..k]).Err?
    ensures DanceOf(programs, moves) == DanceOf(programs, moves[..k])
    decreases |moves| - k
  {
    if k < |moves| {
      assert moves[..k + 1][..k] == moves[..k];
      DanceStops(programs, moves, k + 1);
    } else {
      assert moves[..k] == moves;
    }
  }

  // ---------------------------------------------------------------------------------------
  // What the moves keep

  /** A rotation keeps the programs, only moving them. */
  lemma RotatedPermutes(s: string, amount: nat)
    ensures multiset(Rotated(s, amount)) == multiset(s)
  {
    if s != [] {
      var r := amount % |s|;
      assert s == s[..|s| - r] + s[|s| - r..];
    }
  }

  /** A rotation by the whole length, or by nothing, leaves the line as it was. */
  lemma RotatedFull(s: string)
    ensures Rotated(s, |s|) == s && Rotated(s, 0) == s
  {
    if s != [] {
      Arith.ModUnique(|s|, |s|, 1, 0);
      Arith.ModUnique(0, |s|, 0, 0);
    }
  }

  /** A swap changes the two positions and nothing else, and keeps the programs. */
  lemma SwapAtExchanges(s: string, i: nat, j: nat)
    requires i < |s| && j < |s|
    ensures |SwapAt(s, i, j).value| == |s|
    ensures SwapAt(s, i, j).value[i] == s[j] && SwapAt(s, i, j).value[j] == s[i]
    ensures forall k :: 0 <= k < |s| && k != i && k != j ==> SwapAt(s, i, j).value[k] == s[k]
    ensures multiset(SwapAt(s, i, j).value) == multiset(s)
  {
    var t := s[i := s[j]];
    assert multiset(t) == multiset(s) - multiset{s[i]} + multiset{s[j]};
    assert multiset(t[j := s[i]]) == multiset(t) - multiset{t[j]} + multiset{s[i]};
  }

  /** A partner move exchanges the first places of the two names; a missing name fails. */
  lemma PartnerSwapsNames(s: string, a: char, b: char)
    ensures ApplyMove(s, Partner(a, b)).Ok? <==> a in s && b in s
    ensures a in s && b in s ==>
      ApplyMove(s, Partner(a, b)) == SwapAt(s, Position(s, a).value, Position(s, b).value)
  {
  }

  /** Every move keeps the length of the line and the programs in it. */
  lemma MovePermutes(s: string, m: DanceMove)
    requires ApplyMove(s, m).Ok?
    ensures |ApplyMove(s, m).value| == |s|
    ensures multiset(ApplyMove(s, m).value) == multiset(s)
  {
    match m
    case Spin(n) => RotatedPermutes(s, n);
    case Exchange(i, j) => SwapAtExchanges(s, i, j);
    case Partner(a, b) => SwapAtExchanges(s, Position(s, a).value, Position(s, b).value);
  }

  /** A whole dance keeps the programs. */
  lemma {:induction false} DancePermutes(s: string, moves: seq<string>)
    requires DanceOf(s, moves).Ok?
    ensures |DanceOf(s, moves).value| == |s|
    ensures multiset(DanceOf(s, moves).value) == multiset(s)
  {
    if moves != [] {
      var t := DanceOf(s, moves[..|moves| - 1]).value;
      DancePermutes(s, moves[..|moves| - 1]);
      MovePermutes(t, ParseMove(moves[|moves| - 1]).value.value);
    }
  }

  /** A move that is not one of the three kinds stops the dance. */
  lemma UnknownMoveFails(s: string, moves: seq<string>)
    requires moves != [] && DanceOf(s, moves[..|moves| - 1]).Ok?
    requires ParseMove(moves[|moves| - 1]) == Ok(None)
    ensures DanceOf(s, moves).Err?
  {
  }

  // ---------------------------------------------------------------------------------------
  // The test dance: `abcde` with `s1`, `x3/4`, `pe/b` ends as `baedc`

  /** The three test moves as written. */
  lemma SampleShown()
    ensures ShowMove(Spin(1)) == "s1"
    ensures ShowMove(Exchange(3, 4)) == "x3/4"
    ensures ShowMove(Partner('e', 'b')) == "pe/b"
  {
    assert Decimal.ShowNat(1) == "1" && Decimal.ShowNat(3) == "3" && Decimal.ShowNat(4) == "4";
  }

  lemma SampleSpin(m: string)
    requires m == ShowMove(Spin(1))
    ensures Step("abcde", m) == Ok("eabcd")
  {
    ParseShowMove(Spin(1));
    Arith.ModUnique(1, 5, 0, 1);
    assert "abcde"[4..] + "abcde"[..4] == "eabcd";
  }

  lemma SampleExchange(m: string)
    requires m == ShowMove(Exchange(3, 4))
    ensures Step("eabcd", m) == Ok("eabdc")
  {
    ParseShowMove(Exchange(3, 4));
    assert "eabcd"[3 := 'd'][4 := 'c'] == "eabdc";
  }

  lemma SamplePartner(m: string)
    requires m == ShowMove(Partner('e', 'b'))
    ensures Step("eabdc", m) == Ok("baedc")
  {
    ParseShowMove(Partner('e', 'b'));
    assert Position("eabdc", 'e') == Some(0);
    assert Position("eabdc", 'b') == Some(2);
    assert "eabdc"[0 := 'b'][2 := 'e'] == "baedc";
  }

  /** One more move, applied to the line the earlier moves left. */
  lemma DanceNext(s: string, moves: seq<string>, m: string, before: string, after: string)
    requires DanceOf(s, moves) == Ok(before) && Step(before, m) == Ok(after)
    ensures DanceOf(s, moves + [m]) == Ok(after)
  {
    assert (moves + [m])[..|moves|] == moves;
  }

  lemma SampleFirstTwo(a: string, b: string)
    requires a == ShowMove(Spin(1)) && b == ShowMove(Exchange(3, 4))
    ensures DanceOf("abcde", [a, b]) == Ok("eabdc")
  {
    SampleSpin(a);
    DanceNext("abcde", [], a, "abcde", "eabcd");
    SampleExchange(b);
    assert [a] == [] + [a];
    DanceNext("abcde", [a], b, "eabcd", "eabdc");
    assert [a, b] == [a] + [b];
  }

  /** The test dance: `abcde` with `s1`, `x3/4`, `pe/b` ends as `baedc`. */
  lemma SampleDance(start: string, moves: seq<string>)
    requires start == "abcde" && moves == ["s1", "x3/4", "pe/b"]
    ensures DanceOf(start, moves) == Ok("baedc")
  {
    SampleShown();
    var a, b, c := moves[0], moves[1], moves[2];
    SampleFirstTwo(a, b);
    SamplePartner(c);
    DanceNext(start, [a, b], c, "eabdc", "baedc");
    assert moves == [a, b] + [c];
  }
}
