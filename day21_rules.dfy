/** Enhancement rules: the text form of pictures and rules, matching a picture against a
    rule's pattern up to rotation and flipping, and looking up the first matching rule. */
module FractalRules {
  import opened Common
  import opened Text
  import opened PixelGrid
  import opened PixBufs

  // ---------------------------------------------------------------------------------------
  // Pictures as text: rows of `#` (on) and `.` (off) joined by `/`

  /** One pattern character. */
  function PixelOf(ch: char): (r: Result<bool>)
    ensures r.Ok? <==> ch == '#' || ch == '.'
    ensures r.Ok? ==> (r.value <==> ch == '#')
  {
    if ch == '#' then Ok(true)
    else if ch == '.' then Ok(false)
    else Err("Invalid pattern character")
  }

  function PixelChar(b: bool): (ch: char)
    ensures PixelOf(ch) == Ok(b)
  {
    if b then '#' else '.'
  }

  /** Pixels written out, one character each. */
  function Render(bits: seq<bool>): (s: string)
    ensures |s| == |bits| && forall i :: 0 <= i < |s| ==> s[i] == PixelChar(bits[i])
  {
    seq(|bits|, i requires 0 <= i < |bits| => PixelChar(bits[i]))
  }

  /** The pieces one after another, with nothing between them (`join("")`). */
  function Concat(parts: seq<string>): string
  {
    if parts == [] then [] else parts[0] + Concat(parts[1..])
  }

  /** `PixBuf::from_str`: the side is the number of `/`-separated pieces of the trimmed
      text and the pixels are their characters in order. The side is never 0, since
      splitting gives at least one piece; nothing checks that the pieces are as long as
      there are pieces. */
  function ParseImage(s: string): (r: Result<Image>)
    ensures r.Ok? ==> r.value.size >= 1
  {
    var parts := Split(Trim(s), {'/'});
    match MapAll(Concat(parts), PixelOf)
    case Err(e) => Err(e)
    case Ok(pixels) => Ok(Image(|parts|, pixels))
  }

  /** Rows of `n` pixels, the last one possibly shorter (`chunks(n)`), each written out. */
  function Rows(bits: seq<bool>, n: nat): (rows: seq<string>)
    requires n > 0
    ensures forall i :: 0 <= i < |rows| ==> forall c :: c in rows[i] ==> c == '#' || c == '.'
    ensures forall i :: 0 <= i < |rows| ==> rows[i] != []
    decreases |bits|
  {
    if bits == [] then []
    else if |bits| <= n then [Render(bits)]
    else [Render(bits[..n])] + Rows(bits[n..], n)
  }

  /** `PixBuf::to_string`; `chunks` refuses a chunk size of 0. */
  function ToString(img: Image): string
    requires img.size > 0
  {
    Join(Rows(img.pixels, img.size), '/')
  }

  /** The rows hold the pixels, in order. */
  lemma {:induction false} ConcatRows(bits: seq<bool>, n: nat)
    requires n > 0
    ensures Concat(Rows(bits, n)) == Render(bits)
    decreases |bits|
  {
    if |bits| > n {
      ConcatRows(bits[n..], n);
      assert Render(bits) == Render(bits[..n]) + Render(bits[n..]);
    }
  }

  /** `k` rows' worth of pixels make `k` rows. */
  lemma {:induction false} RowCount(bits: seq<bool>, n: nat, k: nat)
    requires n > 0 && |bits| == k * n
    ensures |Rows(bits, n)| == k
  {
    if k > 1 {
      assert |bits[n..]| == (k - 1) * n;
      RowCount(bits[n..], n, k - 1);
    }
  }

  /** Every character of the concatenation comes from one of the pieces. */
  lemma {:induction false} ConcatHas(parts: seq<string>, c: char)
    ensures c in Concat(parts) <==> exists i :: 0 <= i < |parts| && c in parts[i]
  {
    if parts != [] {
      ConcatHas(parts[1..], c);
      forall i | 1 <= i < |parts| && c in parts[i]
        ensures exists j :: 0 <= j < |parts[1..]| && c in parts[1..][j]
      {
        assert parts[1..][i - 1] == parts[i];
      }
    }
  }

  /** A square picture of side `n` has `n` rows. */
  lemma RowsOfSquare(img: Image)
    requires Square(img) && img.size > 0
    ensures |Rows(img.pixels, img.size)| == img.size
  {
    AreaFormula(img.size);
    RowCount(img.pixels, img.size, img.size);
  }

  /** A square picture's text starts and ends with a pixel. */
  lemma ToStringEnds(img: Image)
    requires Square(img) && img.size > 0
    ensures var s := ToString(img); s != [] && s[0] in {'#', '.'} && s[|s| - 1] in {'#', '.'}
  {
    var rows := Rows(img.pixels, img.size);
    RowsOfSquare(img);
    JoinStarts(rows, '/');
    JoinEnds(rows, '/');
    assert rows[0][0] in rows[0];
    var last := rows[|rows| - 1];
    assert last[|last| - 1] in last;
  }

  /** The text of a picture reads back as the same picture. */
  lemma ParseToString(img: Image)
    requires Square(img) && img.size > 0
    ensures ParseImage(ToString(img)) == Ok(img)
  {
    var n := img.size;
    var rows := Rows(img.pixels, n);
    RowsOfSquare(img);
    ToStringEnds(img);
    TrimKeeps(ToString(img));
    SplitJoin(rows, '/', {'/'});
    ConcatRows(img.pixels, n);
    MapAllOk(Render(img.pixels), PixelOf, img.pixels);
  }

  /** Exactly the texts made of `#`, `.` and `/`, after trimming, are read as pictures. */
  lemma ParseImageAccepts(s: string)
    ensures ParseImage(s).Ok? <==> forall c :: c in Trim(s) ==> c in {'#', '.', '/'}
  {
    var t := Trim(s);
    var parts := Split(t, {'/'});
    var chars := Concat(parts);
    JoinSplit(t, '/');
    if forall c :: c in t ==> c in {'#', '.', '/'} {
      forall k | 0 <= k < |chars|
        ensures PixelOf(chars[k]).Ok?
      {
        var c := chars[k];
        assert c in chars;
        ConcatHas(parts, c);
        var i :| 0 <= i < |parts| && c in parts[i];
        assert c != '/';
        JoinHas(parts, '/', c);
      }
    } else {
      var c :| c in t && c !in {'#', '.', '/'};
      JoinHas(parts, '/', c);
      var i :| 0 <= i < |parts| && c in parts[i];
      ConcatHas(parts, c);
      var k :| 0 <= k < |chars| && chars[k] == c;
      assert !PixelOf(chars[k]).Ok?;
    }
  }

  // ---------------------------------------------------------------------------------------
  // Rules

  /** `Rule`: a pattern and the picture that replaces it. */
  datatype Rule = Rule(pattern: Image, replacement: Image)

  /** The text of a rule, as `Rule::from_str` reads it. */
  function ShowRule(rule: Rule): string
    requires rule.pattern.size > 0 && rule.replacement.size > 0
  {
    ToString(rule.pattern) + " => " + ToString(rule.replacement)
  }

  /** `Rule::from_str`: the text before the first ` => ` is the pattern, the text after it
      up to any further ` => ` the replacement. Without a ` => ` there is no second piece
      to take. */
  function ParseRule(s: string): (r: Result<Rule>)
    ensures r.Ok? ==> Find(s, " => ").Some?
  {
    match Find(s, " => ")
    case None => Err("index out of bounds: the len is 1 but the index is 1")
    case Some(i) =>
      var rest := s[i + 4..];
      var second := match Find(rest, " => ") case None => rest case Some(j) => rest[..j];
      match ParseImage(s[..i])
      case Err(e) => Err(e)
      case Ok(pattern) =>
        match ParseImage(second)
        case Err(e) => Err(e)
        case Ok(replacement) => Ok(Rule(pattern, replacement))
  }

  /** Text that holds no space holds no ` => `. */
  lemma NoArrow(s: string)
    requires ' ' !in s
    ensures forall j :: !OccursAt(s, " => ", j)
  {
    forall j: nat
      ensures !OccursAt(s, " => ", j)
    {
      if j + 4 <= |s| {
        assert s[j..j + 4][0] == s[j] && s[j] in s;
      }
    }
  }

  /** Two space-free texts joined by ` => ` are cut apart at the arrow between them. */
  lemma ArrowSplit(a: string, b: string)
    requires ' ' !in a && ' ' !in b
    ensures var s := a + " => " + b;
      Find(s, " => ") == Some(|a|) && s[..|a|] == a && s[|a| + 4..] == b && Find(b, " => ") == None
  {
    NoArrow(b);
    forall j | 0 <= j < |a|
      ensures !OccursAt(a + " => ", " => ", j)
    {
      assert (a + " => ")[j] == a[j] && a[j] in a;
    }
    FindAfterPrefix(a, " => ", b);
    var s := a + " => " + b;
    assert s[..|a|] == a;
    assert s[|a| + 4..] == b;
  }

  /** The characters of a picture's text. */
  lemma ToStringChars(img: Image)
    requires img.size > 0
    ensures forall c :: c in ToString(img) ==> c in {'#', '.', '/'}
  {
    var rows := Rows(img.pixels, img.size);
    forall c | c in ToString(img)
      ensures c in {'#', '.', '/'}
    {
      if c != '/' {
        JoinHas(rows, '/', c);
      }
    }
  }

  /** A picture's text holds no space and no line break. */
  lemma ToStringPlain(img: Image)
    requires img.size > 0
    ensures ' ' !in ToString(img) && '\n' !in ToString(img)
  {
    ToStringChars(img);
  }

  /** The text of a rule reads back as the same rule. */
  lemma ParseShowRule(rule: Rule)
    requires Square(rule.pattern) && rule.pattern.size > 0
    requires Square(rule.replacement) && rule.replacement.size > 0
    ensures ParseRule(ShowRule(rule)) == Ok(rule)
  {
    ToStringPlain(rule.pattern);
    ToStringPlain(rule.replacement);
    ParseToString(rule.pattern);
    ParseToString(rule.replacement);
    ParseArrow(ToString(rule.pattern), ToString(rule.replacement), rule);
  }

  /** Two space-free texts that read as pictures, joined by ` => `, read as the rule. */
  lemma ParseArrow(a: string, b: string, rule: Rule)
    requires ' ' !in a && ' ' !in b
    requires ParseImage(a) == Ok(rule.pattern) && ParseImage(b) == Ok(rule.replacement)
    ensures ParseRule(a + " => " + b) == Ok(rule)
  {
    ArrowSplit(a, b);
  }

  /** `Rulebook`: the rules in the order they were written. */
  datatype Rulebook = Rulebook(rules: seq<Rule>)

  /** `Rulebook::from_str`: one rule per line of the trimmed text. */
  function ParseRulebook(s: string): (r: Result<Rulebook>)
    ensures r.Ok? ==> |r.value.rules| == |Lines(Trim(s))|
  {
    match MapAll(Lines(Trim(s)), ParseRule)
    case Err(e) => Err(e)
    case Ok(rules) => Ok(Rulebook(rules))
  }

  /** A rule whose pictures are square, not empty, and so can be written out. */
  predicate Writable(rule: Rule)
  {
    Square(rule.pattern) && rule.pattern.size > 0 && Square(rule.replacement) && rule.replacement.size > 0
  }

  /** The rules written one per line. */
  function ShowRulebook(rules: seq<Rule>): (lines: seq<string>)
    requires forall i :: 0 <= i < |rules| ==> Writable(rules[i])
    ensures |lines| == |rules| && forall i :: 0 <= i < |rules| ==> Writable(rules[i]) && lines[i] == ShowRule(rules[i])
  {
    seq(|rules|, i requires 0 <= i < |rules| && Writable(rules[i]) => ShowRule(rules[i]))
  }

  /** A rule's text neither starts nor ends with whitespace and holds no line break. */
  lemma ShowRuleShape(rule: Rule)
    requires Writable(rule)
    ensures var s := ShowRule(rule);
      s != [] && s[0] !in Whitespace && s[|s| - 1] !in Whitespace && '\n' !in s
  {
    var a, b := ToString(rule.pattern), ToString(rule.replacement);
    ToStringEnds(rule.pattern);
    ToStringEnds(rule.replacement);
    ToStringPlain(rule.pattern);
    ToStringPlain(rule.replacement);
    PixelNotWhitespace(a[0]);
    PixelNotWhitespace(b[|b| - 1]);
    var s := ShowRule(rule);
    assert s[0] == a[0] && s[|s| - 1] == b[|b| - 1];
  }

  lemma PixelNotWhitespace(c: char)
    requires c in {'#', '.'}
    ensures c !in Whitespace
  {
  }

  /** The rules written one per line read back as the same rule book. */
  lemma ParseShowRulebook(rules: seq<Rule>)
    requires |rules| >= 1 && forall i :: 0 <= i < |rules| ==> Writable(rules[i])
    ensures ParseRulebook(Join(ShowRulebook(rules), '\n')) == Ok(Rulebook(rules))
  {
    var lines := ShowRulebook(rules);
    RulebookLines(rules);
    forall i | 0 <= i < |lines|
      ensures ParseRule(lines[i]) == Ok(rules[i])
    {
      ParseShowRule(rules[i]);
    }
    MapAllOk(lines, ParseRule, rules);
  }

  /** The rule book's text, trimmed and cut into lines, gives back the rules' lines. */
  lemma RulebookLines(rules: seq<Rule>)
    requires |rules| >= 1 && forall i :: 0 <= i < |rules| ==> Writable(rules[i])
    ensures var lines := ShowRulebook(rules); Lines(Trim(Join(lines, '\n'))) == lines
  {
    var lines := ShowRulebook(rules);
    forall i | 0 <= i < |lines|
      ensures lines[i] != [] && '\n' !in lines[i]
      ensures lines[i][0] !in Whitespace && lines[i][|lines[i]| - 1] !in Whitespace
    {
      ShowRuleShape(rules[i]);
    }
    var s := Join(lines, '\n');
    JoinStarts(lines, '\n');
    JoinEnds(lines, '\n');
    TrimKeeps(s);
    LinesJoin(lines);
  }

  // ---------------------------------------------------------------------------------------
  // Matching

  /** The three pictures `matches` compares with the pattern after `t` quarter turns: the
      turned picture, that mirrored left to right, and that also mirrored top to bottom. */
  predicate Candidate(pattern: Image, check: Image, t: nat)
  {
    Rotations(t, check) == pattern ||
    FlipHorizontal(Rotations(t, check)) == pattern ||
    FlipVertical(FlipHorizontal(Rotations(t, check))) == pattern
  }

  /** What `Rule::matches` decides: the sizes agree, and the picture is the pattern or
      becomes it after one to four quarter turns, possibly followed by the flips. */
  predicate MatchesOf(pattern: Image, check: Image)
  {
    check.size == pattern.size &&
    (check == pattern || exists t :: 1 <= t <= 4 && Candidate(pattern, check, t))
  }

  /** `matches` turns the picture, so it must not be empty unless it is the pattern itself:
      the transpose's `size - 1` would wrap. */
  predicate CanCompare(pattern: Image, check: PixBuf)
  {
    check.size > 0 || Square(pattern)
  }

  /** `Rule::matches`. */
  method Matches(rule: Rule, check: PixBuf) returns (r: bool)
    requires check.Valid() && CanCompare(rule.pattern, check)
    ensures r == MatchesOf(rule.pattern, check.View())
  {
    if rule.pattern.size != check.size {
      return false;
    }
    if check.View() == rule.pattern {
      return true;
    }
    ghost var c := check.View();
    var clone := new PixBuf.Clone(check);
    for i := 0 to 4
      invariant clone.Valid() && fresh(clone.pixels) && clone.size == check.size
      invariant clone.View() == Rotations(i, c)
      invariant forall t :: 1 <= t <= i ==> !Candidate(rule.pattern, c, t)
    {
      var found := TryTurn(clone, rule.pattern, c, i);
      if found {
        return true;
      }
    }
    return false;
  }

  /** One round of `matches`' loop: a quarter turn, then each flip in turn, compared with
      the pattern after each step; the flips are undone at the end. */
  method TryTurn(clone: PixBuf, pattern: Image, ghost c: Image, i: nat) returns (found: bool)
    requires clone.Valid() && clone.size > 0 && clone.View() == Rotations(i, c)
    modifies clone.pixels
    ensures found == Candidate(pattern, c, i + 1)
    ensures !found ==> clone.View() == Rotations(i + 1, c)
  {
    clone.Rotate();
    if clone.View() == pattern {
      return true;
    }
    clone.Flip(Horizontal);
    if clone.View() == pattern {
      return true;
    }
    clone.Flip(Vertical);
    if clone.View() == pattern {
      return true;
    }
    FlipTwice(FlipHorizontal(Rotations(i + 1, c)), Vertical);
    clone.Flip(Vertical);
    FlipTwice(Rotations(i + 1, c), Horizontal);
    clone.Flip(Horizontal);
    return false;
  }

  /** Every candidate is one of the eight symmetries of the square. */
  lemma CandidateIsSymmetry(pattern: Image, check: Image, t: nat)
    requires Square(check) && Candidate(pattern, check, t)
    ensures exists s :: Transform(s, check) == pattern
  {
    var r := Rotations(t, check);
    if r == pattern {
      assert Transform(Symmetry(t, false), check) == pattern;
    } else if FlipHorizontal(r) == pattern {
      assert Transform(Symmetry(t, true), check) == pattern;
    } else {
      if t == 0 {
        BothFlipsAreHalfTurn(check);
      } else {
        BothFlipsAreHalfTurn(r);
      }
      RotationsAdd(2, t, check);
      assert Transform(Symmetry(t + 2, false), check) == pattern;
    }
  }

  /** Every symmetry of the square is among the candidates. */
  lemma SymmetryIsCandidate(s: Symmetry, check: Image)
    requires Square(check)
    ensures exists t :: 1 <= t <= 4 && Candidate(Transform(s, check), check, t)
  {
    var t := if s.turns % 4 == 0 then 4 else s.turns % 4;
    SymmetryTurnsMod(s, Symmetry(t, s.mirrored), check);
    if t == 4 {
      RotationsMod(4, check);
    }
    assert Candidate(Transform(s, check), check, t);
  }

  /** A picture matches a pattern exactly when some rotation, possibly mirrored, turns it
      into the pattern. */
  lemma MatchesIffSymmetry(pattern: Image, check: Image)
    requires Square(check)
    ensures MatchesOf(pattern, check) <==> exists s :: Transform(s, check) == pattern
  {
    if MatchesOf(pattern, check) {
      if check == pattern {
        assert Transform(Symmetry(0, false), check) == pattern;
      } else {
        var t :| 1 <= t <= 4 && Candidate(pattern, check, t);
        CandidateIsSymmetry(pattern, check, t);
      }
    }
    if exists s :: Transform(s, check) == pattern {
      var s :| Transform(s, check) == pattern;
      SymmetryIsCandidate(s, check);
      TransformKeepsSize(s, check);
    }
  }

  lemma TransformKeepsSize(s: Symmetry, img: Image)
    ensures Transform(s, img).size == img.size
  {
  }

  /** A pattern matches any picture made from it by turns and flips, in any order. */
  lemma MatchesAnyOps(pattern: Image, ops: seq<Op>)
    requires Square(pattern)
    ensures MatchesOf(pattern, Apply(ops, pattern))
  {
    var s := Compose(ops);
    ApplyIsSymmetry(ops, pattern);
    var check := Transform(s, pattern);
    TransformSquare(s, pattern);
    InverseUndoes(s, pattern);
    MatchesIffSymmetry(pattern, check);
  }

  lemma TransformSquare(s: Symmetry, img: Image)
    requires Square(img)
    ensures Square(Transform(s, img)) && Transform(s, img).size == img.size
  {
  }

  // ---------------------------------------------------------------------------------------
  // Looking up a replacement

  /** The index of the first rule whose pattern matches. */
  function FirstMatch(rules: seq<Rule>, img: Image): (r: Option<nat>)
    ensures r.Some? ==> r.value < |rules| && MatchesOf(rules[r.value].pattern, img)
    ensures r.Some? ==> forall j :: 0 <= j < r.value ==> !MatchesOf(rules[j].pattern, img)
    ensures r.None? ==> forall j :: 0 <= j < |rules| ==> !MatchesOf(rules[j].pattern, img)
  {
    if rules == [] then None
    else if MatchesOf(rules[0].pattern, img) then Some(0)
    else match FirstMatch(rules[1..], img)
      case None => None
      case Some(i) => Some(i + 1)
  }

  /** `Rulebook::get_replacement`: the replacement of the first rule that matches. */
  method GetReplacement(book: Rulebook, search: PixBuf) returns (r: Option<Image>)
    requires search.Valid()
    requires forall i :: 0 <= i < |book.rules| ==> CanCompare(book.rules[i].pattern, search)
    ensures r.None? <==> FirstMatch(book.rules, search.View()).None?
    ensures r.Some? ==> r.value == book.rules[FirstMatch(book.rules, search.View()).value].replacement
  {
    for i := 0 to |book.rules|
      invariant forall j :: 0 <= j < i ==> !MatchesOf(book.rules[j].pattern, search.View())
    {
      var m := Matches(book.rules[i], search);
      if m {
        return Some(book.rules[i].replacement);
      }
    }
    return None;
  }
}
