/** Splitting and joining text on separator characters, and substring search. */
module Text {
  import opened Common

  /** Index of the first separator character in `s`, or `|s|` when there is none. */
  function FirstSep(s: string, seps: set<char>): (i: nat)
    ensures i <= |s| && (i < |s| ==> s[i] in seps)
    ensures forall j :: 0 <= j < i ==> s[j] !in seps
  {
    if s == [] || s[0] in seps then 0 else 1 + FirstSep(s[1..], seps)
  }

  /** Pieces of `s` between separator characters, as Rust's `str::split` with a character
      pattern produces them: empty pieces are kept, and there is always at least one piece. */
  function Split(s: string, seps: set<char>): (parts: seq<string>)
    ensures |parts| >= 1
    ensures forall i :: 0 <= i < |parts| ==> forall c :: c in parts[i] ==> c !in seps
    decreases |s|
  {
    var i := FirstSep(s, seps);
    if i == |s| then [s] else [s[..i]] + Split(s[i + 1..], seps)
  }

  /** The pieces glued back together with `sep` between neighbours. */
  function Join(parts: seq<string>, sep: char): (s: string)
    ensures |parts| == 1 ==> s == parts[0]
  {
    if |parts| == 0 then []
    else if |parts| == 1 then parts[0]
    else parts[0] + [sep] + Join(parts[1..], sep)
  }

  /** Three pieces joined: the first, the separator, the second, the separator, the third. */
  lemma Join3(a: string, b: string, c: string, sep: char)
    ensures Join([a, b, c], sep) == a + [sep] + b + [sep] + c
  {
    assert [a, b, c][1..] == [b, c];
    assert [b, c][1..] == [c];
  }

  /** The first separator of `a + [sep] + b` is the one after `a` when `a` holds none. */
  lemma {:induction false} FirstSepAfter(a: string, sep: char, b: string, seps: set<char>)
    requires sep in seps && forall c :: c in a ==> c !in seps
    ensures FirstSep(a + [sep] + b, seps) == |a|
  {
    if a != [] {
      FirstSepAfter(a[1..], sep, b, seps);
      assert (a + [sep] + b)[1..] == a[1..] + [sep] + b;
    }
  }

  /** Text without separators has its first separator at its end. */
  lemma {:induction false} FirstSepNone(a: string, seps: set<char>)
    requires forall c :: c in a ==> c !in seps
    ensures FirstSep(a, seps) == |a|
  {
    if a != [] {
      FirstSepNone(a[1..], seps);
    }
  }

  /** Splitting on one character and joining on it again gives back the text. */
  lemma {:induction false} JoinSplit(s: string, sep: char)
    ensures Join(Split(s, {sep}), sep) == s
    decreases |s|
  {
    var i := FirstSep(s, {sep});
    if i < |s| {
      var head, rest := s[..i], s[i + 1..];
      assert s[i] == sep;
      assert s == head + [sep] + rest;
      JoinSplit(rest, sep);
      var tail := Split(rest, {sep});
      assert Split(s, {sep}) == [head] + tail;
      JoinCons(head, tail, sep);
    }
  }

  /** Joining one more piece in front adds it and a separator, when more pieces follow. */
  lemma JoinCons(head: string, tail: seq<string>, sep: char)
    requires |tail| >= 1
    ensures Join([head] + tail, sep) == head + [sep] + Join(tail, sep)
  {
    assert ([head] + tail)[1..] == tail;
  }

  /** Joining pieces that hold no separator character and splitting again on a set of
      separators that includes the joining one gives back the pieces. */
  lemma {:induction false} SplitJoin(parts: seq<string>, sep: char, seps: set<char>)
    requires |parts| >= 1 && sep in seps
    requires forall i :: 0 <= i < |parts| ==> forall c :: c in parts[i] ==> c !in seps
    ensures Split(Join(parts, sep), seps) == parts
  {
    var s := Join(parts, sep);
    if |parts| == 1 {
      FirstSepNone(parts[0], seps);
    } else {
      var rest := Join(parts[1..], sep);
      assert s == parts[0] + [sep] + rest;
      FirstSepAfter(parts[0], sep, rest, seps);
      assert s[..|parts[0]|] == parts[0];
      assert s[|parts[0]| + 1..] == rest;
      SplitJoin(parts[1..], sep, seps);
      assert [parts[0]] + parts[1..] == parts;
    }
  }

  /** Rust's `str::lines`: the pieces between newlines, without a final empty piece
      after a trailing newline; a line ended by `"\r\n"` loses its carriage return. A
      last line with no newline after it keeps a final carriage return. */
  function Lines(s: string): (lines: seq<string>)
    ensures forall i :: 0 <= i < |lines| ==> '\n' !in lines[i]
    ensures s == [] ==> lines == []
  {
    if s == [] then [] else LinesOf(Split(s, {'\n'}))
  }

  /** The lines given by the pieces between newlines: every piece but the last was ended
      by a newline and loses one final carriage return; the last is dropped when empty. */
  function LinesOf(parts: seq<string>): (lines: seq<string>)
    requires |parts| >= 1
    requires forall i :: 0 <= i < |parts| ==> '\n' !in parts[i]
    ensures forall i :: 0 <= i < |lines| ==> '\n' !in lines[i]
  {
    var last := parts[|parts| - 1];
    Chomped(parts[..|parts| - 1]) + (if last == [] then [] else [last])
  }

  /** Pieces none of which but the last ends in a carriage return, the last not empty,
      are their own lines. */
  lemma LinesOfKeeps(parts: seq<string>)
    requires |parts| >= 1 && parts[|parts| - 1] != []
    requires forall i :: 0 <= i < |parts| ==> '\n' !in parts[i]
    requires forall i :: 0 <= i < |parts| - 1 ==> !EndsInCR(parts[i])
    ensures LinesOf(parts) == parts
  {
    var n := |parts|;
    assert Chomped(parts[..n - 1]) == parts[..n - 1];
    assert parts[..n - 1] + [parts[n - 1]] == parts;
  }

  /** Does the line end in a carriage return? */
  predicate EndsInCR(line: string)
  {
    line != [] && line[|line| - 1] == '\r'
  }

  /** The line without one final carriage return. */
  function ChompCR(line: string): (r: string)
    ensures EndsInCR(line) ==> r + ['\r'] == line
    ensures !EndsInCR(line) ==> r == line
    ensures forall c :: c in r ==> c in line
  {
    if EndsInCR(line) then line[..|line| - 1] else line
  }

  /** Every line without one final carriage return. */
  function Chomped(lines: seq<string>): (r: seq<string>)
    ensures |r| == |lines| && forall i :: 0 <= i < |lines| ==> r[i] == ChompCR(lines[i])
  {
    seq(|lines|, i requires 0 <= i < |lines| => ChompCR(lines[i]))
  }

  /** Every line but the last followed by a carriage return, as a `"\r\n"` join writes them. */
  function CRTerminated(lines: seq<string>): (r: seq<string>)
    ensures |r| == |lines|
    ensures forall i :: 0 <= i < |lines| - 1 ==> r[i] == lines[i] + ['\r']
    ensures |lines| >= 1 ==> r[|lines| - 1] == lines[|lines| - 1]
  {
    seq(|lines|, i requires 0 <= i < |lines| => if i < |lines| - 1 then lines[i] + ['\r'] else lines[i])
  }

  /** Every character of a piece of `Split` is a character of the text. */
  lemma {:induction false} SplitFrom(s: string, seps: set<char>, i: nat, c: char)
    requires i < |Split(s, seps)| && c in Split(s, seps)[i]
    ensures c in s
    decreases |s|
  {
    var k := FirstSep(s, seps);
    if k < |s| && i > 0 {
      SplitFrom(s[k + 1..], seps, i - 1, c);
    }
  }

  /** Joining the lines of a text that does not end in a newline and holds no carriage
      return gives the text back. */
  lemma JoinLines(s: string)
    requires s != [] && s[|s| - 1] != '\n' && '\r' !in s
    ensures Join(Lines(s), '\n') == s
  {
    var parts := Split(s, {'\n'});
    JoinSplit(s, '\n');
    var n := |parts|;
    forall i | 0 <= i < n - 1
      ensures !EndsInCR(parts[i])
    {
      if EndsInCR(parts[i]) {
        SplitFrom(s, {'\n'}, i, '\r');
      }
    }
    assert parts[n - 1] != [] by {
      if parts[n - 1] == [] {
        JoinLast(parts, '\n');
      }
    }
    LinesOfKeeps(parts);
  }

  /** A join ending in an empty piece ends in the separator, unless it is the only piece. */
  lemma {:induction false} JoinLast(parts: seq<string>, sep: char)
    requires |parts| >= 1 && parts[|parts| - 1] == []
    ensures |parts| == 1 ==> Join(parts, sep) == []
    ensures |parts| > 1 ==> Join(parts, sep) == Join(parts[..|parts| - 1], sep) + [sep]
  {
    if |parts| > 2 {
      JoinLast(parts[1..], sep);
      assert parts[1..][..|parts| - 2] == parts[..|parts| - 1][1..];
    }
  }

  /** Does `pat` occur in `s` starting at index `i`? */
  predicate OccursAt(s: string, pat: string, i: nat)
  {
    i + |pat| <= |s| && s[i..i + |pat|] == pat
  }

  /** Index of the first occurrence of `pat` in `s` at or after `from` (Rust's `str::find`). */
  function FindFrom(s: string, pat: string, from: nat): (r: Option<nat>)
    ensures r.Some? ==> from <= r.value && OccursAt(s, pat, r.value)
    ensures r.Some? ==> forall j :: from <= j < r.value ==> !OccursAt(s, pat, j)
    ensures r.None? ==> forall j :: from <= j ==> !OccursAt(s, pat, j)
    decreases |s| - from
  {
    if from + |pat| > |s| then None
    else if s[from..from + |pat|] == pat then Some(from)
    else FindFrom(s, pat, from + 1)
  }

  /** Index of the first occurrence of `pat` in `s`. */
  function Find(s: string, pat: string): (r: Option<nat>)
    ensures r.Some? ==> OccursAt(s, pat, r.value) && forall j :: 0 <= j < r.value ==> !OccursAt(s, pat, j)
    ensures r.None? ==> forall j :: !OccursAt(s, pat, j)
  {
    FindFrom(s, pat, 0)
  }

  /** The ASCII whitespace characters, standing for the separators of `trim`,
      `split_whitespace` and `split(char::is_whitespace)`. Rust's notion is Unicode's
      White_Space property, which also holds characters such as U+0085, U+00A0 and U+3000;
      those are not modelled, and every reader built on this set treats them as ordinary
      characters. */
  const Whitespace: set<char> := {' ', '\t', '\n', '\r', '\U{000B}', '\U{000C}'}

  /** `s` without its leading whitespace. */
  function TrimStart(s: string): (r: string)
    ensures |r| <= |s| && r == s[|s| - |r|..]
    ensures r == [] || r[0] !in Whitespace
    ensures forall i :: 0 <= i < |s| - |r| ==> s[i] in Whitespace
  {
    if s != [] && s[0] in Whitespace then TrimStart(s[1..]) else s
  }

  /** `s` without its trailing whitespace. */
  function TrimEnd(s: string): (r: string)
    ensures |r| <= |s| && r == s[..|r|]
    ensures r == [] || r[|r| - 1] !in Whitespace
    ensures forall i :: |r| <= i < |s| ==> s[i] in Whitespace
  {
    if s != [] && s[|s| - 1] in Whitespace then TrimEnd(s[..|s| - 1]) else s
  }

  /** `s` without leading and trailing whitespace (Rust's `trim`). */
  function Trim(s: string): string
  {
    TrimEnd(TrimStart(s))
  }

  /** The non-empty pieces of `s` between whitespace (Rust's `split_whitespace`). */
  function Words(s: string): (words: seq<string>)
    ensures forall i :: 0 <= i < |words| ==> words[i] != [] && forall c :: c in words[i] ==> c !in Whitespace
  {
    NonEmpty(Split(s, Whitespace))
  }

  /** The pieces that are not empty, in order. */
  function NonEmpty(parts: seq<string>): (r: seq<string>)
    ensures |r| <= |parts|
    ensures forall i :: 0 <= i < |r| ==> r[i] != [] && r[i] in parts
  {
    if parts == [] then []
    else if parts[0] == [] then NonEmpty(parts[1..])
    else [parts[0]] + NonEmpty(parts[1..])
  }

  /** Dropping empty pieces from pieces that are all non-empty changes nothing. */
  lemma {:induction false} NonEmptyAll(parts: seq<string>)
    requires forall i :: 0 <= i < |parts| ==> parts[i] != []
    ensures NonEmpty(parts) == parts
  {
    if parts != [] {
      NonEmptyAll(parts[1..]);
      assert [parts[0]] + parts[1..] == parts;
    }
  }

  /** Words separated by single spaces are read back by `Words`. */
  lemma WordsJoin(words: seq<string>)
    requires |words| >= 1
    requires forall i :: 0 <= i < |words| ==> words[i] != [] && forall c :: c in words[i] ==> c !in Whitespace
    ensures Words(Join(words, ' ')) == words
  {
    SplitJoin(words, ' ', Whitespace);
    NonEmptyAll(words);
  }

  /** Lines that hold no newline, none but the last ending in a carriage return and the
      last not empty, are read back by `Lines` from their newline join. */
  lemma LinesJoin(lines: seq<string>)
    requires |lines| >= 1 && lines[|lines| - 1] != []
    requires forall i :: 0 <= i < |lines| ==> '\n' !in lines[i]
    requires forall i :: 0 <= i < |lines| - 1 ==> !EndsInCR(lines[i])
    ensures Lines(Join(lines, '\n')) == lines
  {
    JoinNonEmpty(lines, '\n');
    SplitJoinLines(lines);
    LinesOfKeeps(lines);
  }

  /** Lines that hold no newline, the last of them not empty, are read back by `Lines`
      from their `"\r\n"` join: the carriage return before each newline is dropped. */
  lemma LinesJoinCRLF(lines: seq<string>)
    requires |lines| >= 1 && lines[|lines| - 1] != []
    requires forall i :: 0 <= i < |lines| ==> '\n' !in lines[i]
    ensures Lines(Join(CRTerminated(lines), '\n')) == lines
  {
    var t := CRTerminated(lines);
    var n := |lines|;
    forall i | 0 <= i < n
      ensures '\n' !in t[i]
    {
      if i < n - 1 {
        assert forall c :: c in lines[i] + ['\r'] ==> c in lines[i] || c == '\r';
      }
    }
    JoinNonEmpty(t, '\n');
    SplitJoinLines(t);
    forall i | 0 <= i < n - 1
      ensures ChompCR(t[i]) == lines[i]
    {
      assert EndsInCR(t[i]);
      assert t[i][..|t[i]| - 1] == lines[i];
    }
    assert Chomped(t[..n - 1]) == lines[..n - 1];
    assert lines[..n - 1] + [lines[n - 1]] == lines;
  }

  /** Lines that hold no newline, each followed by `"\r\n"`, are read back by `Lines`: the
      final line ending adds no empty line, and every carriage return before a newline is
      dropped. */
  lemma LinesCRLFTerminated(lines: seq<string>)
    requires forall i :: 0 <= i < |lines| ==> '\n' !in lines[i]
    ensures Lines(Join(CRTerminated(lines + [[]]), '\n')) == lines
  {
    var all := lines + [[]];
    var t := CRTerminated(all);
    var n := |lines|;
    if n > 0 {
      forall i | 0 <= i < n + 1
        ensures '\n' !in t[i]
      {
        if i < n {
          assert all[i] == lines[i];
          assert forall c :: c in lines[i] + ['\r'] ==> c in lines[i] || c == '\r';
        }
      }
      assert Join(t, '\n') != [] by {
        assert Join(t, '\n') == t[0] + ['\n'] + Join(t[1..], '\n');
      }
      SplitJoinLines(t);
      forall i | 0 <= i < n
        ensures ChompCR(t[i]) == lines[i]
      {
        assert all[i] == lines[i];
        assert EndsInCR(t[i]);
        assert t[i][..|t[i]| - 1] == lines[i];
      }
      assert Chomped(t[..n]) == lines;
    }
  }

  /** Splitting the newline join of newline-free lines on newlines gives the lines. */
  lemma SplitJoinLines(lines: seq<string>)
    requires |lines| >= 1
    requires forall i :: 0 <= i < |lines| ==> '\n' !in lines[i]
    ensures Split(Join(lines, '\n'), {'\n'}) == lines
  {
    SplitJoin(lines, '\n', {'\n'});
  }

  /** A join whose last piece is not empty is not empty. */
  lemma {:induction false} JoinNonEmpty(parts: seq<string>, sep: char)
    requires |parts| >= 1 && parts[|parts| - 1] != []
    ensures Join(parts, sep) != []
  {
    if |parts| > 1 {
      JoinNonEmpty(parts[1..], sep);
    }
  }

  /** If `pat` does not occur in `a + pat` before the copy of `pat`, the first occurrence of
      `pat` in `a + pat + b` is right after `a`. */
  lemma FindAfterPrefix(a: string, pat: string, b: string)
    requires forall j :: 0 <= j < |a| ==> !OccursAt(a + pat, pat, j)
    ensures Find(a + pat + b, pat) == Some(|a|)
  {
    var s := a + pat + b;
    assert s[|a|..|a| + |pat|] == pat;
    forall j | 0 <= j < |a|
      ensures !OccursAt(s, pat, j)
    {
      if OccursAt(s, pat, j) {
        assert s[j..j + |pat|] == (a + pat)[j..j + |pat|];
        assert OccursAt(a + pat, pat, j);
      }
    }
    assert OccursAt(s, pat, |a|);
    var r := Find(s, pat);
    if r.Some? {
      assert r.value <= |a|;
      assert r.value >= |a|;
    }
  }

  /** Text that neither starts nor ends with whitespace is left alone by `Trim`. */
  lemma TrimKeeps(s: string)
    requires s == [] || (s[0] !in Whitespace && s[|s| - 1] !in Whitespace)
    ensures Trim(s) == s
  {
  }

  /** Text that neither starts nor ends with whitespace, followed by a newline, is trimmed
      back to itself. */
  lemma TrimNewline(s: string)
    requires s != [] && s[0] !in Whitespace && s[|s| - 1] !in Whitespace
    ensures Trim(s + "\n") == s
  {
    var t := s + "\n";
    assert TrimStart(t) == t;
    assert t[..|s|] == s;
    assert TrimEnd(t) == TrimEnd(s) == s;
  }

  /** A character other than the separator is in a join exactly when it is in a piece. */
  lemma {:induction false} JoinHas(parts: seq<string>, sep: char, c: char)
    requires c != sep
    ensures c in Join(parts, sep) <==> exists i :: 0 <= i < |parts| && c in parts[i]
  {
    if |parts| > 1 {
      JoinHas(parts[1..], sep, c);
      if c in parts[0] {
        assert c in Join(parts, sep) by {
          var k :| 0 <= k < |parts[0]| && parts[0][k] == c;
          assert Join(parts, sep)[k] == c;
        }
      }
      forall i | 1 <= i < |parts| && c in parts[i]
        ensures exists j :: 0 <= j < |parts[1..]| && c in parts[1..][j]
      {
        assert parts[1..][i - 1] == parts[i];
      }
    }
  }

  /** A join whose first piece is not empty starts with that piece's first character. */
  lemma JoinStarts(parts: seq<string>, sep: char)
    requires |parts| >= 1 && parts[0] != []
    ensures var s := Join(parts, sep); s != [] && s[0] == parts[0][0]
  {
  }

  /** A join whose last piece is not empty ends with that piece's last character. */
  lemma {:induction false} JoinEnds(parts: seq<string>, sep: char)
    requires |parts| >= 1 && parts[|parts| - 1] != []
    ensures var s := Join(parts, sep); var last := parts[|parts| - 1];
      s != [] && s[|s| - 1] == last[|last| - 1]
  {
    if |parts| > 1 {
      JoinEnds(parts[1..], sep);
    }
  }
}
