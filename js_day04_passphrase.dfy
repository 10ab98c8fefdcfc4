/** High-entropy passphrases: a line of words is valid when no two of its words are the same
    (Part 1), or when no two are anagrams of each other (Part 2). */
module Passphrases {
  import Text

  /** `Word`: one word of a line. */
  datatype Word = Word(text: string)

  /** A comparison of two words. */
  type WordComparePredicate = (Word, Word) -> bool

  /** `isEqualTo`: the same text. */
  function IsEqualTo(a: Word, b: Word): bool
  {
    a.text == b.text
  }

  // ---------------------------------------------------------------------------------------
  // Sorting the characters of a word

  /** Every character is at most the ones after it. */
  ghost predicate Ascending(s: string)
  {
    forall i, j :: 0 <= i < j < |s| ==> s[i] <= s[j]
  }

  /** An ascending text whose first character is at most every character of `rest` stays
      ascending with that character put in front. */
  lemma AscendingCons(c: char, rest: string)
    requires Ascending(rest) && forall x :: x in multiset(rest) ==> c <= x
    ensures Ascending([c] + rest)
  {
    var s := [c] + rest;
    forall i, j | 0 <= i < j < |s|
      ensures s[i] <= s[j]
    {
      if i == 0 {
        assert s[j] == rest[j - 1];
        assert rest[j - 1] in multiset(rest);
      } else {
        assert s[i] == rest[i - 1] && s[j] == rest[j - 1];
      }
    }
  }

  /** A character put in its place in an ascending text. */
  function Insert(c: char, s: string): string
  {
    if s == [] || c <= s[0] then [c] + s else [s[0]] + Insert(c, s[1..])
  }

  /** Inserting into an ascending text keeps it ascending and adds just that character. */
  lemma {:induction false} InsertAscending(c: char, s: string)
    requires Ascending(s)
    ensures Ascending(Insert(c, s)) && multiset(Insert(c, s)) == multiset(s) + multiset{c}
  {
    if s == [] || c <= s[0] {
      AscendingFirst(s, c);
      AscendingCons(c, s);
    } else {
      assert s == [s[0]] + s[1..];
      AscendingSplit(s);
      InsertAscending(c, s[1..]);
      AscendingCons(s[0], Insert(c, s[1..]));
    }
  }

  /** Whatever is at most the first character of an ascending text is at most all of them. */
  lemma AscendingFirst(s: string, c: char)
    requires Ascending(s) && (s == [] || c <= s[0])
    ensures forall x :: x in multiset(s) ==> c <= x
  {
    forall x | x in multiset(s)
      ensures c <= x
    {
      var k :| 0 <= k < |s| && s[k] == x;
    }
  }

  /** `split('').sort()`: the characters in ascending order. */
  function Sort(s: string): (r: string)
    ensures Ascending(r) && multiset(r) == multiset(s)
  {
    if s == [] then []
    else
      var n := |s|;
      assert s == s[..n - 1] + [s[n - 1]];
      InsertAscending(s[n - 1], Sort(s[..n - 1]));
      Insert(s[n - 1], Sort(s[..n - 1]))
  }

  /** The first character of an ascending text is its smallest, and the rest is ascending
      and holds the other characters. */
  lemma AscendingSplit(a: string)
    requires Ascending(a) && a != []
    ensures forall x :: x in multiset(a) ==> a[0] <= x
    ensures Ascending(a[1..]) && multiset(a[1..]) == multiset(a) - multiset{a[0]}
  {
    AscendingFirst(a, a[0]);
    assert a == [a[0]] + a[1..];
  }

  /** Two ascending texts with the same characters are the same text. */
  lemma {:induction false} AscendingUnique(a: string, b: string)
    requires Ascending(a) && Ascending(b) && multiset(a) == multiset(b)
    ensures a == b
  {
    if a != [] {
      assert |a| == |multiset(a)| == |b|;
      AscendingSplit(a);
      AscendingSplit(b);
      assert a[0] in multiset(a) && b[0] in multiset(b);
      assert a[0] == b[0];
      AscendingUnique(a[1..], b[1..]);
      forall k | 1 <= k < |a|
        ensures a[k] == b[k]
      {
        assert a[k] == a[1..][k - 1] && b[k] == b[1..][k - 1];
      }
    }
  }

  // ---------------------------------------------------------------------------------------
  // Anagrams

  /** Each character as a text of its own. */
  function Singles(s: string): (r: seq<string>)
    ensures |r| == |s| && forall i :: 0 <= i < |s| ==> r[i] == [s[i]]
  {
    if s == [] then [] else [[s[0]]] + Singles(s[1..])
  }

  /** `join()`: the characters separated by commas. */
  function CommaJoined(s: string): string
  {
    Text.Join(Singles(s), ',')
  }

  /** The joined text has each character at an even position, with commas between. */
  lemma {:induction false} CommaJoinedShape(s: string)
    ensures |CommaJoined(s)| == if s == [] then 0 else 2 * |s| - 1
    ensures forall k :: 0 <= k < |s| ==> CommaJoined(s)[2 * k] == s[k]
  {
    if |s| >= 2 {
      assert Singles(s) == [[s[0]]] + Singles(s[1..]);
      Text.JoinCons([s[0]], Singles(s[1..]), ',');
      CommaJoinedShape(s[1..]);
      forall k | 1 <= k < |s|
        ensures CommaJoined(s)[2 * k] == s[k]
      {
        assert CommaJoined(s)[2 * k] == CommaJoined(s[1..])[2 * (k - 1)];
      }
    }
  }

  /** Joining with commas loses nothing: different character lists join differently. */
  lemma CommaJoinedInjective(a: string, b: string)
    requires CommaJoined(a) == CommaJoined(b)
    ensures a == b
  {
    CommaJoinedShape(a);
    CommaJoinedShape(b);
    forall k | 0 <= k < |a|
      ensures a[k] == b[k]
    {
      assert CommaJoined(a)[2 * k] == CommaJoined(b)[2 * k];
    }
  }

  /** `isAnagramOf`: the sorted characters, joined, are the same text. */
  function IsAnagramOf(a: Word, b: Word): bool
  {
    CommaJoined(Sort(a.text)) == CommaJoined(Sort(b.text))
  }

  /** Two words are anagrams exactly when they are made of the same characters, each as
      often. */
  lemma AnagramIff(a: Word, b: Word)
    ensures IsAnagramOf(a, b) <==> multiset(a.text) == multiset(b.text)
  {
    if IsAnagramOf(a, b) {
      CommaJoinedInjective(Sort(a.text), Sort(b.text));
    }
    if multiset(a.text) == multiset(b.text) {
      AscendingUnique(Sort(a.text), Sort(b.text));
    }
  }

  /** Being anagrams is reflexive, symmetric and transitive, and equal words are anagrams. */
  lemma AnagramLaws(a: Word, b: Word, c: Word)
    ensures IsAnagramOf(a, a)
    ensures IsAnagramOf(a, b) ==> IsAnagramOf(b, a)
    ensures IsAnagramOf(a, b) && IsAnagramOf(b, c) ==> IsAnagramOf(a, c)
    ensures IsEqualTo(a, b) ==> IsAnagramOf(a, b)
  {
  }

  // ---------------------------------------------------------------------------------------
  // Lines

  /** `Line`: the words of a line, in order. */
  datatype Line = Line(words: seq<Word>)

  /** The line of the given words; splitting the text on non-word characters is left out. */
  function NewLine(tokens: seq<string>): (line: Line)
    ensures |line.words| == |tokens| && forall i :: 0 <= i < |tokens| ==> line.words[i].text == tokens[i]
  {
    if tokens == [] then Line([]) else Line([Word(tokens[0])] + NewLine(tokens[1..]).words)
  }

  /** Whether the word at `i` and one of the first `k` words at another position are related. */
  function HasPartner(words: seq<Word>, related: WordComparePredicate, i: nat, k: nat): (r: bool)
    requires i < |words| && k <= |words|
    ensures r <==> exists j :: 0 <= j < k && j != i && related(words[i], words[j])
  {
    if k == 0 then false else HasPartner(words, related, i, k - 1) || (k - 1 != i && related(words[i], words[k - 1]))
  }

  /** Whether one of the first `k` words is related to a word at another position. */
  function AnyPair(words: seq<Word>, related: WordComparePredicate, k: nat): (r: bool)
    requires k <= |words|
    ensures r <==> exists i, j :: 0 <= i < k && 0 <= j < |words| && i != j && related(words[i], words[j])
  {
    if k == 0 then false else AnyPair(words, related, k - 1) || HasPartner(words, related, k - 1, |words|)
  }

  /** `compareAllWords`: two words at different positions of the line are related (two
      positions hold two different `Word` objects, whatever their text). */
  function CompareAllWords(line: Line, related: WordComparePredicate): (r: bool)
    ensures r <==> exists i, j :: 0 <= i < |line.words| && 0 <= j < |line.words| && i != j && related(line.words[i], line.words[j])
  {
    AnyPair(line.words, related, |line.words|)
  }

  /** `containsDuplicateWords`. */
  function ContainsDuplicateWords(line: Line): bool
  {
    CompareAllWords(line, IsEqualTo)
  }

  /** `containsAnagrams`. */
  function ContainsAnagrams(line: Line): bool
  {
    CompareAllWords(line, IsAnagramOf)
  }

  /** A line repeats a word exactly when two positions hold the same text. */
  lemma DuplicatesIff(line: Line)
    ensures ContainsDuplicateWords(line) <==>
      exists i, j :: 0 <= i < |line.words| && 0 <= j < |line.words| && i != j && line.words[i].text == line.words[j].text
  {
  }

  /** A line holds anagrams exactly when two positions hold the same characters, each as
      often. */
  lemma AnagramsIff(line: Line)
    ensures ContainsAnagrams(line) <==>
      exists i, j :: 0 <= i < |line.words| && 0 <= j < |line.words| && i != j && multiset(line.words[i].text) == multiset(line.words[j].text)
  {
    forall a: Word, b: Word
      ensures IsAnagramOf(a, b) <==> multiset(a.text) == multiset(b.text)
    {
      AnagramIff(a, b);
    }
  }

  /** A line that repeats a word holds anagrams. */
  lemma DuplicatesAreAnagrams(line: Line)
    ensures ContainsDuplicateWords(line) ==> ContainsAnagrams(line)
  {
    if ContainsDuplicateWords(line) {
      var w := line.words;
      var i, j :| 0 <= i < |w| && 0 <= j < |w| && i != j && IsEqualTo(w[i], w[j]);
      AnagramLaws(w[i], w[j], w[j]);
    }
  }

  /** The number of lines for which `bad` does not hold. */
  function CountValid(lines: seq<Line>, bad: Line -> bool): (n: nat)
    ensures n <= |lines|
  {
    if lines == [] then 0 else CountValid(lines[1..], bad) + (if bad(lines[0]) then 0 else 1)
  }

  /** Part 1 counts the lines without a repeated word, Part 2 those without anagrams: every
      line valid for Part 2 is valid for Part 1, so Part 2 counts no more lines. */
  lemma {:induction false} PartTwoAtMostPartOne(lines: seq<Line>)
    ensures CountValid(lines, ContainsAnagrams) <= CountValid(lines, ContainsDuplicateWords)
  {
    if lines != [] {
      DuplicatesAreAnagrams(lines[0]);
      PartTwoAtMostPartOne(lines[1..]);
    }
  }
}
