/** The corruption checksum: a spreadsheet of integers read from text, and two checksums
    over its rows (largest minus smallest, and the quotient of the one evenly dividing pair). */
module Spreadsheet {
  import opened Common
  import opened Arith
  import Text
  import Decimal

  /** Rows of integers. */
  type Sheet = seq<seq<int>>

  const UnwrapFailed := "called `Result::unwrap()` on an `Err` value"
  const RemainderByZero := "attempt to calculate the remainder with a divisor of zero"
  const NoDivisiblePair := "fatal error: could not find evently divisible numbers"

  // ---------------------------------------------------------------------------------------
  // Reading the sheet

  /** One cell: a signed decimal literal, anything else aborting the `unwrap`. */
  function ParseCell(cell: string): (r: Result<int>)
    ensures r.Ok? <==> Decimal.ParseSigned(cell).Some?
    ensures r.Ok? ==> r.value == Decimal.ParseSigned(cell).value
  {
    match Decimal.ParseSigned(cell)
    case Some(n) => Ok(n)
    case None => Err(UnwrapFailed)
  }

  /** One row: the cells between single whitespace characters. */
  function ParseRow(line: string): Result<seq<int>>
  {
    MapAll(Text.Split(line, Text.Whitespace), ParseCell)
  }

  /** `text_to_ss`: one row per line. */
  function ParseSheet(text: string): (r: Result<Sheet>)
    ensures r.Ok? ==> |r.value| == |Text.Lines(text)|
  {
    MapAll(Text.Lines(text), ParseRow)
  }

  /** A row written out: its numbers in decimal, separated by single spaces. */
  function ShowRow(row: seq<int>): string
  {
    Text.Join(Decimal.ShowInts(row), ' ')
  }

  /** The written rows of a sheet. */
  function RowLines(sheet: Sheet): (lines: seq<string>)
    ensures |lines| == |sheet| && forall i :: 0 <= i < |sheet| ==> lines[i] == ShowRow(sheet[i])
  {
    if sheet == [] then [] else [ShowRow(sheet[0])] + RowLines(sheet[1..])
  }

  /** A sheet written out: its rows, one per line. */
  function ShowSheet(sheet: Sheet): string
  {
    Text.Join(RowLines(sheet), '\n')
  }

  /** A written number is not empty, holds no whitespace, and reads back as the number. */
  lemma CellClean(n: int)
    ensures Decimal.ShowInt(n) != [] && ParseCell(Decimal.ShowInt(n)) == Ok(n)
    ensures forall c :: c in Decimal.ShowInt(n) ==> c !in Text.Whitespace
  {
    Decimal.ParseShowInt(n);
    Decimal.ShowIntChars(n);
    forall c | c in Decimal.ShowInt(n)
      ensures c !in Text.Whitespace
    {
      NumeralNotWhitespace(c);
    }
  }

  lemma NumeralNotWhitespace(c: char)
    requires Decimal.IsDigit(c) || c == '-'
    ensures c !in Text.Whitespace
  {
  }

  /** The written numbers of a row are clean cells. */
  lemma CellsClean(row: seq<int>)
    ensures forall i :: 0 <= i < |row| ==> Decimal.ShowInts(row)[i] != [] && ParseCell(Decimal.ShowInts(row)[i]) == Ok(row[i])
    ensures forall i :: 0 <= i < |row| ==> forall c :: c in Decimal.ShowInts(row)[i] ==> c !in Text.Whitespace
  {
    forall i | 0 <= i < |row|
      ensures Decimal.ShowInts(row)[i] != [] && ParseCell(Decimal.ShowInts(row)[i]) == Ok(row[i])
      ensures forall c :: c in Decimal.ShowInts(row)[i] ==> c !in Text.Whitespace
    {
      CellClean(row[i]);
    }
  }

  /** A written row holds no newline, and is not empty when the row is not. */
  lemma ShowRowChars(row: seq<int>)
    ensures '\n' !in ShowRow(row) && !Text.EndsInCR(ShowRow(row))
    ensures |row| >= 1 ==> ShowRow(row) != []
  {
    var cells := Decimal.ShowInts(row);
    CellsClean(row);
    Text.JoinHas(cells, ' ', '\n');
    if |row| >= 1 {
      Text.JoinStarts(cells, ' ');
      Text.JoinEnds(cells, ' ');
      assert cells[|row| - 1][|cells[|row| - 1]| - 1] in cells[|row| - 1];
    }
  }

  /** Reading a written row gives the row back. */
  lemma ParseShowRow(row: seq<int>)
    requires |row| >= 1
    ensures ParseRow(ShowRow(row)) == Ok(row)
  {
    var cells := Decimal.ShowInts(row);
    CellsClean(row);
    Text.SplitJoin(cells, ' ', Text.Whitespace);
    MapAllOk(cells, ParseCell, row);
  }

  /** Reading a written sheet of non-empty rows gives the sheet back. */
  lemma ParseShowSheet(sheet: Sheet)
    requires |sheet| >= 1 && forall i :: 0 <= i < |sheet| ==> |sheet[i]| >= 1
    ensures ParseSheet(ShowSheet(sheet)) == Ok(sheet)
  {
    var lines := RowLines(sheet);
    forall i | 0 <= i < |lines|
      ensures '\n' !in lines[i] && lines[i] != [] && !Text.EndsInCR(lines[i])
      ensures ParseRow(lines[i]) == Ok(sheet[i])
    {
      ShowRowChars(sheet[i]);
      ParseShowRow(sheet[i]);
    }
    Text.LinesJoin(lines);
    MapAllOk(lines, ParseRow, sheet);
  }

  /** A row ended by `"\r\n"` reads as the row: `lines()` drops the carriage return, so no
      empty cell is left at the end of the row. */
  lemma ParseSheetCRLF(text: string)
    requires text == "5 1\r\n"
    ensures ParseSheet(text) == Ok([[5, 1]])
  {
    SampleLinesCRLF(text);
    SampleRow("5 1");
    Common.MapAllOk(["5 1"], ParseRow, [[5, 1]]);
  }

  lemma SampleLinesCRLF(text: string)
    requires text == "5 1\r\n"
    ensures Text.Lines(text) == ["5 1"]
  {
    var t := Text.CRTerminated(["5 1"] + [[]]);
    assert t[0] == "5 1" + ['\r'];
    assert t == [t[0], t[1]];
    assert Text.Join(t, '\n') == t[0] + ['\n'] + Text.Join([t[1]], '\n');
    assert Text.Join(t, '\n') == text;
    Text.LinesCRLFTerminated(["5 1"]);
  }

  lemma SampleRow(line: string)
    requires line == "5 1"
    ensures ParseRow(line) == Ok([5, 1])
  {
    SampleShowRow();
    ParseShowRow([5, 1]);
  }

  lemma SampleShowRow()
    ensures ShowRow([5, 1]) == "5 1"
  {
    var cells := Decimal.ShowInts([5, 1]);
    assert Decimal.ShowInt(5) == Decimal.ShowNat(5) == [Decimal.DigitChar(5)] == "5";
    assert Decimal.ShowInt(1) == Decimal.ShowNat(1) == [Decimal.DigitChar(1)] == "1";
    assert cells == [cells[0], cells[1]] == ["5", "1"];
    assert Text.Join(cells, ' ') == "5" + [' '] + Text.Join(["1"], ' ');
  }

  /** The character of a digit. */
  function Numeral(d: int): char
    requires 0 <= d < 10
  {
    ('0' as int + d) as char
  }

  /** A one-digit number is written as its digit. */
  lemma ShowDigit(d: int)
    requires 0 <= d < 10
    ensures Decimal.ShowInt(d) == [Numeral(d)]
  {
  }

  /** Three one-digit numbers written out as a row. */
  lemma ShowRow3(a: int, b: int, c: int)
    requires 0 <= a < 10 && 0 <= b < 10 && 0 <= c < 10
    ensures ShowRow([a, b, c]) == [Numeral(a), ' ', Numeral(b), ' ', Numeral(c)]
  {
    ShowDigit(a); ShowDigit(b); ShowDigit(c);
    assert Decimal.ShowInts([a, b, c]) == [[Numeral(a)], [Numeral(b)], [Numeral(c)]];
    Text.Join3([Numeral(a)], [Numeral(b)], [Numeral(c)], ' ');
  }

  /** Four one-digit numbers written out as a row. */
  lemma ShowRow4(a: int, b: int, c: int, d: int)
    requires 0 <= a < 10 && 0 <= b < 10 && 0 <= c < 10 && 0 <= d < 10
    ensures ShowRow([a, b, c, d]) == [Numeral(a), ' ', Numeral(b), ' ', Numeral(c), ' ', Numeral(d)]
  {
    ShowDigit(a); ShowDigit(b); ShowDigit(c); ShowDigit(d);
    var tail := [[Numeral(b)], [Numeral(c)], [Numeral(d)]];
    assert Decimal.ShowInts([a, b, c, d]) == [[Numeral(a)]] + tail;
    Text.JoinCons([Numeral(a)], tail, ' ');
    Text.Join3([Numeral(b)], [Numeral(c)], [Numeral(d)], ' ');
  }

  /** Two or three rows written out as a sheet. */
  lemma ShowSheetRows(sheet: Sheet)
    requires 2 <= |sheet| <= 3
    ensures |sheet| == 2 ==> ShowSheet(sheet) == ShowRow(sheet[0]) + "\n" + ShowRow(sheet[1])
    ensures |sheet| == 3 ==> ShowSheet(sheet) == ShowRow(sheet[0]) + "\n" + ShowRow(sheet[1]) + "\n" + ShowRow(sheet[2])
  {
    var lines := RowLines(sheet);
    if |sheet| == 2 {
      assert lines == [ShowRow(sheet[0])] + [ShowRow(sheet[1])];
      Text.JoinCons(ShowRow(sheet[0]), [ShowRow(sheet[1])], '\n');
    } else {
      assert lines == [ShowRow(sheet[0]), ShowRow(sheet[1]), ShowRow(sheet[2])];
      Text.Join3(ShowRow(sheet[0]), ShowRow(sheet[1]), ShowRow(sheet[2]), '\n');
    }
  }

  /** `test_text_to_ss`: the rows 1, 2, 3 and 4, 5, 6 are written "1 2 3\n4 5 6", so by
      `ParseShowSheet` that text reads as those rows. */
  lemma SampleSpelling()
    ensures ShowSheet([[1, 2, 3], [4, 5, 6]]) == "1 2 3" + "\n" + "4 5 6"
  {
    ShowRow3(1, 2, 3);
    ShowRow3(4, 5, 6);
    ShowSheetRows([[1, 2, 3], [4, 5, 6]]);
  }

  // ---------------------------------------------------------------------------------------
  // Checksums

  function Sum(xs: seq<int>): int
  {
    if xs == [] then 0 else Sum(xs[..|xs| - 1]) + xs[|xs| - 1]
  }

  /** `checksum`: the rows' checksums added up in order, the first failing row aborting it. */
  function Checksum(sheet: Sheet, rowChecksum: seq<int> -> Result<int>): Result<int>
  {
    if sheet == [] then Ok(0)
    else match Checksum(sheet[..|sheet| - 1], rowChecksum)
      case Err(e) => Err(e)
      case Ok(acc) =>
        match rowChecksum(sheet[|sheet| - 1])
        case Err(e) => Err(e)
        case Ok(v) => Ok(acc + v)
  }

  /** The checksum succeeds exactly when every row's does, and is then the sum of the rows'
      checksums. */
  lemma {:induction false} ChecksumSum(sheet: Sheet, rowChecksum: seq<int> -> Result<int>)
    ensures Checksum(sheet, rowChecksum).Ok? <==> MapAll(sheet, rowChecksum).Ok?
    ensures Checksum(sheet, rowChecksum).Ok? ==>
      Checksum(sheet, rowChecksum).value == Sum(MapAll(sheet, rowChecksum).value)
  {
    if sheet != [] {
      var init, last := sheet[..|sheet| - 1], sheet[|sheet| - 1];
      ChecksumSum(init, rowChecksum);
      var all := MapAll(sheet, rowChecksum);
      if all.Ok? {
        MapAllOk(init, rowChecksum, all.value[..|sheet| - 1]);
        assert all.value[..|sheet| - 1] == all.value[..|all.value| - 1];
      } else if MapAll(init, rowChecksum).Ok? && rowChecksum(last).Ok? {
        forall k | 0 <= k < |sheet|
          ensures rowChecksum(sheet[k]).Ok?
        {
          if k < |sheet| - 1 {
            assert sheet[k] == init[k];
          }
        }
      }
    }
  }

  /** The smallest value of a non-empty row. */
  function Min(row: seq<int>): (m: int)
    requires row != []
    ensures m in row && forall k :: 0 <= k < |row| ==> m <= row[k]
  {
    if |row| == 1 then row[0]
    else
      var rest := Min(row[1..]);
      assert forall k :: 1 <= k < |row| ==> row[k] == row[1..][k - 1];
      if row[0] <= rest then row[0] else rest
  }

  /** `row_checksum_hi_lo`: the last minus the first value of the sorted row, that is the
      largest minus the smallest value, and 0 for an empty row. */
  function HiLo(row: seq<int>): (r: int)
    ensures row == [] ==> r == 0
    ensures row != [] ==> r >= 0 && exists i, j :: (0 <= i < |row| && 0 <= j < |row| && r == row[i] - row[j]
      && forall k :: 0 <= k < |row| ==> row[j] <= row[k] <= row[i])
  {
    if row == [] then 0 else Max(row) - Min(row)
  }

  /** `row_checksum_hi_lo` as a row checksum: it never fails. */
  function HiLoChecksum(row: seq<int>): Result<int>
  {
    Ok(HiLo(row))
  }

  // ---------------------------------------------------------------------------------------
  // The evenly dividing pair

  /** What `find_div` does at the pair of positions `i < j`. */
  datatype Outcome = Continue | Hit(dividend: int, divisor: int) | Panic

  /** The pair's outcome: `v[i] % v[j]` is tried first (aborting on a zero divisor), then
      `v[j] % v[i]`, which cannot divide by zero once the first test failed. */
  function PairOutcome(v: seq<int>, i: int, j: int): (o: Outcome)
    requires 0 <= i < j < |v|
    ensures o.Panic? <==> v[j] == 0
    ensures o.Hit? ==> o.divisor != 0 && TruncRem(o.dividend, o.divisor) == 0
    ensures o.Hit? ==> (o.dividend, o.divisor) in {(v[i], v[j]), (v[j], v[i])}
  {
    if v[j] == 0 then Panic
    else if TruncRem(v[i], v[j]) == 0 then Hit(v[i], v[j])
    else if TruncRem(v[j], v[i]) == 0 then Hit(v[j], v[i])
    else Continue
  }

  /** The pair at `i' < j'` comes before the pair at `i < j` in the scan. */
  predicate Before(i': int, j': int, i: int, j: int)
  {
    i' < i || (i' == i && j' < j)
  }

  /** Every pair the scan meets before the pair at `i`, `j` lets it go on. */
  ghost predicate Quiet(v: seq<int>, i: int, j: int)
  {
    forall i', j' :: 0 <= i' < j' < |v| && Before(i', j', i, j) ==> PairOutcome(v, i', j') == Continue
  }

  /** The scan from the pair at `i`, `j` on: for each `i`, every later `j` in turn. */
  function FindDivFrom(v: seq<int>, i: int, j: int): Result<Option<(int, int)>>
    requires 0 <= i < j
    decreases |v| - i, |v| - j
  {
    if i >= |v| then Ok(None)
    else if j >= |v| then FindDivFrom(v, i + 1, i + 2)
    else match PairOutcome(v, i, j)
      case Panic => Err(RemainderByZero)
      case Hit(a, b) => Ok(Some((a, b)))
      case Continue => FindDivFrom(v, i, j + 1)
  }

  /** `find_div`: the first pair, in scan order, of which one divides the other, dividend
      first; `None` when there is none. */
  function FindDiv(v: seq<int>): Result<Option<(int, int)>>
  {
    FindDivFrom(v, 0, 1)
  }

  /** The scan from a quiet pair stops at the first pair that does not let it go on, and
      finds nothing only when every pair lets it go on. */
  lemma {:induction false} FindDivFromMeaning(v: seq<int>, i: int, j: int)
    requires 0 <= i < j && Quiet(v, i, j)
    decreases |v| - i, |v| - j
    ensures var r := FindDivFrom(v, i, j);
      && (r == Ok(None) ==> Quiet(v, |v|, 0))
      && (r.Ok? && r.value.Some? ==> exists i', j' :: (0 <= i' < j' < |v| && Quiet(v, i', j')
            && PairOutcome(v, i', j') == Hit(r.value.value.0, r.value.value.1)))
      && (r.Err? ==> exists i', j' :: 0 <= i' < j' < |v| && Quiet(v, i', j') && PairOutcome(v, i', j') == Panic)
  {
    if i >= |v| {
      forall i', j' | 0 <= i' < j' < |v|
        ensures PairOutcome(v, i', j') == Continue
      {
        assert Before(i', j', i, j);
      }
    } else if j >= |v| {
      forall i', j' | 0 <= i' < j' < |v| && Before(i', j', i + 1, i + 2)
        ensures PairOutcome(v, i', j') == Continue
      {
        assert Before(i', j', i, j);
      }
      FindDivFromMeaning(v, i + 1, i + 2);
    } else if PairOutcome(v, i, j) == Continue {
      FindDivFromMeaning(v, i, j + 1);
    }
  }

  /** `find_div` returns a dividend and a nonzero divisor that divides it, taken from two
      positions of the row and such that no earlier pair divides either way; it finds
      nothing only when no pair divides either way and no divisor is zero; it aborts only
      on a zero divisor met before any dividing pair. */
  lemma FindDivMeaning(v: seq<int>)
    ensures var r := FindDiv(v);
      && (r == Ok(None) ==> forall i, j :: 0 <= i < j < |v| ==> PairOutcome(v, i, j) == Continue)
      && (r.Ok? && r.value.Some? ==> exists i, j :: (0 <= i < j < |v| && Quiet(v, i, j)
            && PairOutcome(v, i, j) == Hit(r.value.value.0, r.value.value.1)))
      && (r.Err? ==> exists i, j :: 0 <= i < j < |v| && Quiet(v, i, j) && v[j] == 0)
  {
    FindDivFromMeaning(v, 0, 1);
  }

  /** A pair that lets the scan go on holds no zero divisor, and neither value divides the
      other. */
  lemma ContinueMeaning(v: seq<int>, i: int, j: int)
    requires 0 <= i < j < |v| && PairOutcome(v, i, j) == Continue
    ensures v[j] != 0 && v[i] != 0
    ensures v[i] % Abs(v[j]) != 0 && v[j] % Abs(v[i]) != 0
  {
    TruncRemZero(v[i], v[j]);
    TruncRemZero(v[j], v[i]);
  }

  /** `row_checksum_div`: the dividing pair's quotient; a row without one aborts. */
  function DivChecksum(row: seq<int>): (r: Result<int>)
    ensures r.Ok? ==> exists a, b :: FindDiv(row) == Ok(Some((a, b))) && b != 0 && r.value * b == a
    ensures FindDiv(row) == Ok(None) ==> r == Err(NoDivisiblePair)
  {
    match FindDiv(row)
    case Err(e) => Err(e)
    case Ok(None) => Err(NoDivisiblePair)
    case Ok(Some((a, b))) =>
      FindDivMeaning(row);
      TruncRemZero(a, b);
      Ok(TruncQuot(a, b))
  }

  // ---------------------------------------------------------------------------------------
  // The tests

  /** `test_find_div`: 9 and 3 in either order, and nothing in 3, 7, 13. */
  lemma FindDivSamples()
    ensures FindDiv([3, 2, 7, 9]) == Ok(Some((9, 3)))
    ensures FindDiv([9, 2, 7, 3]) == Ok(Some((9, 3)))
    ensures FindDiv([3, 7, 13]) == Ok(None)
  {
  }

  const FirstSheet: Sheet := [[5, 1, 9, 5], [7, 5, 3], [2, 4, 6, 8]]
  const SecondSheet: Sheet := [[5, 9, 2, 8], [9, 4, 7, 3], [3, 8, 6, 5]]

  /** `test_checksum`'s first text is the first sample sheet written out. */
  lemma FirstSheetSpelling()
    ensures ShowSheet(FirstSheet) == "5 1 9 5" + "\n" + "7 5 3" + "\n" + "2 4 6 8"
  {
    ShowRow4(5, 1, 9, 5);
    ShowRow3(7, 5, 3);
    ShowRow4(2, 4, 6, 8);
    ShowSheetRows(FirstSheet);
  }

  /** `test_checksum`'s second text is the second sample sheet written out. */
  lemma SecondSheetSpelling()
    ensures ShowSheet(SecondSheet) == "5 9 2 8" + "\n" + "9 4 7 3" + "\n" + "3 8 6 5"
  {
    ShowRow4(5, 9, 2, 8);
    ShowRow4(9, 4, 7, 3);
    ShowRow4(3, 8, 6, 5);
    ShowSheetRows(SecondSheet);
  }

  /** The checksum of three rows, from the rows' checksums. */
  lemma Checksum3(sheet: Sheet, rowChecksum: seq<int> -> Result<int>, a: int, b: int, c: int)
    requires |sheet| == 3
    requires rowChecksum(sheet[0]) == Ok(a) && rowChecksum(sheet[1]) == Ok(b) && rowChecksum(sheet[2]) == Ok(c)
    ensures Checksum(sheet, rowChecksum) == Ok(a + b + c)
  {
    var one, two := sheet[..1], sheet[..2];
    assert one[..0] == [] && one[0] == sheet[0];
    assert Checksum(one, rowChecksum) == Ok(a);
    assert two[..1] == one && two[1] == sheet[1];
    assert Checksum(two, rowChecksum) == Ok(a + b);
    assert sheet[..2] == two;
  }

  /** 9 - 1 in the first row of the first sample. */
  lemma HiLoFirstRow()
    ensures HiLoChecksum([5, 1, 9, 5]) == Ok(8)
  {
    var row := [5, 1, 9, 5];
    assert Max(row) == 9 by { assert row[2] == 9; }
    assert Min(row) == 1 by { assert row[1] == 1; }
  }

  /** 7 - 3 in its second row. */
  lemma HiLoSecondRow()
    ensures HiLoChecksum([7, 5, 3]) == Ok(4)
  {
  }

  /** 8 - 2 in its third row. */
  lemma HiLoThirdRow()
    ensures HiLoChecksum([2, 4, 6, 8]) == Ok(6)
  {
    var row := [2, 4, 6, 8];
    assert Max(row) == 8 by { assert row[3] == 8; }
    assert Min(row) == 2 by { assert row[0] == 2; }
  }

  /** `test_checksum`, first half: the largest-minus-smallest checksum of the first sample
      sheet is 18. */
  lemma HiLoSample()
    ensures Checksum(FirstSheet, HiLoChecksum) == Ok(18)
  {
    HiLoFirstRow();
    HiLoSecondRow();
    HiLoThirdRow();
    Checksum3(FirstSheet, HiLoChecksum, 8, 4, 6);
  }

  /** 8 divided by 2 in the first row of the second sample. */
  lemma DivFirstRow()
    ensures DivChecksum([5, 9, 2, 8]) == Ok(4)
  {
  }

  /** 9 divided by 3 in its second row. */
  lemma DivSecondRow()
    ensures DivChecksum([9, 4, 7, 3]) == Ok(3)
  {
  }

  /** 6 divided by 3 in its third row. */
  lemma DivThirdRow()
    ensures DivChecksum([3, 8, 6, 5]) == Ok(2)
  {
  }

  /** `test_checksum`, second half: the evenly-dividing checksum of the second sample sheet
      is 9. */
  lemma DivSample()
    ensures Checksum(SecondSheet, DivChecksum) == Ok(9)
  {
    DivFirstRow();
    DivSecondRow();
    DivThirdRow();
    Checksum3(SecondSheet, DivChecksum, 4, 3, 2);
  }
}
