/** The corruption checksum of the TypeScript and JavaScript solutions: per row the spread
    between the smallest and the largest value (Part 1), or the quotient of the first ordered
    pair of values that divide evenly (Part 2), summed over the rows. */
module CorruptionChecksum {
  import opened Common
  import opened Arith
  import Spreadsheet

  /** The error of destructuring the `undefined` that `find` gives when no pair divides. */
  const NotIterable := "undefined is not iterable"

  // ---------------------------------------------------------------------------------------
  // Part 1

  /** The smallest and the largest value of a row. */
  datatype Limits = Limits(smallest: int, largest: int)

  /** The limits of a row: `None` for an empty row, whose `row[0]` is `undefined`. */
  function RowLimits(row: seq<int>): Option<Limits>
  {
    if row == [] then None else Some(Limits(Spreadsheet.Min(row), Arith.Max(row)))
  }

  /** `getRowLimits`: both limits start at the first value and are narrowed by every value in
      turn. */
  method GetRowLimits(row: seq<int>) returns (r: Option<Limits>)
    ensures r == RowLimits(row)
    ensures r.Some? ==> r.value.smallest in row && r.value.largest in row
    ensures r.Some? ==> forall k :: 0 <= k < |row| ==> r.value.smallest <= row[k] <= r.value.largest
  {
    if row == [] {
      return None;
    }
    var smallest := row[0];
    var largest := row[0];
    for i := 0 to |row|
      invariant smallest in row && largest in row
      invariant forall k :: 0 <= k < i ==> smallest <= row[k] <= largest
      invariant smallest <= row[0] <= largest
    {
      if row[i] < smallest {
        smallest := row[i];
      }
      if row[i] > largest {
        largest := row[i];
      }
    }
    r := Some(Limits(smallest, largest));
  }

  /** `checksumPart1`: the rows' spreads `|largest - smallest|` added up; `None` when a row is
      empty, which makes the JavaScript sum `NaN`. */
  function ChecksumPart1(sheet: seq<seq<int>>): Option<int>
  {
    if sheet == [] then Some(0)
    else match (ChecksumPart1(sheet[..|sheet| - 1]), RowLimits(sheet[|sheet| - 1]))
      case (Some(sum), Some(limits)) => Some(sum + Abs(limits.largest - limits.smallest))
      case _ => None
  }

  /** Part 1 has a value exactly when no row is empty, and it is then the checksum of
      rust/src/day02.rs: the sum of each row's largest minus smallest value. */
  lemma {:induction false} Part1AgreesWithRust(sheet: seq<seq<int>>)
    ensures ChecksumPart1(sheet).Some? <==> forall i :: 0 <= i < |sheet| ==> sheet[i] != []
    ensures ChecksumPart1(sheet).Some? ==>
      Spreadsheet.Checksum(sheet, Spreadsheet.HiLoChecksum) == Ok(ChecksumPart1(sheet).value)
  {
    if sheet != [] {
      var init := sheet[..|sheet| - 1];
      Part1AgreesWithRust(init);
      assert forall i :: 0 <= i < |init| ==> init[i] == sheet[i];
    }
  }

  // ---------------------------------------------------------------------------------------
  // Part 2

  /** `numerator % denominator === 0`: JavaScript's `%` truncates like Rust's, and a zero
      denominator gives `NaN`, which is not 0. */
  predicate Divisible(numerator: int, denominator: int)
  {
    denominator != 0 && TruncRem(numerator, denominator) == 0
  }

  /** The pairs pushed for the value at `i`: it with each of the first `k` values, in order,
      except itself. */
  function RowPairs(row: seq<int>, i: nat, k: nat): (pairs: seq<(int, int)>)
    requires i < |row| && k <= |row|
  {
    if k == 0 then []
    else RowPairs(row, i, k - 1) + (if k - 1 == i then [] else [(row[i], row[k - 1])])
  }

  /** All pairs pushed for the first `m` values. */
  function PairsUpTo(row: seq<int>, m: nat): (pairs: seq<(int, int)>)
    requires m <= |row|
  {
    if m == 0 then [] else PairsUpTo(row, m - 1) + RowPairs(row, m - 1, |row|)
  }

  /** The first pair of the list that divides evenly. */
  function FindPair(pairs: seq<(int, int)>): (r: Option<(int, int)>)
    ensures r.None? <==> forall k :: 0 <= k < |pairs| ==> !Divisible(pairs[k].0, pairs[k].1)
    ensures r.Some? ==> exists k :: (0 <= k < |pairs| && pairs[k] == r.value && Divisible(r.value.0, r.value.1)
      && forall k' :: 0 <= k' < k ==> !Divisible(pairs[k'].0, pairs[k'].1))
  {
    if pairs == [] then None
    else if Divisible(pairs[0].0, pairs[0].1) then Some(pairs[0])
    else
      var rest := FindPair(pairs[1..]);
      assert forall k :: 1 <= k < |pairs| ==> pairs[k] == pairs[1..][k - 1];
      if rest.Some? then
        var k :| 0 <= k < |pairs[1..]| && pairs[1..][k] == rest.value && Divisible(rest.value.0, rest.value.1)
          && forall k' :: 0 <= k' < k ==> !Divisible(pairs[1..][k'].0, pairs[1..][k'].1);
        assert pairs[k + 1] == rest.value;
        rest
      else rest
  }

  /** The first dividing pair of two lists in a row: the first list's, or else the second's. */
  lemma {:induction false} FindPairConcat(a: seq<(int, int)>, b: seq<(int, int)>)
    ensures FindPair(a + b) == if FindPair(a).Some? then FindPair(a) else FindPair(b)
  {
    if a != [] {
      assert (a + b)[0] == a[0];
      assert (a + b)[1..] == a[1..] + b;
      FindPairConcat(a[1..], b);
    } else {
      assert a + b == b;
    }
  }

  /** `getNumDenom`'s inner loop over the denominators, for numerator `i`: the first `j < k`
      (other than `i`) whose value divides the value at `i`. */
  lemma {:induction false} RowPairsMeaning(row: seq<int>, i: nat, k: nat)
    requires i < |row| && k <= |row|
    ensures var r := FindPair(RowPairs(row, i, k));
      && (r.None? <==> forall j :: 0 <= j < k && j != i ==> !Divisible(row[i], row[j]))
      && (r.Some? ==> exists j :: (0 <= j < k && j != i && r.value == (row[i], row[j]) && Divisible(row[i], row[j])
        && forall j' :: 0 <= j' < j && j' != i ==> !Divisible(row[i], row[j'])))
  {
    if k > 0 {
      RowPairsMeaning(row, i, k - 1);
      var last: seq<(int, int)> := if k - 1 == i then [] else [(row[i], row[k - 1])];
      FindPairConcat(RowPairs(row, i, k - 1), last);
      var prev := FindPair(RowPairs(row, i, k - 1));
      if prev.None? && k - 1 != i {
        assert FindPair(last) == if Divisible(row[i], row[k - 1]) then Some((row[i], row[k - 1])) else None;
      }
    }
  }

  /** No ordered pair of different positions before `(i, j)`, numerators first, divides. */
  ghost predicate NoneBefore(row: seq<int>, i: int, j: int)
  {
    forall i', j' :: 0 <= i' < |row| && 0 <= j' < |row| && i' != j' && (i' < i || (i' == i && j' < j))
      ==> !Divisible(row[i'], row[j'])
  }

  /** The pairs of the first `m` numerators: the first ordered pair, numerators first, that
      divides. */
  lemma {:induction false} PairsUpToMeaning(row: seq<int>, m: nat)
    requires m <= |row|
    ensures var r := FindPair(PairsUpTo(row, m));
      && (r.None? <==> NoneBefore(row, m, 0))
      && (r.Some? ==> exists i, j :: (0 <= i < m && 0 <= j < |row| && i != j && r.value == (row[i], row[j])
        && Divisible(row[i], row[j]) && NoneBefore(row, i, j)))
  {
    if m > 0 {
      PairsUpToMeaning(row, m - 1);
      RowPairsMeaning(row, m - 1, |row|);
      FindPairConcat(PairsUpTo(row, m - 1), RowPairs(row, m - 1, |row|));
      var prev := FindPair(PairsUpTo(row, m - 1));
      var r := FindPair(PairsUpTo(row, m));
      if prev.Some? {
        var i, j :| 0 <= i < m - 1 && 0 <= j < |row| && i != j && prev.value == (row[i], row[j])
          && Divisible(row[i], row[j]) && NoneBefore(row, i, j);
        assert r == prev;
      } else if r.Some? {
        var j :| 0 <= j < |row| && j != m - 1 && r.value == (row[m - 1], row[j]) && Divisible(row[m - 1], row[j])
          && forall j' :: 0 <= j' < j && j' != m - 1 ==> !Divisible(row[m - 1], row[j']);
        assert NoneBefore(row, m - 1, j);
      }
    }
  }

  /** What `getNumDenom` computes: the first dividing pair of all the pairs, or the error. */
  function NumDenom(row: seq<int>): Result<(int, int)>
  {
    match FindPair(PairsUpTo(row, |row|))
    case Some(pair) => Ok(pair)
    case None => Err(NotIterable)
  }

  /** `getNumDenom`: push every ordered pair of values at different positions, numerators
      first, then take the first whose remainder is 0. */
  method GetNumDenom(row: seq<int>) returns (r: Result<(int, int)>)
    ensures r == NumDenom(row)
  {
    var pairs: seq<(int, int)> := [];
    for i := 0 to |row|
      invariant pairs == PairsUpTo(row, i)
    {
      for j := 0 to |row|
        invariant pairs == PairsUpTo(row, i) + RowPairs(row, i, j)
      {
        if i != j {
          pairs := pairs + [(row[i], row[j])];
        }
      }
    }
    var found := FindPair(pairs);
    if found.None? {
      return Err(NotIterable);
    }
    r := Ok(found.value);
  }

  /** `getNumDenom` fails exactly when no two values at different positions divide, and
      otherwise gives the first ordered pair, numerators first, that does. */
  lemma NumDenomMeaning(row: seq<int>)
    ensures NumDenom(row).Err? <==> forall i, j :: 0 <= i < |row| && 0 <= j < |row| && i != j ==> !Divisible(row[i], row[j])
    ensures NumDenom(row).Ok? ==> exists i, j :: (0 <= i < |row| && 0 <= j < |row| && i != j
      && NumDenom(row).value == (row[i], row[j]) && Divisible(row[i], row[j]) && NoneBefore(row, i, j))
  {
    PairsUpToMeaning(row, |row|);
  }

  /** A row's Part 2 value: the numerator divided by the denominator, which is exact. */
  function RowQuotient(row: seq<int>): (r: Result<int>)
    ensures r.Ok? ==> NumDenom(row).Ok? && r.value * NumDenom(row).value.1 == NumDenom(row).value.0
    ensures r.Err? ==> r == Err(NotIterable)
  {
    match NumDenom(row)
    case Ok((numerator, denominator)) =>
      NumDenomMeaning(row);
      TruncRemZero(numerator, denominator);
      Ok(TruncQuot(numerator, denominator))
    case Err(e) => Err(e)
  }

  /** `checksumPart2`: the rows' quotients added up, the first row without a dividing pair
      throwing. */
  function ChecksumPart2(sheet: seq<seq<int>>): Result<int>
  {
    Spreadsheet.Checksum(sheet, RowQuotient)
  }

  /** Part 2 throws exactly when some row has no dividing pair, and is otherwise the sum of
      the rows' exact quotients. */
  lemma Part2Meaning(sheet: seq<seq<int>>)
    ensures ChecksumPart2(sheet).Ok? <==> forall i :: 0 <= i < |sheet| ==> NumDenom(sheet[i]).Ok?
    ensures ChecksumPart2(sheet).Ok? ==> ChecksumPart2(sheet).value == Spreadsheet.Sum(MapAll(sheet, RowQuotient).value)
  {
    Spreadsheet.ChecksumSum(sheet, RowQuotient);
  }
}
