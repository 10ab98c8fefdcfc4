/** Disk defragmentation: each row of a 128 x 128 grid is the knot hash of the key followed
    by `-` and the row number, written out in binary; a `1` is a used square. Used squares
    that touch horizontally or vertically form a region, and a flood fill counts the regions. */
module Defrag {
  import opened Common
  import Decimal
  import KnotHash

  /** The side of the grid. */
  const Side: int := 128

  // ---------------------------------------------------------------------------------------
  // `hex_to_bin`

  /** `u64::from_str_radix` on one character with radix 16: a digit or a letter `a` to `f`
      in either case; anything else is an error. */
  function HexValue(c: char): (r: Option<nat>)
    ensures r.Some? ==> r.value < 16
  {
    if '0' <= c <= '9' then Some(c as nat - '0' as nat)
    else if 'a' <= c <= 'f' then Some(c as nat - 'a' as nat + 10)
    else if 'A' <= c <= 'F' then Some(c as nat - 'A' as nat + 10)
    else None
  }

  /** The value of a string of binary digits, most significant first. */
  function BitsValue(s: string): nat
  {
    if s == [] then 0 else 2 * BitsValue(s[..|s| - 1]) + (if s[|s| - 1] == '1' then 1 else 0)
  }

  predicate IsBit(c: char) { c == '0' || c == '1' }

  /** `format!("{:04b}", n)`: `n` in binary, padded with zeros to four digits. */
  function Bits4(n: nat): (r: string)
    requires n < 16
    ensures |r| == 4 && forall k :: 0 <= k < 4 ==> IsBit(r[k])
  {
    [Bit(n / 8), Bit(n / 4 % 2), Bit(n / 2 % 2), Bit(n % 2)]
  }

  function Bit(b: nat): (c: char)
    requires b < 2
  {
    if b == 1 then '1' else '0'
  }

  /** `hex_to_bin`: every hexadecimal digit becomes four binary digits; a character that is
      not a hexadecimal digit is an error (the `unwrap` panics). */
  function HexToBin(hex: string): (r: Result<string>)
    ensures r.Ok? <==> forall k :: 0 <= k < |hex| ==> HexValue(hex[k]).Some?
    ensures r.Ok? ==> |r.value| == 4 * |hex|
    ensures r.Ok? ==> forall k :: 0 <= k < |hex| ==> r.value[4 * k..4 * k + 4] == Bits4(HexValue(hex[k]).value)
  {
    if hex == [] then Ok([])
    else
      match HexValue(hex[|hex| - 1])
      case None => Err("invalid hexadecimal digit")
      case Some(n) =>
        match HexToBin(hex[..|hex| - 1])
        case Err(e) => Err(e)
        case Ok(front) => Ok(front + Bits4(n))
  }

  /** The four binary digits read back give the number. */
  lemma Bits4Value(n: nat)
    requires n < 16
    ensures BitsValue(Bits4(n)) == n
  {
    var r := Bits4(n);
    assert BitsValue(r[..1]) == n / 8 by {
      assert r[..1][..0] == [];
    }
    assert BitsValue(r[..2]) == n / 4 by {
      assert r[..2][..1] == r[..1];
    }
    assert BitsValue(r[..3]) == n / 2 by {
      assert r[..3][..2] == r[..2];
    }
    assert r[..4][..3] == r[..3] && r[..4] == r;
  }

  /** Every digit of the knot hash's alphabet is read back as its own value. */
  lemma HexValueOfDigit(d: nat)
    requires d < 16
    ensures HexValue(KnotHash.HexDigits[d]) == Some(d)
  {
  }

  /** Upper-case letters are read like lower-case ones. */
  lemma HexValueCaseInsensitive(c: char)
    requires 'a' <= c <= 'f'
    ensures HexValue((c as int - 32) as char) == HexValue(c)
  {
  }

  /** A character outside the hexadecimal digits aborts `hex_to_bin`. */
  lemma HexToBinRejects(hex: string, k: nat)
    requires k < |hex| && HexValue(hex[k]).None?
    ensures HexToBin(hex).Err?
  {
  }

  /** One more digit appends its four bits. */
  lemma HexToBinStep(hex: string, k: nat, bits: string, n: nat)
    requires k < |hex| && HexToBin(hex[..k]) == Ok(bits) && HexValue(hex[k]) == Some(n)
    ensures HexToBin(hex[..k + 1]) == Ok(bits + Bits4(n))
  {
    assert hex[..k + 1][..k] == hex[..k];
  }

  /** The test string `a0c2017`. */
  lemma SampleHexToBin(hex: string)
    requires hex == "a0c2017"
    ensures HexToBin(hex) == Ok("1010000011000010000000010111")
  {
    SampleHexBlocks(hex);
    SampleBits();
  }

  lemma SampleHexBlocks(hex: string)
    requires hex == "a0c2017"
    ensures HexToBin(hex) == Ok(Bits4(10) + Bits4(0) + Bits4(12) + Bits4(2) + Bits4(0) + Bits4(1) + Bits4(7))
  {
    assert hex[..0] == [];
    HexToBinStep(hex, 0, [], 10);
    assert [] + Bits4(10) == Bits4(10);
    HexToBinStep(hex, 1, Bits4(10), 0);
    HexToBinStep(hex, 2, Bits4(10) + Bits4(0), 12);
    HexToBinStep(hex, 3, Bits4(10) + Bits4(0) + Bits4(12), 2);
    HexToBinStep(hex, 4, Bits4(10) + Bits4(0) + Bits4(12) + Bits4(2), 0);
    HexToBinStep(hex, 5, Bits4(10) + Bits4(0) + Bits4(12) + Bits4(2) + Bits4(0), 1);
    HexToBinStep(hex, 6, Bits4(10) + Bits4(0) + Bits4(12) + Bits4(2) + Bits4(0) + Bits4(1), 7);
    assert hex[..7] == hex;
  }

  lemma SampleBits()
    ensures Bits4(10) + Bits4(0) + Bits4(12) + Bits4(2) + Bits4(0) + Bits4(1) + Bits4(7)
         == "1010000011000010000000010111"
  {
    SampleBitsFront();
    SampleBitsBack();
  }

  lemma SampleBitsFront()
    ensures Bits4(10) + Bits4(0) + Bits4(12) == "101000001100"
  {
  }

  lemma SampleBitsBack()
    ensures Bits4(2) + Bits4(0) + Bits4(1) + Bits4(7) == "0010000000010111"
  {
  }

  // ---------------------------------------------------------------------------------------
  // The grid

  type Cell = (int, int)

  /** `is_valid_coord`: both coordinates lie in `0..=127`. */
  predicate IsValidCoord(c: Cell)
  {
    0 <= c.0 && 0 <= c.1 && c.0 <= 127 && c.1 <= 127
  }

  /** The grid the puzzle builds: 128 rows of 128 squares, `true` for a used square. */
  predicate IsGrid(bins: seq<seq<bool>>)
  {
    |bins| == Side && forall x :: 0 <= x < Side ==> |bins[x]| == Side
  }

  /** A used square of the grid. */
  predicate Used(bins: seq<seq<bool>>, c: Cell)
    requires IsGrid(bins)
  {
    IsValidCoord(c) && bins[c.0][c.1]
  }

  /** The four squares next to `c`, in the order `traverse` visits them. */
  function Neighbours(c: Cell): seq<Cell>
  {
    [(c.0 + 1, c.1), (c.0 - 1, c.1), (c.0, c.1 + 1), (c.0, c.1 - 1)]
  }

  /** The neighbours that lie on the grid, in order. */
  function ValidNeighbours(c: Cell): (r: seq<Cell>)
    ensures forall n :: n in r <==> n in Neighbours(c) && IsValidCoord(n)
  {
    Keep(Neighbours(c))
  }

  function Keep(ns: seq<Cell>): (r: seq<Cell>)
    ensures forall n :: n in r <==> n in ns && IsValidCoord(n)
  {
    if ns == [] then []
    else (if IsValidCoord(ns[0]) then [ns[0]] else []) + Keep(ns[1..])
  }

  /** A path of used squares, each next to the one before. */
  ghost predicate IsPath(bins: seq<seq<bool>>, path: seq<Cell>)
    requires IsGrid(bins)
  {
    |path| > 0
    && (forall k :: 0 <= k < |path| ==> Used(bins, path[k]))
    && (forall k :: 0 < k < |path| ==> path[k] in Neighbours(path[k - 1]))
  }

  /** `b` is in the region of `a`: a path of used squares leads from `a` to `b`. */
  ghost predicate Connected(bins: seq<seq<bool>>, a: Cell, b: Cell)
    requires IsGrid(bins)
  {
    exists path :: IsPath(bins, path) && path[0] == a && path[|path| - 1] == b
  }

  /** Every used square outside `open` has each of its neighbours on the grid in `visited`. */
  ghost predicate ClosedExcept(bins: seq<seq<bool>>, visited: set<Cell>, open: set<Cell>)
    requires IsGrid(bins)
  {
    forall c :: c in visited && c !in open && Used(bins, c) ==> NeighboursIn(c, visited)
  }

  ghost predicate NeighboursIn(c: Cell, visited: set<Cell>)
  {
    forall n :: n in Neighbours(c) && IsValidCoord(n) ==> n in visited
  }

  /** Every square of the grid. */
  ghost function AllCells(): set<Cell>
  {
    set x: int, y: int | 0 <= x < Side && 0 <= y < Side :: (x, y)
  }

  lemma InAllCells(c: Cell)
    requires IsValidCoord(c)
    ensures c in AllCells()
  {
    assert c == (c.0, c.1);
  }

  /** A digit of the knot hash's alphabet is a hexadecimal digit. */
  lemma HexDigitValid(c: char)
    requires c in KnotHash.HexDigits
    ensures HexValue(c).Some?
  {
    var d :| 0 <= d < 16 && KnotHash.HexDigits[d] == c;
    HexValueOfDigit(d);
  }

  /** A string in the knot hash's alphabet converts without error. */
  lemma HexStringToBin(hex: string)
    requires forall k :: 0 <= k < |hex| ==> hex[k] in KnotHash.HexDigits
    ensures HexToBin(hex).Ok?
  {
    forall k | 0 <= k < |hex|
      ensures HexValue(hex[k]).Some?
    {
      HexDigitValid(hex[k]);
    }
  }

  /** The key of row `i`: the key, a `-` and the row number in decimal. */
  function RowKey(key: string, i: nat): string
  {
    key + "-" + Decimal.ShowNat(i)
  }

  /** Row `i` of the grid: the knot hash of the row's key in binary, a square being used
      where the bit is `1`. */
  function Row(key: string, i: nat): (row: seq<bool>)
    ensures |row| == Side
  {
    KnotHash.KnotHashShape(RowKey(key, i));
    HashBits(KnotHash.KnotHashOf(RowKey(key, i)))
  }

  /** The 128 bits of a 32-digit hash, `true` for each `1`. The hash is in the knot hash's
      alphabet, so the conversion cannot fail. */
  function HashBits(hex: string): (row: seq<bool>)
    requires |hex| == 32 && forall k :: 0 <= k < 32 ==> hex[k] in KnotHash.HexDigits
    ensures |row| == Side && HexToBin(hex).Ok?
    ensures forall y :: 0 <= y < Side ==> row[y] == (HexToBin(hex).value[y] == '1')
  {
    HexStringToBin(hex);
    var bits := HexToBin(hex).value;
    seq(Side, y requires 0 <= y < Side => bits[y] == '1')
  }

  /** The rows 0 to 127 that `run` builds from the key. */
  function GridOf(key: string): (bins: seq<seq<bool>>)
    ensures IsGrid(bins)
    ensures forall x :: 0 <= x < Side ==> bins[x] == Row(key, x)
  {
    seq(Side, x requires 0 <= x < Side => Row(key, x))
  }

  // ---------------------------------------------------------------------------------------
  // Regions

  /** A used square is in its own region. */
  lemma ConnectedSelf(bins: seq<seq<bool>>, a: Cell)
    requires IsGrid(bins) && Used(bins, a)
    ensures Connected(bins, a, a)
  {
    assert IsPath(bins, [a]);
  }

  /** A step to a used neighbour extends a region. */
  lemma ConnectedStep(bins: seq<seq<bool>>, a: Cell, b: Cell, c: Cell)
    requires IsGrid(bins) && Used(bins, a) && b in Neighbours(a) && Connected(bins, b, c)
    ensures Connected(bins, a, c)
  {
    var path :| IsPath(bins, path) && path[0] == b && path[|path| - 1] == c;
    var longer := [a] + path;
    assert forall k :: 0 < k < |longer| ==> longer[k] == path[k - 1];
    assert IsPath(bins, longer);
  }

  /** Being next to each other is symmetric. */
  lemma NeighbourSymmetric(a: Cell, b: Cell)
    requires b in Neighbours(a)
    ensures a in Neighbours(b)
  {
  }

  /** Regions are symmetric: a path read backwards is a path. */
  lemma ConnectedSymmetric(bins: seq<seq<bool>>, a: Cell, b: Cell)
    requires IsGrid(bins) && Connected(bins, a, b)
    ensures Connected(bins, b, a)
  {
    var path :| IsPath(bins, path) && path[0] == a && path[|path| - 1] == b;
    PathBackwards(bins, path);
  }

  lemma {:induction false} PathBackwards(bins: seq<seq<bool>>, path: seq<Cell>)
    requires IsGrid(bins) && IsPath(bins, path)
    ensures Connected(bins, path[|path| - 1], path[0])
    decreases |path|
  {
    if |path| == 1 {
      ConnectedSelf(bins, path[0]);
    } else {
      var front := path[..|path| - 1];
      PathFront(bins, path);
      PathBackwards(bins, front);
      PathBackwardsStep(bins, path[|path| - 1], path[|path| - 2], path[0]);
    }
  }

  /** A path without its last square is a path. */
  lemma PathFront(bins: seq<seq<bool>>, path: seq<Cell>)
    requires IsGrid(bins) && IsPath(bins, path) && |path| > 1
    ensures IsPath(bins, path[..|path| - 1])
  {
  }

  lemma PathBackwardsStep(bins: seq<seq<bool>>, last: Cell, prev: Cell, first: Cell)
    requires IsGrid(bins) && Used(bins, last) && last in Neighbours(prev)
    requires Connected(bins, prev, first)
    ensures Connected(bins, last, first)
  {
    NeighbourSymmetric(prev, last);
    ConnectedStep(bins, last, prev, first);
  }

  /** A closed set of squares holds the whole region of each used square in it. */
  lemma {:induction false} ClosedHoldsRegion(bins: seq<seq<bool>>, visited: set<Cell>, path: seq<Cell>)
    requires IsGrid(bins) && ClosedExcept(bins, visited, {}) && IsPath(bins, path)
    requires path[0] in visited
    ensures path[|path| - 1] in visited
    decreases |path|
  {
    if |path| > 1 {
      var front := path[..|path| - 1];
      assert IsPath(bins, front);
      ClosedHoldsRegion(bins, visited, front);
      assert NeighboursIn(path[|path| - 2], visited);
    }
  }

  lemma ClosedHoldsConnected(bins: seq<seq<bool>>, visited: set<Cell>, a: Cell, b: Cell)
    requires IsGrid(bins) && ClosedExcept(bins, visited, {}) && a in visited && Connected(bins, a, b)
    ensures b in visited
  {
    var path :| IsPath(bins, path) && path[0] == a && path[|path| - 1] == b;
    ClosedHoldsRegion(bins, visited, path);
  }

  // ---------------------------------------------------------------------------------------
  // `traverse` and the region count

  /** `traverse`: from the used square `p`, marks each unvisited neighbour on the grid as
      visited and goes on from the used ones. Squares already visited are left alone; the
      squares it adds are on the grid, and the used ones among them lie in the region of
      `p`. Every used square outside `open`, and now `p` too, has all its neighbours
      visited afterwards. */
  method Traverse(bins: seq<seq<bool>>, visited: set<Cell>, p: Cell, ghost open: set<Cell>)
    returns (result: set<Cell>)
    requires IsGrid(bins) && Used(bins, p) && p in visited && ClosedExcept(bins, visited, open)
    ensures visited <= result
    ensures forall q :: q in result && q !in visited ==> IsValidCoord(q)
    ensures forall q :: q in result && q !in visited && Used(bins, q) ==> Connected(bins, p, q)
    ensures ClosedExcept(bins, result, open - {p})
    decreases AllCells() - visited
  {
    var valid := ValidNeighbours(p);
    result := visited;
    for k := 0 to |valid|
      invariant visited <= result
      invariant forall q :: q in result && q !in visited ==> IsValidCoord(q)
      invariant forall q :: q in result && q !in visited && Used(bins, q) ==> Connected(bins, p, q)
      invariant ClosedExcept(bins, result, open)
      invariant forall m :: 0 <= m < k ==> valid[m] in result
    {
      var q := valid[k];
      assert q in valid;
      if q !in result {
        result := result + {q};
        if bins[q.0][q.1] {
          ConnectedSelf(bins, q);
          ConnectedStep(bins, p, q, q);
          InAllCells(q);
          var before := result;
          result := Traverse(bins, result, q, open + {q});
          forall r | r in result && r !in before && Used(bins, r)
            ensures Connected(bins, p, r)
          {
            ConnectedStep(bins, p, q, r);
          }
        }
      }
    }
    assert NeighboursIn(p, result);
  }

  /** The region-counting loop of `run`: scans the grid row by row and, at each unvisited
      used square, counts a region and traverses it. `roots` are the squares that started a
      region: they are used, none lies in another's region, and every used square lies in
      the region of one of them, so `groups` is the number of regions. */
  method CountGroups(bins: seq<seq<bool>>) returns (groups: nat, ghost roots: seq<Cell>)
    requires IsGrid(bins)
    ensures groups == |roots|
    ensures forall r :: r in roots ==> Used(bins, r)
    ensures forall a, b :: 0 <= a < b < |roots| ==> !Connected(bins, roots[a], roots[b])
    ensures forall c :: Used(bins, c) ==> exists r :: r in roots && Connected(bins, r, c)
  {
    var visited: set<Cell> := {};
    groups, roots := 0, [];
    for i := 0 to Side
      invariant ScanInvariant(bins, visited, roots) && groups == |roots|
      invariant forall x, y :: 0 <= x < i && 0 <= y < Side ==> (x, y) in visited
    {
      for j := 0 to Side
        invariant ScanInvariant(bins, visited, roots) && groups == |roots|
        invariant forall x, y :: 0 <= x < i && 0 <= y < Side ==> (x, y) in visited
        invariant forall y :: 0 <= y < j ==> (i, y) in visited
      {
        var pair := (i, j);
        var used := bins[i][j];
        if pair !in visited {
          ghost var before := visited;
          visited := visited + {pair};
          if used {
            groups := groups + 1;
            ScanOpens(bins, before, roots, pair);
            visited := Traverse(bins, visited, pair, {pair});
            ScanAfterTraverse(bins, before, visited, roots, pair);
            roots := roots + [pair];
          } else {
            ScanSkipsUnused(bins, before, roots, pair);
          }
        }
      }
    }
    forall c | Used(bins, c)
      ensures exists r :: r in roots && Connected(bins, r, c)
    {
      assert c in visited;
    }
  }

  /** What the scan keeps: the visited squares are closed, the roots are visited used
      squares that do not reach each other, and every visited used square is in a root's
      region. */
  ghost predicate ScanInvariant(bins: seq<seq<bool>>, visited: set<Cell>, roots: seq<Cell>)
    requires IsGrid(bins)
  {
    ClosedExcept(bins, visited, {})
    && (forall r :: r in roots ==> r in visited && Used(bins, r))
    && (forall a, b :: 0 <= a < b < |roots| ==> !Connected(bins, roots[a], roots[b]))
    && (forall c :: c in visited && Used(bins, c) ==> exists r :: r in roots && Connected(bins, r, c))
  }

  /** An unvisited used square opens a region that no earlier root reaches; marking it
      visited leaves only that square open. */
  lemma ScanOpens(bins: seq<seq<bool>>, visited: set<Cell>, roots: seq<Cell>, pair: Cell)
    requires IsGrid(bins) && ScanInvariant(bins, visited, roots) && pair !in visited && Used(bins, pair)
    ensures forall a :: 0 <= a < |roots| ==> !Connected(bins, roots[a], pair)
    ensures ClosedExcept(bins, visited + {pair}, {pair})
  {
    forall a | 0 <= a < |roots|
      ensures !Connected(bins, roots[a], pair)
    {
      if Connected(bins, roots[a], pair) {
        ClosedHoldsConnected(bins, visited, roots[a], pair);
      }
    }
  }

  /** Marking an unused square visited keeps the scan's invariant. */
  lemma ScanSkipsUnused(bins: seq<seq<bool>>, visited: set<Cell>, roots: seq<Cell>, pair: Cell)
    requires IsGrid(bins) && ScanInvariant(bins, visited, roots) && !Used(bins, pair)
    ensures ScanInvariant(bins, visited + {pair}, roots)
  {
  }

  /** After the traversal from a new root the scan's invariant holds with that root added. */
  lemma ScanAfterTraverse(bins: seq<seq<bool>>, visited: set<Cell>, result: set<Cell>, roots: seq<Cell>, pair: Cell)
    requires IsGrid(bins) && ScanInvariant(bins, visited, roots) && pair !in visited && Used(bins, pair)
    requires forall a :: 0 <= a < |roots| ==> !Connected(bins, roots[a], pair)
    requires visited + {pair} <= result
    requires forall q :: q in result && q !in visited + {pair} && Used(bins, q) ==> Connected(bins, pair, q)
    requires ClosedExcept(bins, result, {pair} - {pair})
    ensures ScanInvariant(bins, result, roots + [pair])
  {
    assert {pair} - {pair} == {};
    RootsApart(bins, roots, pair);
    RegionsCovered(bins, visited, result, roots, pair);
  }

  /** A root no earlier root reaches keeps the roots apart. */
  lemma RootsApart(bins: seq<seq<bool>>, roots: seq<Cell>, pair: Cell)
    requires IsGrid(bins)
    requires forall a, b :: 0 <= a < b < |roots| ==> !Connected(bins, roots[a], roots[b])
    requires forall a :: 0 <= a < |roots| ==> !Connected(bins, roots[a], pair)
    ensures forall a, b :: 0 <= a < b < |roots + [pair]| ==> !Connected(bins, (roots + [pair])[a], (roots + [pair])[b])
  {
    var roots' := roots + [pair];
    forall a, b | 0 <= a < b < |roots'|
      ensures !Connected(bins, roots'[a], roots'[b])
    {
      if b < |roots| {
        assert roots'[a] == roots[a] && roots'[b] == roots[b];
      } else {
        assert roots'[a] == roots[a] && roots'[b] == pair;
      }
    }
  }

  /** Every used square the traversal adds is in the new root's region. */
  lemma RegionsCovered(bins: seq<seq<bool>>, visited: set<Cell>, result: set<Cell>, roots: seq<Cell>, pair: Cell)
    requires IsGrid(bins) && Used(bins, pair) && visited + {pair} <= result
    requires forall c :: c in visited && Used(bins, c) ==> exists r :: r in roots && Connected(bins, r, c)
    requires forall q :: q in result && q !in visited + {pair} && Used(bins, q) ==> Connected(bins, pair, q)
    ensures forall c :: c in result && Used(bins, c) ==> exists r :: r in roots + [pair] && Connected(bins, r, c)
  {
    var roots' := roots + [pair];
    forall c | c in result && Used(bins, c)
      ensures exists r :: r in roots' && Connected(bins, r, c)
    {
      if c == pair {
        ConnectedSelf(bins, pair);
        assert pair in roots';
      } else if c in visited {
        var r :| r in roots && Connected(bins, r, c);
        assert r in roots';
      } else {
        assert pair in roots';
      }
    }
  }
}
