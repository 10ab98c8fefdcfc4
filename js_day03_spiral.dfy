/** The spiral memory solved in closed form: the odd square closing the ring that holds the
    target, then the target's place along that ring, walked back from the ring's last cell. */
module SpiralCoordinates {
  import opened Common
  import opened Arith
  import UlamSpiral

  /** The odd side of a square ring and the number of cells it closes. */
  datatype Square = Square(base: int, square: int)

  /** Squares of natural numbers grow with them. */
  lemma SquareGrows(a: int, b: int)
    requires 0 <= a <= b
    ensures a * a <= b * b
  {
    assert b * b == a * a + (b - a) * (b + a);
  }

  /** `findClosestSquare`: from `lastBase` up in steps of two, the first base whose square
      reaches the target. */
  function FindClosestSquare(target: int, lastBase: nat): (r: Square)
    ensures r.base >= lastBase && (r.base - lastBase) % 2 == 0
    ensures r.square == r.base * r.base && r.square >= target
    ensures r.base == lastBase || (r.base - 2) * (r.base - 2) < target
    decreases if target > lastBase * lastBase then target - lastBase * lastBase else 0
  {
    var square := lastBase * lastBase;
    if square >= target then Square(lastBase, square)
    else
      assert (lastBase + 2) * (lastBase + 2) == square + 4 * lastBase + 4;
      FindClosestSquare(target, lastBase + 2)
  }

  /** The square found from base one is the least odd square reaching the target. */
  lemma ClosestSquareLeast(target: int, b: int)
    requires b >= 1 && b % 2 == 1 && b * b >= target
    ensures FindClosestSquare(target, 1).base <= b
  {
    var r := FindClosestSquare(target, 1);
    if r.base > b {
      SquareGrows(b, r.base - 2);
    }
  }

  /** A target after `lo * lo` and up to `hi * hi`, for consecutive odd `lo` and `hi`, lies
      in the square of side `hi`. */
  lemma ClosestSquareRing(target: int, lo: int, hi: int)
    requires lo >= 1 && lo % 2 == 1 && hi == lo + 2 && lo * lo < target <= hi * hi
    ensures FindClosestSquare(target, 1) == Square(hi, hi * hi)
  {
    var s := FindClosestSquare(target, 1);
    ClosestSquareLeast(target, hi);
    if s.base != hi {
      assert s.base <= lo;
      SquareGrows(s.base, lo);
      assert false;
    }
  }

  /** `findCoordinate`: from the ring's last cell (numbered `square`, at `start`), walk back
      along the bottom, then the left side, the top and the right side, `base - 1` cells
      each, to the target; a target not on that ring is an error. */
  function FindCoordinate(target: int, start: (int, int), square: int, base: int): Result<(int, int)>
  {
    var period := base - 1;
    var value := square;
    if target == value then Ok(start)
    else if target >= value - period then Ok((start.0 - (value - target), start.1))
    else
      var value := value - period;
      var coord := (start.0 - period, start.1);
      if target >= value - period then Ok((coord.0, coord.1 + (value - target)))
      else
        var value := value - period;
        var coord := (coord.0, coord.1 + period);
        if target >= value - period then Ok((coord.0 + (value - target), coord.1))
        else
          var value := value - period;
          var coord := (coord.0 + period, coord.1);
          if target > value - period then Ok((coord.0, coord.1 - (value - target)))
          else Err("Expected to find target")
  }

  /** The error is thrown exactly for targets before the ring's `4 (base - 1)` cells (other
      than the square itself). */
  lemma FindCoordinateErr(target: int, start: (int, int), square: int, base: int)
    requires base >= 1
    ensures FindCoordinate(target, start, square, base).Err? <==> target != square && target <= square - 4 * (base - 1)
  {
  }

  /** The script: the closest square, the ring's last cell at `(armDepth, -armDepth)`, and the
      target's coordinate on that ring. */
  function Locate(target: int): Result<(int, int)>
  {
    var closest := FindClosestSquare(target, 1);
    var armDepth := (closest.base - 1) / 2;
    FindCoordinate(target, (armDepth, -armDepth), closest.square, closest.base)
  }

  /** The reported distance: the coordinate's Manhattan distance from the origin. */
  function Distance(coord: (int, int)): nat
  {
    Abs(coord.0) + Abs(coord.1)
  }

  /** On ring `r`, the cell numbered `square - 8r + t + 1` is the cell `t` places along the
      ring, counted as the walker enters it. */
  lemma CoordinateOnRing(r: int, t: int, target: int, square: int)
    requires 1 <= r && 0 <= t < 8 * r && target == square - 8 * r + t + 1
    ensures FindCoordinate(target, (r, -r), square, 2 * r + 1) == Ok(UlamSpiral.SpiralPos(r, t))
  {
  }

  /** A target below 1 is on no ring: the script throws. */
  lemma LocateBelowOne(target: int)
    requires target < 1
    ensures Locate(target).Err?
  {
    assert FindClosestSquare(target, 1) == Square(1, 1);
  }

  /** Every number from 2 on lies `t` places along a ring `r`, between the odd squares
      `lo * lo` and `hi * hi` around it, where the walker reaches `SpiralPos(r, t)`. */
  lemma RingBounds(n: nat) returns (r: nat, t: nat, lo: int, hi: int)
    requires n >= 2
    ensures 1 <= r && t < 8 * r && lo == 2 * r - 1 && hi == lo + 2
    ensures lo * lo < n <= hi * hi && n == hi * hi - 8 * r + t + 1
    ensures UlamSpiral.CellAt(n - 1) == UlamSpiral.SpiralPos(r, t)
  {
    r, t := UlamSpiral.RingOf(n - 1);
    UlamSpiral.RingStartSquare(r);
    lo, hi := 2 * r - 1, 2 * r + 1;
    assert hi * hi == lo * lo + 4 * lo + 4;
    UlamSpiral.CellAtSpiral(n - 1, r, t);
  }

  /** From 2 on, the script finds the cell `t` places along the ring `r` of the number. */
  lemma LocateOnSpiral(n: nat) returns (r: nat, t: nat)
    requires n >= 2
    ensures 1 <= r && t < 8 * r && FindClosestSquare(n, 1).base == 2 * r + 1
    ensures Locate(n) == Ok(UlamSpiral.SpiralPos(r, t)) && UlamSpiral.CellAt(n - 1) == UlamSpiral.SpiralPos(r, t)
  {
    var lo, hi;
    r, t, lo, hi := RingBounds(n);
    ClosestSquareRing(n, lo, hi);
    CoordinateOnRing(r, t, n, hi * hi);
  }

  /** For every target from 1 on, the closed form finds the cell the spiral walker of
      rust/src/day03.rs reaches at that number, so both report the same distance. */
  lemma LocateAgreesWithWalk(n: nat)
    requires n >= 1
    ensures Locate(n) == Ok(UlamSpiral.CellAt(n - 1))
    ensures Distance(Locate(n).value) == UlamSpiral.Manhattan(UlamSpiral.CellAt(n - 1))
  {
    if n == 1 {
      UlamSpiral.CellsDistinct(0, 1);
      assert FindClosestSquare(n, 1) == Square(1, 1);
    } else {
      var r, t := LocateOnSpiral(n);
    }
  }

  /** Every coordinate found lies on the ring of the square found: its larger absolute
      coordinate is `armDepth`. */
  lemma LocateOnRing(n: nat)
    requires n >= 2
    ensures var armDepth := (FindClosestSquare(n, 1).base - 1) / 2;
      Locate(n).Ok? && UlamSpiral.Ring(Locate(n).value) == armDepth
  {
    var r, t := LocateOnSpiral(n);
    UlamSpiral.PosIndex(r, t);
  }
}
