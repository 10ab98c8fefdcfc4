/** Grid coordinates: a column and a row, both unsigned. */
module Coords {
  /** `Coord(x, y)`: column `x`, row `y`. */
  datatype Coord = Coord(x: nat, y: nat)

  /** `Coord + Coord`, column by column and row by row. */
  function Add(a: Coord, b: Coord): (c: Coord)
    ensures c.x - a.x == b.x && c.y - a.y == b.y
  {
    Coord(a.x + b.x, a.y + b.y)
  }

  /** Adding coordinates does not depend on their order, nor on grouping. */
  lemma AddCommutes(a: Coord, b: Coord, c: Coord)
    ensures Add(a, b) == Add(b, a)
    ensures Add(Add(a, b), c) == Add(a, Add(b, c))
    ensures Add(a, Coord(0, 0)) == a
  {
  }

  /** `From<(usize, usize)> for Coord`. */
  function FromPair(p: (nat, nat)): Coord
  {
    Coord(p.0, p.1)
  }

  /** `From<Coord> for (usize, usize)`. */
  function ToPair(c: Coord): (nat, nat)
  {
    (c.x, c.y)
  }

  /** A pair turned into a coordinate and back is the same pair, and the other way round. */
  lemma PairRoundTrip(p: (nat, nat), c: Coord)
    ensures ToPair(FromPair(p)) == p
    ensures FromPair(ToPair(c)) == c
  {
  }

  /** The derived `PartialOrd`: columns first, rows only to break a tie. */
  predicate LexLess(a: Coord, b: Coord)
  {
    a.x < b.x || (a.x == b.x && a.y < b.y)
  }

  /** `a >= b` under the derived ordering. */
  predicate LexAtLeast(a: Coord, b: Coord)
  {
    !LexLess(a, b)
  }

  /** The derived ordering is a total order. */
  lemma LexTotal(a: Coord, b: Coord, c: Coord)
    ensures !LexLess(a, a)
    ensures LexLess(a, b) ==> !LexLess(b, a)
    ensures LexLess(a, b) && LexLess(b, c) ==> LexLess(a, c)
    ensures a == b || LexLess(a, b) || LexLess(b, a)
  {
  }

  /** Being at least as large in both components is at least as large in the ordering,
      but not the other way round: `(4, 4) >= (3, 5)` although the row is smaller. */
  lemma LexWeakerThanComponents(a: Coord, b: Coord)
    ensures a.x >= b.x && a.y >= b.y ==> LexAtLeast(a, b)
    ensures LexAtLeast(Coord(4, 4), Coord(3, 5)) && Coord(4, 4).y < Coord(3, 5).y
  {
  }
}
