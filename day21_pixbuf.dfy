/** `PixBuf`: a square of pixels stored row after row in one buffer, changed in place by
    pixel writes, swaps, copies, flips and rotation. */
module PixBufs {
  import opened Common
  import opened Coords
  import opened PixelGrid

  // ---------------------------------------------------------------------------------------
  // Single pixels

  /** The picture with the pixel at flat index `Idx(x, y, n)` set to `v`. */
  function Painted(img: Image, x: nat, y: nat, v: bool): Image
    requires Square(img) && x < img.size && y < img.size
  {
    IdxBelow(x, y, img.size);
    Image(img.size, img.pixels[Idx(x, y, img.size) := v])
  }

  /** A write changes the pixel written and no other. */
  lemma PaintedAt(img: Image, cx: nat, cy: nat, v: bool, x: int, y: int)
    requires Square(img) && cx < img.size && cy < img.size
    ensures Square(Painted(img, cx, cy, v))
    ensures Pixel(Painted(img, cx, cy, v), x, y) == if x == cx && y == cy then v else Pixel(img, x, y)
  {
    IdxBelow(cx, cy, img.size);
    if 0 <= x < img.size && 0 <= y < img.size {
      IdxBelow(x, y, img.size);
      if Idx(x, y, img.size) == Idx(cx, cy, img.size) {
        IdxInjective(x, y, cx, cy, img.size);
      }
    }
  }

  /** The picture with the pixels at `(x1, y1)` and `(x2, y2)` exchanged. */
  function Swapped(img: Image, x1: nat, y1: nat, x2: nat, y2: nat): Image
    requires Square(img) && x1 < img.size && y1 < img.size && x2 < img.size && y2 < img.size
  {
    IdxBelow(x1, y1, img.size);
    IdxBelow(x2, y2, img.size);
    var i, j := Idx(x1, y1, img.size), Idx(x2, y2, img.size);
    Image(img.size, img.pixels[i := img.pixels[j]][j := img.pixels[i]])
  }

  /** A swap exchanges the two pixels and leaves the others. */
  lemma SwappedAt(img: Image, x1: nat, y1: nat, x2: nat, y2: nat, x: int, y: int)
    requires Square(img) && x1 < img.size && y1 < img.size && x2 < img.size && y2 < img.size
    ensures Square(Swapped(img, x1, y1, x2, y2))
    ensures Pixel(Swapped(img, x1, y1, x2, y2), x, y) ==
      if x == x2 && y == y2 then Pixel(img, x1, y1)
      else if x == x1 && y == y1 then Pixel(img, x2, y2)
      else Pixel(img, x, y)
  {
    var n := img.size;
    IdxBelow(x1, y1, n);
    IdxBelow(x2, y2, n);
    if 0 <= x < n && 0 <= y < n {
      IdxBelow(x, y, n);
      if Idx(x, y, n) == Idx(x1, y1, n) {
        IdxInjective(x, y, x1, y1, n);
      }
      if Idx(x, y, n) == Idx(x2, y2, n) {
        IdxInjective(x, y, x2, y2, n);
      }
    }
  }

  /** An index inside the buffer whose column is inside the square has its row inside too. */
  lemma RowInside(x: nat, y: nat, n: nat)
    requires x < n && Idx(x, y, n) < Area(n)
    ensures y < n
  {
    if y >= n {
      IdxShift(x, y, n);
      if y > n {
        RowsBelow(n, y, n);
      }
    }
  }

  // ---------------------------------------------------------------------------------------
  // Loop progress: which pixels a row-major or column-major scan has passed

  /** `(a, b)` comes before `(outer, inner)` when the outer loop runs over the first
      coordinate and the inner loop over the second. */
  predicate Before(outer: int, inner: int, a: int, b: int)
  {
    a < outer || (a == outer && b < inner)
  }

  // ---------------------------------------------------------------------------------------
  // `flip`

  /** The pixel paired with `(x, y)` by a flip. */
  function MirrorX(n: nat, axis: Axis, x: int): int
  {
    if axis == Horizontal then n - 1 - x else x
  }

  function MirrorY(n: nat, axis: Axis, y: int): int
  {
    if axis == Vertical then n - 1 - y else y
  }

  /** The pixels `flip` swaps with their mirror image: the upper half of the rows, or the
      left half of the columns. */
  predicate Leads(n: nat, axis: Axis, x: int, y: int)
  {
    if axis == Vertical then y < n / 2 else x < n / 2
  }

  /** `flip`'s scan, rows outside and columns inside, has swapped `(x, y)` with its mirror
      image before reaching column `col` of row `row`. */
  predicate FlipDone(n: nat, axis: Axis, row: int, col: int, x: int, y: int)
  {
    Leads(n, axis, x, y) && Before(row, col, y, x)
  }

  /** The picture part way through `flip`. */
  ghost function FlipPart(img: Image, axis: Axis, row: int, col: int): (r: Image)
    ensures r.size == img.size && Square(r)
  {
    var n := img.size;
    Build(n, (x, y) =>
      if FlipDone(n, axis, row, col, x, y) || FlipDone(n, axis, row, col, MirrorX(n, axis, x), MirrorY(n, axis, y))
      then Pixel(img, MirrorX(n, axis, x), MirrorY(n, axis, y))
      else Pixel(img, x, y))
  }

  lemma FlipPartAt(img: Image, axis: Axis, row: int, col: int, x: int, y: int)
    requires 0 <= x < img.size && 0 <= y < img.size
    ensures var n := img.size;
      Pixel(FlipPart(img, axis, row, col), x, y) ==
      if FlipDone(n, axis, row, col, x, y) || FlipDone(n, axis, row, col, MirrorX(n, axis, x), MirrorY(n, axis, y))
      then Pixel(img, MirrorX(n, axis, x), MirrorY(n, axis, y))
      else Pixel(img, x, y)
  {
    var n := img.size;
    BuildAt(n, (x, y) =>
      if FlipDone(n, axis, row, col, x, y) || FlipDone(n, axis, row, col, MirrorX(n, axis, x), MirrorY(n, axis, y))
      then Pixel(img, MirrorX(n, axis, x), MirrorY(n, axis, y))
      else Pixel(img, x, y), x, y);
  }

  /** Nothing is swapped before the scan starts. */
  lemma FlipPartStart(img: Image, axis: Axis)
    requires Square(img)
    ensures FlipPart(img, axis, 0, 0) == img
  {
    forall x: int, y: int | 0 <= x < img.size && 0 <= y < img.size
      ensures Pixel(FlipPart(img, axis, 0, 0), x, y) == Pixel(img, x, y)
    {
      FlipPartAt(img, axis, 0, 0, x, y);
    }
    SameImage(FlipPart(img, axis, 0, 0), img);
  }

  /** After the last row every pixel shows its mirror image. */
  lemma FlipPartEnd(img: Image, axis: Axis)
    ensures FlipPart(img, axis, img.size, 0) == Flip(img, axis)
  {
    var n := img.size;
    forall x: int, y: int | 0 <= x < n && 0 <= y < n
      ensures Pixel(FlipPart(img, axis, n, 0), x, y) == Pixel(Flip(img, axis), x, y)
    {
      FlipPartAt(img, axis, n, 0, x, y);
      if axis == Vertical {
        FlipVerticalAt(img, x, y);
      } else {
        FlipHorizontalAt(img, x, y);
      }
    }
    SameImage(FlipPart(img, axis, n, 0), Flip(img, axis));
  }

  /** The end of one row is the start of the next. */
  lemma FlipPartNextRow(img: Image, axis: Axis, row: nat)
    ensures FlipPart(img, axis, row, img.size) == FlipPart(img, axis, row + 1, 0)
  {
    var n := img.size;
    forall x: int, y: int | 0 <= x < n && 0 <= y < n
      ensures Pixel(FlipPart(img, axis, row, n), x, y) == Pixel(FlipPart(img, axis, row + 1, 0), x, y)
    {
      FlipPartAt(img, axis, row, n, x, y);
      FlipPartAt(img, axis, row + 1, 0, x, y);
    }
    SameImage(FlipPart(img, axis, row, n), FlipPart(img, axis, row + 1, 0));
  }

  /** Passing a pixel that is not swapped changes nothing. */
  lemma FlipPartSkip(img: Image, axis: Axis, row: nat, col: nat)
    requires row < img.size && col < img.size && !Leads(img.size, axis, col, row)
    ensures FlipPart(img, axis, row, col + 1) == FlipPart(img, axis, row, col)
  {
    var n := img.size;
    forall x: int, y: int | 0 <= x < n && 0 <= y < n
      ensures Pixel(FlipPart(img, axis, row, col + 1), x, y) == Pixel(FlipPart(img, axis, row, col), x, y)
    {
      FlipPartAt(img, axis, row, col + 1, x, y);
      FlipPartAt(img, axis, row, col, x, y);
    }
    SameImage(FlipPart(img, axis, row, col + 1), FlipPart(img, axis, row, col));
  }

  /** A leading pixel's mirror image is another pixel, inside the square, that does not
      lead; mirroring twice is the identity. */
  lemma MirrorFacts(n: nat, axis: Axis, col: nat, row: nat, x: int, y: int)
    requires col < n && row < n && Leads(n, axis, col, row)
    ensures 0 <= MirrorX(n, axis, col) < n && 0 <= MirrorY(n, axis, row) < n
    ensures !Leads(n, axis, MirrorX(n, axis, col), MirrorY(n, axis, row))
    ensures MirrorX(n, axis, col) != col || MirrorY(n, axis, row) != row
    ensures MirrorX(n, axis, MirrorX(n, axis, x)) == x && MirrorY(n, axis, MirrorY(n, axis, y)) == y
  {
  }

  /** The scan at `(col, row)` has done exactly what it had done before, plus that pixel. */
  lemma FlipDoneStep(n: nat, axis: Axis, row: nat, col: nat, x: int, y: int)
    requires Leads(n, axis, col, row)
    ensures FlipDone(n, axis, row, col + 1, x, y) == (FlipDone(n, axis, row, col, x, y) || (x == col && y == row))
    ensures !FlipDone(n, axis, row, col, col, row)
  {
  }

  /** After the swap the pixel the scan reached shows its mirror image... */
  lemma FlipPartSwapLead(img: Image, axis: Axis, row: nat, col: nat)
    requires row < img.size && col < img.size && Leads(img.size, axis, col, row)
    ensures var n := img.size;
      Pixel(FlipPart(img, axis, row, col + 1), col, row) ==
      Pixel(FlipPart(img, axis, row, col), MirrorX(n, axis, col), MirrorY(n, axis, row))
  {
    var n := img.size;
    var mx, my := MirrorX(n, axis, col), MirrorY(n, axis, row);
    MirrorFacts(n, axis, col, row, mx, my);
    FlipDoneStep(n, axis, row, col, mx, my);
    FlipPartAt(img, axis, row, col + 1, col, row);
    FlipPartAt(img, axis, row, col, mx, my);
  }

  /** ... and its mirror image shows the pixel the scan reached. */
  lemma FlipPartSwapMirror(img: Image, axis: Axis, row: nat, col: nat)
    requires row < img.size && col < img.size && Leads(img.size, axis, col, row)
    ensures var n := img.size;
      Pixel(FlipPart(img, axis, row, col + 1), MirrorX(n, axis, col), MirrorY(n, axis, row)) ==
      Pixel(FlipPart(img, axis, row, col), col, row)
  {
    var n := img.size;
    var mx, my := MirrorX(n, axis, col), MirrorY(n, axis, row);
    MirrorFacts(n, axis, col, row, col, row);
    FlipDoneStep(n, axis, row, col, mx, my);
    FlipDoneStep(n, axis, row, col, col, row);
    FlipPartAt(img, axis, row, col + 1, mx, my);
    FlipPartAt(img, axis, row, col, col, row);
  }

  /** Every other pixel is left as it was. */
  lemma FlipPartSwapOther(img: Image, axis: Axis, row: nat, col: nat, x: int, y: int)
    requires row < img.size && col < img.size && Leads(img.size, axis, col, row)
    requires 0 <= x < img.size && 0 <= y < img.size
    requires !(x == col && y == row)
    requires !(x == MirrorX(img.size, axis, col) && y == MirrorY(img.size, axis, row))
    ensures Pixel(FlipPart(img, axis, row, col + 1), x, y) == Pixel(FlipPart(img, axis, row, col), x, y)
  {
    var n := img.size;
    var px, py := MirrorX(n, axis, x), MirrorY(n, axis, y);
    MirrorFacts(n, axis, col, row, x, y);
    FlipDoneStep(n, axis, row, col, x, y);
    FlipDoneStep(n, axis, row, col, px, py);
    FlipPartAt(img, axis, row, col + 1, x, y);
    FlipPartAt(img, axis, row, col, x, y);
  }

  /** The pixel `(x, y)` after the swap at `(col, row)`. */
  lemma FlipPartSwapAt(img: Image, axis: Axis, row: nat, col: nat, x: int, y: int)
    requires Square(img) && row < img.size && col < img.size && Leads(img.size, axis, col, row)
    requires 0 <= x < img.size && 0 <= y < img.size
    ensures 0 <= MirrorX(img.size, axis, col) && 0 <= MirrorY(img.size, axis, row)
    ensures var n := img.size;
      Pixel(FlipPart(img, axis, row, col + 1), x, y) ==
        Pixel(Swapped(FlipPart(img, axis, row, col), col, row, MirrorX(n, axis, col) as nat, MirrorY(n, axis, row) as nat), x, y)
  {
    var n := img.size;
    MirrorFacts(n, axis, col, row, 0, 0);
    var mx, my := MirrorX(n, axis, col) as nat, MirrorY(n, axis, row) as nat;
    SwappedAt(FlipPart(img, axis, row, col), col, row, mx, my, x, y);
    if x == mx && y == my {
      FlipPartSwapMirror(img, axis, row, col);
    } else if x == col && y == row {
      FlipPartSwapLead(img, axis, row, col);
    } else {
      FlipPartSwapOther(img, axis, row, col, x, y);
    }
  }

  /** Swapping the pixel the scan has reached with its mirror image moves the scan on. */
  lemma FlipPartSwap(img: Image, axis: Axis, row: nat, col: nat)
    requires Square(img) && row < img.size && col < img.size && Leads(img.size, axis, col, row)
    ensures var n := img.size;
      MirrorX(n, axis, col) >= 0 && MirrorY(n, axis, row) >= 0 &&
      FlipPart(img, axis, row, col + 1) ==
        Swapped(FlipPart(img, axis, row, col), col, row, MirrorX(n, axis, col) as nat, MirrorY(n, axis, row) as nat)
  {
    var n := img.size;
    var mx, my := MirrorX(n, axis, col) as nat, MirrorY(n, axis, row) as nat;
    var next := FlipPart(img, axis, row, col + 1);
    var swapped := Swapped(FlipPart(img, axis, row, col), col, row, mx, my);
    forall x: int, y: int | 0 <= x < n && 0 <= y < n
      ensures Pixel(next, x, y) == Pixel(swapped, x, y)
    {
      FlipPartSwapAt(img, axis, row, col, x, y);
    }
    SwappedAt(FlipPart(img, axis, row, col), col, row, mx, my, 0, 0);
    SameImage(next, swapped);
  }

  // ---------------------------------------------------------------------------------------
  // The transpose in `rotate`

  /** The transpose loop, `i` outside and `j > i` inside, has swapped `(x, y)` with `(y, x)`
      before reaching `(i, j)`. */
  predicate TransposeDone(i: int, j: int, x: int, y: int)
  {
    x < y && Before(i, j, x, y)
  }

  /** The picture part way through the transpose. */
  ghost function TransposePart(img: Image, i: int, j: int): (r: Image)
    ensures r.size == img.size && Square(r)
  {
    Build(img.size, (x, y) =>
      if TransposeDone(i, j, x, y) || TransposeDone(i, j, y, x) then Pixel(img, y, x) else Pixel(img, x, y))
  }

  lemma TransposePartAt(img: Image, i: int, j: int, x: int, y: int)
    requires 0 <= x < img.size && 0 <= y < img.size
    ensures Pixel(TransposePart(img, i, j), x, y) ==
      if TransposeDone(i, j, x, y) || TransposeDone(i, j, y, x) then Pixel(img, y, x) else Pixel(img, x, y)
  {
    BuildAt(img.size, (x, y) =>
      if TransposeDone(i, j, x, y) || TransposeDone(i, j, y, x) then Pixel(img, y, x) else Pixel(img, x, y), x, y);
  }

  lemma TransposePartStart(img: Image)
    requires Square(img)
    ensures TransposePart(img, 0, 0) == img
  {
    forall x: int, y: int | 0 <= x < img.size && 0 <= y < img.size
      ensures Pixel(TransposePart(img, 0, 0), x, y) == Pixel(img, x, y)
    {
      TransposePartAt(img, 0, 0, x, y);
    }
    SameImage(TransposePart(img, 0, 0), img);
  }

  /** Column `i` holds nothing to swap at or above the diagonal. */
  lemma TransposePartDiagonal(img: Image, i: nat)
    ensures TransposePart(img, i, 0) == TransposePart(img, i, i + 1)
  {
    var n := img.size;
    forall x: int, y: int | 0 <= x < n && 0 <= y < n
      ensures Pixel(TransposePart(img, i, 0), x, y) == Pixel(TransposePart(img, i, i + 1), x, y)
    {
      TransposePartAt(img, i, 0, x, y);
      TransposePartAt(img, i, i + 1, x, y);
    }
    SameImage(TransposePart(img, i, 0), TransposePart(img, i, i + 1));
  }

  lemma TransposePartNext(img: Image, i: nat)
    ensures TransposePart(img, i, img.size) == TransposePart(img, i + 1, 0)
  {
    var n := img.size;
    forall x: int, y: int | 0 <= x < n && 0 <= y < n
      ensures Pixel(TransposePart(img, i, n), x, y) == Pixel(TransposePart(img, i + 1, 0), x, y)
    {
      TransposePartAt(img, i, n, x, y);
      TransposePartAt(img, i + 1, 0, x, y);
    }
    SameImage(TransposePart(img, i, n), TransposePart(img, i + 1, 0));
  }

  /** Once the columns before the last are done, every pair is swapped. */
  lemma TransposePartEnd(img: Image)
    requires img.size > 0
    ensures TransposePart(img, img.size - 1, 0) == Transpose(img)
  {
    var n := img.size;
    forall x: int, y: int | 0 <= x < n && 0 <= y < n
      ensures Pixel(TransposePart(img, n - 1, 0), x, y) == Pixel(Transpose(img), x, y)
    {
      TransposePartAt(img, n - 1, 0, x, y);
      TransposeAt(img, x, y);
    }
    SameImage(TransposePart(img, n - 1, 0), Transpose(img));
  }

  lemma TransposePartSwap(img: Image, i: nat, j: nat)
    requires Square(img) && i < j < img.size
    ensures TransposePart(img, i, j + 1) == Swapped(TransposePart(img, i, j), i, j, j, i)
  {
    var n := img.size;
    var cur := TransposePart(img, i, j);
    var next := Swapped(cur, i, j, j, i);
    forall x: int, y: int | 0 <= x < n && 0 <= y < n
      ensures Pixel(TransposePart(img, i, j + 1), x, y) == Pixel(next, x, y)
    {
      SwappedAt(cur, i, j, j, i, x, y);
      TransposePartAt(img, i, j + 1, x, y);
      TransposePartAt(img, i, j, x, y);
      TransposePartAt(img, i, j, i, j);
      TransposePartAt(img, i, j, j, i);
    }
    SwappedAt(cur, i, j, j, i, 0, 0);
    SameImage(TransposePart(img, i, j + 1), next);
  }

  // ---------------------------------------------------------------------------------------
  // `copy_from` and `extract_region`

  /** `copy_from`'s loops, columns outside and rows inside, have copied pixel `(a, b)` of
      the tile before reaching `(col, row)`. */
  ghost function PastePart(base: Image, tile: Image, off: Coord, col: int, row: int): (r: Image)
    ensures r.size == base.size && Square(r)
  {
    Build(base.size, (x, y) =>
      if off.x <= x < off.x + tile.size && off.y <= y < off.y + tile.size && Before(col, row, x - off.x, y - off.y)
      then Pixel(tile, x - off.x, y - off.y)
      else Pixel(base, x, y))
  }

  /** `base` with `tile` laid over it, its top left corner at `off`. */
  function Pasted(base: Image, tile: Image, off: Coord): (r: Image)
    ensures r.size == base.size && Square(r)
  {
    Build(base.size, (x, y) =>
      if off.x <= x < off.x + tile.size && off.y <= y < off.y + tile.size
      then Pixel(tile, x - off.x, y - off.y)
      else Pixel(base, x, y))
  }

  lemma PastePartAt(base: Image, tile: Image, off: Coord, col: int, row: int, x: int, y: int)
    requires 0 <= x < base.size && 0 <= y < base.size
    ensures Pixel(PastePart(base, tile, off, col, row), x, y) ==
      if off.x <= x < off.x + tile.size && off.y <= y < off.y + tile.size && Before(col, row, x - off.x, y - off.y)
      then Pixel(tile, x - off.x, y - off.y)
      else Pixel(base, x, y)
  {
    BuildAt(base.size, (x, y) =>
      if off.x <= x < off.x + tile.size && off.y <= y < off.y + tile.size && Before(col, row, x - off.x, y - off.y)
      then Pixel(tile, x - off.x, y - off.y)
      else Pixel(base, x, y), x, y);
  }

  /** `copy_from` writes pixel `(x, y)` of the tile to `(x, y) + off` and no other pixel. */
  lemma PastedAt(base: Image, tile: Image, off: Coord, x: int, y: int)
    requires 0 <= x < base.size && 0 <= y < base.size
    ensures Pixel(Pasted(base, tile, off), x, y) ==
      if off.x <= x < off.x + tile.size && off.y <= y < off.y + tile.size
      then Pixel(tile, x - off.x, y - off.y)
      else Pixel(base, x, y)
  {
    BuildAt(base.size, (x, y) =>
      if off.x <= x < off.x + tile.size && off.y <= y < off.y + tile.size
      then Pixel(tile, x - off.x, y - off.y)
      else Pixel(base, x, y), x, y);
  }

  lemma PastePartStart(base: Image, tile: Image, off: Coord)
    requires Square(base)
    ensures PastePart(base, tile, off, 0, 0) == base
  {
    forall x: int, y: int | 0 <= x < base.size && 0 <= y < base.size
      ensures Pixel(PastePart(base, tile, off, 0, 0), x, y) == Pixel(base, x, y)
    {
      PastePartAt(base, tile, off, 0, 0, x, y);
    }
    SameImage(PastePart(base, tile, off, 0, 0), base);
  }

  lemma PastePartNext(base: Image, tile: Image, off: Coord, col: nat)
    ensures PastePart(base, tile, off, col, tile.size) == PastePart(base, tile, off, col + 1, 0)
  {
    var n := base.size;
    forall x: int, y: int | 0 <= x < n && 0 <= y < n
      ensures Pixel(PastePart(base, tile, off, col, tile.size), x, y) == Pixel(PastePart(base, tile, off, col + 1, 0), x, y)
    {
      PastePartAt(base, tile, off, col, tile.size, x, y);
      PastePartAt(base, tile, off, col + 1, 0, x, y);
    }
    SameImage(PastePart(base, tile, off, col, tile.size), PastePart(base, tile, off, col + 1, 0));
  }

  lemma PastePartEnd(base: Image, tile: Image, off: Coord)
    ensures PastePart(base, tile, off, tile.size, 0) == Pasted(base, tile, off)
  {
    var n := base.size;
    forall x: int, y: int | 0 <= x < n && 0 <= y < n
      ensures Pixel(PastePart(base, tile, off, tile.size, 0), x, y) == Pixel(Pasted(base, tile, off), x, y)
    {
      PastePartAt(base, tile, off, tile.size, 0, x, y);
      PastedAt(base, tile, off, x, y);
    }
    SameImage(PastePart(base, tile, off, tile.size, 0), Pasted(base, tile, off));
  }

  lemma PastePartWrite(base: Image, tile: Image, off: Coord, col: nat, row: nat)
    requires col < tile.size && row < tile.size
    requires off.x + tile.size <= base.size && off.y + tile.size <= base.size
    ensures PastePart(base, tile, off, col, row + 1) ==
      Painted(PastePart(base, tile, off, col, row), col + off.x, row + off.y, Pixel(tile, col, row))
  {
    var n := base.size;
    var cur := PastePart(base, tile, off, col, row);
    var next := PastePart(base, tile, off, col, row + 1);
    var cx, cy, v := col + off.x, row + off.y, Pixel(tile, col, row);
    var written := Painted(cur, cx, cy, v);
    forall x: int, y: int | 0 <= x < n && 0 <= y < n
      ensures Pixel(next, x, y) == Pixel(written, x, y)
    {
      PaintedAt(cur, cx, cy, v, x, y);
      PastePartAt(base, tile, off, col, row + 1, x, y);
      PastePartAt(base, tile, off, col, row, x, y);
    }
    PaintedAt(cur, cx, cy, v, 0, 0);
    SameImage(next, written);
  }

  /** The `k` by `k` square of `img` whose top left corner is `start`. */
  function Region(img: Image, start: Coord, k: nat): (r: Image)
    ensures r.size == k && Square(r)
  {
    Build(k, (x, y) => Pixel(img, x + start.x, y + start.y))
  }

  lemma RegionAt(img: Image, start: Coord, k: nat, x: int, y: int)
    requires 0 <= x < k && 0 <= y < k
    ensures Pixel(Region(img, start, k), x, y) == Pixel(img, x + start.x, y + start.y)
  {
    BuildAt(k, (x, y) => Pixel(img, x + start.x, y + start.y), x, y);
  }

  /** `extract_region`'s loops, columns outside and rows inside, part way. */
  ghost function RegionPart(img: Image, start: Coord, k: nat, col: int, row: int): (r: Image)
    ensures r.size == k && Square(r)
  {
    Build(k, (x, y) => if Before(col, row, x, y) then Pixel(img, x + start.x, y + start.y) else false)
  }

  lemma RegionPartAt(img: Image, start: Coord, k: nat, col: int, row: int, x: int, y: int)
    requires 0 <= x < k && 0 <= y < k
    ensures Pixel(RegionPart(img, start, k, col, row), x, y) ==
      if Before(col, row, x, y) then Pixel(img, x + start.x, y + start.y) else false
  {
    BuildAt(k, (x, y) => if Before(col, row, x, y) then Pixel(img, x + start.x, y + start.y) else false, x, y);
  }

  lemma RegionPartStart(img: Image, start: Coord, k: nat)
    ensures RegionPart(img, start, k, 0, 0) == Blank(k)
  {
    forall x: int, y: int | 0 <= x < k && 0 <= y < k
      ensures Pixel(RegionPart(img, start, k, 0, 0), x, y) == Pixel(Blank(k), x, y)
    {
      RegionPartAt(img, start, k, 0, 0, x, y);
      BlankAt(k, x, y);
    }
    SameImage(RegionPart(img, start, k, 0, 0), Blank(k));
  }

  lemma RegionPartNext(img: Image, start: Coord, k: nat, col: nat)
    ensures RegionPart(img, start, k, col, k) == RegionPart(img, start, k, col + 1, 0)
  {
    forall x: int, y: int | 0 <= x < k && 0 <= y < k
      ensures Pixel(RegionPart(img, start, k, col, k), x, y) == Pixel(RegionPart(img, start, k, col + 1, 0), x, y)
    {
      RegionPartAt(img, start, k, col, k, x, y);
      RegionPartAt(img, start, k, col + 1, 0, x, y);
    }
    SameImage(RegionPart(img, start, k, col, k), RegionPart(img, start, k, col + 1, 0));
  }

  lemma RegionPartEnd(img: Image, start: Coord, k: nat)
    ensures RegionPart(img, start, k, k, 0) == Region(img, start, k)
  {
    forall x: int, y: int | 0 <= x < k && 0 <= y < k
      ensures Pixel(RegionPart(img, start, k, k, 0), x, y) == Pixel(Region(img, start, k), x, y)
    {
      RegionPartAt(img, start, k, k, 0, x, y);
      RegionAt(img, start, k, x, y);
    }
    SameImage(RegionPart(img, start, k, k, 0), Region(img, start, k));
  }

  lemma RegionPartWrite(img: Image, start: Coord, k: nat, col: nat, row: nat)
    requires col < k && row < k
    ensures RegionPart(img, start, k, col, row + 1) ==
      Painted(RegionPart(img, start, k, col, row), col, row, Pixel(img, col + start.x, row + start.y))
  {
    var cur := RegionPart(img, start, k, col, row);
    var v := Pixel(img, col + start.x, row + start.y);
    forall x: int, y: int | 0 <= x < k && 0 <= y < k
      ensures Pixel(RegionPart(img, start, k, col, row + 1), x, y) == Pixel(Painted(cur, col, row, v), x, y)
    {
      PaintedAt(cur, col, row, v, x, y);
      RegionPartAt(img, start, k, col, row + 1, x, y);
      RegionPartAt(img, start, k, col, row, x, y);
    }
    PaintedAt(cur, col, row, v, 0, 0);
    SameImage(RegionPart(img, start, k, col, row + 1), Painted(cur, col, row, v));
  }

  // ---------------------------------------------------------------------------------------
  // `split_into_sized`

  /** The `k` by `k` tiles of `img`, row after row of tiles. */
  function Tiles(img: Image, k: nat): (tiles: seq<Image>)
    requires k > 0
    ensures |tiles| == Area(img.size / k)
  {
    var m := img.size / k;
    seq(Area(m), j requires 0 <= j => Region(img, Coord(ColOf(j, m) * k, RowOf(j, m) * k), k))
  }

  /** Tile `(tx, ty)` is the square of side `k` at `(tx * k, ty * k)`. */
  lemma TilesAt(img: Image, k: nat, tx: nat, ty: nat)
    requires k > 0 && tx < img.size / k && ty < img.size / k
    ensures Idx(tx, ty, img.size / k) < Area(img.size / k)
    ensures Tiles(img, k)[Idx(tx, ty, img.size / k)] == Region(img, Coord(tx * k, ty * k), k)
  {
    var m := img.size / k;
    IdxBelow(tx, ty, m);
    var j := Idx(tx, ty, m);
    Decompose(j, m);
    IdxInjective(ColOf(j, m), RowOf(j, m), tx, ty, m);
  }

  /** A tile in column `t` of `m` tiles of side `k` ends within the picture. */
  lemma TileFits(t: nat, m: nat, k: nat)
    requires t < m
    ensures t * k + k <= m * k
  {
    assert (m - t - 1) * k >= 0;
    assert m * k - t * k - k == (m - t - 1) * k;
  }

  // ---------------------------------------------------------------------------------------
  // The buffer

  /** `PixBuf`: the side and the pixels of a square, row after row. */
  class PixBuf {
    const size: nat
    const pixels: array<bool>

    /** `pixels.len() == size * size`. */
    predicate Valid()
    {
      pixels.Length == Area(size)
    }

    /** The picture the buffer holds. */
    function View(): (img: Image)
      reads pixels
      ensures Valid() ==> Square(img)
    {
      Image(size, pixels[..])
    }

    /** `with_size`: a square of unset pixels. */
    constructor WithSize(n: nat)
      ensures Valid() && fresh(pixels) && View() == Blank(n)
    {
      size := n;
      pixels := new bool[Area(n)](k => false);
    }

    /** `clone`: a buffer of its own holding the same picture. */
    constructor Clone(other: PixBuf)
      requires other.Valid()
      ensures Valid() && fresh(pixels) && View() == other.View()
    {
      size := other.size;
      pixels := new bool[other.pixels.Length](k reads other.pixels => if 0 <= k < other.pixels.Length then other.pixels[k] else false);
    }

    /** `index_for_coord`: `y * size + x`. */
    function IndexForCoord(c: Coord): (i: nat)
      ensures i == c.y * size + c.x
    {
      IdxFormula(c.x, c.y, size);
      Idx(c.x, c.y, size)
    }

    /** `get_pixel`; the index must be inside the buffer. */
    function GetPixel(c: Coord): (v: bool)
      reads pixels
      requires IndexForCoord(c) < pixels.Length
      ensures Valid() && c.x < size ==> c.y < size && v == Pixel(View(), c.x, c.y)
    {
      if Valid() && c.x < size then
        RowInside(c.x, c.y, size);
        pixels[IndexForCoord(c)]
      else
        pixels[IndexForCoord(c)]
    }

    /** `set_pixel`; the index must be inside the buffer. */
    method SetPixel(c: Coord, value: bool)
      requires IndexForCoord(c) < pixels.Length
      modifies pixels
      ensures pixels[..] == old(pixels[..])[IndexForCoord(c) := value]
    {
      pixels[IndexForCoord(c)] := value;
    }

    /** `swap_pixels`; both indices must be inside the buffer. */
    method SwapPixels(c1: Coord, c2: Coord)
      requires IndexForCoord(c1) < pixels.Length && IndexForCoord(c2) < pixels.Length
      modifies pixels
      ensures var i, j := IndexForCoord(c1), IndexForCoord(c2);
        pixels[..] == old(pixels[..])[i := old(pixels[..])[j]][j := old(pixels[..])[i]]
    {
      var i, j := IndexForCoord(c1), IndexForCoord(c2);
      pixels[i], pixels[j] := pixels[j], pixels[i];
    }

    /** `flip`: every pixel in the leading half is swapped with its mirror image. */
    method Flip(axis: Axis)
      requires Valid()
      modifies pixels
      ensures View() == PixelGrid.Flip(old(View()), axis)
    {
      ghost var img := View();
      FlipPartStart(img, axis);
      var mid := size / 2;
      for y := 0 to size
        invariant View() == FlipPart(img, axis, y, 0)
      {
        for x := 0 to size
          invariant View() == FlipPart(img, axis, y, x)
        {
          var matches := match axis
            case Vertical => y < mid
            case Horizontal => x < mid;
          if !matches {
            FlipPartSkip(img, axis, y, x);
            continue;
          }
          var opposite := match axis
            case Vertical => Coord(x, size - y - 1)
            case Horizontal => Coord(size - x - 1, y);
          FlipStep(img, axis, y, x, opposite);
        }
        FlipPartNextRow(img, axis, y);
      }
      FlipPartEnd(img, axis);
    }

    /** One swap of `flip`. */
    method FlipStep(ghost img: Image, axis: Axis, y: nat, x: nat, opposite: Coord)
      requires Valid() && Square(img) && img.size == size
      requires y < size && x < size && Leads(size, axis, x, y)
      requires opposite == Coord(MirrorX(size, axis, x) as nat, MirrorY(size, axis, y) as nat)
      requires View() == FlipPart(img, axis, y, x)
      modifies pixels
      ensures View() == FlipPart(img, axis, y, x + 1)
    {
      FlipPartSwap(img, axis, y, x);
      IdxBelow(x, y, size);
      IdxBelow(opposite.x, opposite.y, size);
      SwapPixels(Coord(x, y), opposite);
    }

    /** `rotate`: the transpose, swapping each pixel above the diagonal with its partner
        below it, then a horizontal flip. A buffer of side 0 would make `size - 1` wrap. */
    method Rotate()
      requires Valid() && size > 0
      modifies pixels
      ensures View() == PixelGrid.Rotate(old(View()))
    {
      ghost var img := View();
      TransposePartStart(img);
      for i := 0 to size - 1
        invariant View() == TransposePart(img, i, 0)
      {
        TransposeColumn(img, i);
      }
      TransposePartEnd(img);
      Flip(Horizontal);
    }

    /** The inner loop of the transpose in `rotate`: column `i` below the diagonal. */
    method TransposeColumn(ghost img: Image, i: nat)
      requires Valid() && Square(img) && img.size == size && i < size
      requires View() == TransposePart(img, i, 0)
      modifies pixels
      ensures View() == TransposePart(img, i + 1, 0)
    {
      TransposePartDiagonal(img, i);
      for j := i + 1 to size
        invariant View() == TransposePart(img, i, j)
      {
        TransposeStep(img, i, j);
      }
      TransposePartNext(img, i);
    }

    /** One swap of the transpose in `rotate`. */
    method TransposeStep(ghost img: Image, i: nat, j: nat)
      requires Valid() && Square(img) && img.size == size && i < j < size
      requires View() == TransposePart(img, i, j)
      modifies pixels
      ensures View() == TransposePart(img, i, j + 1)
    {
      TransposePartSwap(img, i, j);
      IdxBelow(i, j, size);
      IdxBelow(j, i, size);
      SwapPixels(Coord(i, j), Coord(j, i));
    }

    /** `copy_from`: lays `other` over this buffer with its top left corner at `offset`.
        The tile must fit in both directions; otherwise the copy fails. */
    method CopyFrom(other: PixBuf, offset: Coord) returns (r: Result<()>)
      requires Valid() && other.Valid() && other.pixels != pixels
      modifies pixels
      ensures r.Ok? <==> FitsWithin(Coord(size, size), Add(Coord(other.size, other.size), offset))
      ensures r.Ok? ==> View() == Pasted(old(View()), other.View(), offset)
      ensures r.Err? ==> View() == old(View())
    {
      if !FitsWithin(Coord(size, size), Add(Coord(other.size, other.size), offset)) {
        return Err("assertion failed: the tile does not fit");
      }
      ghost var base := View();
      ghost var tile := other.View();
      PastePartStart(base, tile, offset);
      for x := 0 to other.size
        invariant View() == PastePart(base, tile, offset, x, 0)
      {
        for y := 0 to other.size
          invariant View() == PastePart(base, tile, offset, x, y)
        {
          PastePartWrite(base, tile, offset, x, y);
          IdxBelow(x + offset.x, y + offset.y, size);
          IdxBelow(x, y, other.size);
          SetPixel(Coord(x + offset.x, y + offset.y), other.GetPixel(Coord(x, y)));
        }
        PastePartNext(base, tile, offset, x);
      }
      PastePartEnd(base, tile, offset);
      r := Ok(());
    }

    /** `extract_region`: a new buffer holding the `k` by `k` square at `start`, which must
        lie inside this one. */
    method ExtractRegion(start: Coord, k: nat) returns (buf: PixBuf)
      requires Valid() && start.x + k <= size && start.y + k <= size
      ensures fresh(buf.pixels) && buf.Valid() && buf.size == k
      ensures buf.View() == Region(View(), start, k)
    {
      buf := new PixBuf.WithSize(k);
      RegionPartStart(View(), start, k);
      for x := 0 to k
        invariant fresh(buf.pixels) && buf.Valid() && buf.size == k
        invariant buf.View() == RegionPart(View(), start, k, x, 0)
      {
        for y := 0 to k
          invariant fresh(buf.pixels) && buf.Valid() && buf.size == k
          invariant buf.View() == RegionPart(View(), start, k, x, y)
        {
          RegionPartWrite(View(), start, k, x, y);
          IdxBelow(x, y, k);
          IdxBelow(x + start.x, y + start.y, size);
          var value := GetPixel(Add(Coord(x, y), start));
          buf.SetPixel(Coord(x, y), value);
        }
        RegionPartNext(View(), start, k, x);
      }
      RegionPartEnd(View(), start, k);
    }

    /** One step of `split_into_sized`: tile `(x, y)`, cut out with `extract_region`. */
    method ExtractTile(k: nat, x: nat, y: nat) returns (tile: Image)
      requires Valid() && k > 0 && size % k == 0 && x < size / k && y < size / k
      ensures Idx(x, y, size / k) < |Tiles(View(), k)|
      ensures tile == Tiles(View(), k)[Idx(x, y, size / k)]
    {
      var half := size / k;
      assert size == half * k;
      TileFits(x, half, k);
      TileFits(y, half, k);
      var start := Coord(x * k, y * k);
      var extracted := ExtractRegion(start, k);
      TilesAt(View(), k, x, y);
      tile := extracted.View();
    }

    /** `split_into_sized`: the tiles of side `k`, row after row of tiles. The side must be
        a multiple of `k`, and `k` must not be 0. */
    method SplitIntoSized(k: nat) returns (r: Result<seq<Image>>)
      requires Valid()
      ensures r.Ok? <==> k > 0 && size % k == 0
      ensures r.Ok? ==> r.value == Tiles(View(), k)
    {
      if k == 0 {
        return Err("attempt to calculate the remainder with a divisor of zero");
      }
      if size % k != 0 {
        return Err("assertion failed: the side is not a multiple of the tile size");
      }
      var half := size / k;
      assert size == half * k;
      ghost var all := Tiles(View(), k);
      var result: seq<Image> := [];
      for y := 0 to half
        invariant |result| <= |all| && |result| == Idx(0, y, half) && result == all[..|result|]
      {
        for x := 0 to half
          invariant |result| <= |all| && |result| == Idx(x, y, half) && result == all[..|result|]
        {
          var tile := ExtractTile(k, x, y);
          PrefixGrows(all, |result|);
          result := result + [tile];
          IdxShift(x, y, half);
          IdxShift(x + 1, y, half);
        }
        IdxShift(half, y, half);
      }
      assert |result| == |all|;
      r := Ok(result);
    }
  }

  /** One more element of a prefix. */
  lemma PrefixGrows<T>(s: seq<T>, i: nat)
    requires i < |s|
    ensures s[..i + 1] == s[..i] + [s[i]]
  {
  }

  /** The bound `copy_from` means to check: the tile's far corner within the buffer's, in
      both directions. */
  predicate FitsWithin(bound: Coord, corner: Coord)
  {
    corner.x <= bound.x && corner.y <= bound.y
  }

  /** With the bound checked in both directions, every pixel `copy_from` writes is inside
      the buffer. */
  lemma FitsWithinWrites(size: nat, tile: nat, off: Coord, x: nat, y: nat)
    requires FitsWithin(Coord(size, size), Add(Coord(tile, tile), off)) && x < tile && y < tile
    ensures Idx(x + off.x, y + off.y, size) < Area(size)
  {
    IdxBelow(x + off.x, y + off.y, size);
  }

  /** The bound as `copy_from` checks it: the derived lexicographic `>=` on coordinates. */
  predicate CopyGuardAsWritten(size: nat, tile: nat, off: Coord)
  {
    LexAtLeast(Coord(size, size), Add(Coord(tile, tile), off))
  }

  /** The check as written lets a 2 by 2 tile at `(1, 3)` into a 4 by 4 buffer: its second
      row would be row 4, past the end of the pixels. */
  lemma CopyGuardAdmitsOverflow()
    ensures CopyGuardAsWritten(4, 2, Coord(1, 3))
    ensures Idx(0 + 1, 1 + 3, 4) >= Area(4)
    ensures !FitsWithin(Coord(4, 4), Add(Coord(2, 2), Coord(1, 3)))
  {
  }

  /** The intended check is stronger than the one written. */
  lemma FitsWithinImpliesGuard(size: nat, tile: nat, off: Coord)
    requires FitsWithin(Coord(size, size), Add(Coord(tile, tile), off))
    ensures CopyGuardAsWritten(size, tile, off)
  {
    LexWeakerThanComponents(Coord(size, size), Add(Coord(tile, tile), off));
  }
}
