/** Square pixel pictures as values: the row-by-row layout of a `PixBuf`, its flips and
    rotation, and the eight symmetries of the square they generate. */
module PixelGrid {
  import Arith

  // ---------------------------------------------------------------------------------------
  // Row-by-row layout

  /** The flat index of pixel `(x, y)` when rows of `n` pixels are laid end to end.
      Counted row by row, so that proofs about it need no multiplication. */
  function Idx(x: nat, y: nat, n: nat): nat
    decreases y
  {
    if y == 0 then x else n + Idx(x, y - 1, n)
  }

  /** The number of pixels of an `n` by `n` picture. */
  function Area(n: nat): nat
  {
    Idx(0, n, n)
  }

  /** `index_for_coord`: pixel `(x, y)` sits at `y * n + x`. */
  lemma {:induction false} IdxFormula(x: nat, y: nat, n: nat)
    ensures Idx(x, y, n) == y * n + x
    decreases y
  {
    if y > 0 {
      IdxFormula(x, y - 1, n);
      assert y * n == (y - 1) * n + n;
    }
  }

  /** `with_size`: an `n` by `n` picture has `n * n` pixels. */
  lemma AreaFormula(n: nat)
    ensures Area(n) == n * n
  {
    IdxFormula(0, n, n);
  }

  /** The index of `(x, y)` is the start of row `y` plus `x`. */
  lemma {:induction false} IdxShift(x: nat, y: nat, n: nat)
    ensures Idx(x, y, n) == x + Idx(0, y, n)
    decreases y
  {
    if y > 0 {
      IdxShift(x, y - 1, n);
    }
  }

  /** A later row starts at least a whole row further on. */
  lemma {:induction false} RowsBelow(y1: nat, y2: nat, n: nat)
    requires y1 < y2
    ensures Idx(0, y1, n) + n <= Idx(0, y2, n)
    decreases y2
  {
    if y1 < y2 - 1 {
      RowsBelow(y1, y2 - 1, n);
    }
  }

  /** Every pixel of the picture has an index inside it. */
  lemma IdxBelow(x: nat, y: nat, n: nat)
    requires x < n && y < n
    ensures Idx(x, y, n) < Area(n)
  {
    IdxShift(x, y, n);
    RowsBelow(y, n, n);
  }

  /** Different pixels have different indices. */
  lemma IdxInjective(x1: nat, y1: nat, x2: nat, y2: nat, n: nat)
    requires x1 < n && x2 < n && Idx(x1, y1, n) == Idx(x2, y2, n)
    ensures x1 == x2 && y1 == y2
  {
    IdxShift(x1, y1, n);
    IdxShift(x2, y2, n);
    if y1 < y2 {
      RowsBelow(y1, y2, n);
    } else if y2 < y1 {
      RowsBelow(y2, y1, n);
    }
  }

  /** The column of flat index `k` in rows of `n`. */
  function ColOf(k: nat, n: nat): nat
    decreases k
  {
    if n == 0 || k < n then k else ColOf(k - n, n)
  }

  /** The row of flat index `k` in rows of `n`. */
  function RowOf(k: nat, n: nat): nat
    decreases k
  {
    if n == 0 || k < n then 0 else 1 + RowOf(k - n, n)
  }

  /** A flat index is the index of its column and row. */
  lemma {:induction false} Decompose(k: nat, n: nat)
    requires n > 0
    ensures ColOf(k, n) < n && Idx(ColOf(k, n), RowOf(k, n), n) == k
    decreases k
  {
    if k >= n {
      Decompose(k - n, n);
    }
  }

  /** Every index inside the picture is the index of one of its pixels. */
  lemma DecomposeBelow(k: nat, n: nat)
    requires k < Area(n)
    ensures n > 0 && ColOf(k, n) < n && RowOf(k, n) < n && Idx(ColOf(k, n), RowOf(k, n), n) == k
  {
    Decompose(k, n);
    var c, r := ColOf(k, n), RowOf(k, n);
    IdxShift(c, r, n);
    if r > n {
      RowsBelow(n, r, n);
    }
  }

  // ---------------------------------------------------------------------------------------
  // Pictures

  /** A `PixBuf` as a value: its side and its pixels, row after row. */
  datatype Image = Image(size: nat, pixels: seq<bool>)

  /** The pixels fill the square exactly. */
  predicate Square(img: Image)
  {
    |img.pixels| == Area(img.size)
  }

  /** Pixel `(x, y)`; anything outside the picture reads as unset. */
  function Pixel(img: Image, x: int, y: int): bool
  {
    if 0 <= x < img.size && 0 <= y < img.size && Idx(x, y, img.size) < |img.pixels|
    then img.pixels[Idx(x, y, img.size)]
    else false
  }

  /** The `n` by `n` picture whose pixel `(x, y)` is `f(x, y)`. */
  function Build(n: nat, f: (int, int) -> bool): (img: Image)
    ensures img.size == n && Square(img)
  {
    Image(n, seq(Area(n), k requires 0 <= k => f(ColOf(k, n), RowOf(k, n))))
  }

  lemma BuildAt(n: nat, f: (int, int) -> bool, x: int, y: int)
    requires 0 <= x < n && 0 <= y < n
    ensures Pixel(Build(n, f), x, y) == f(x, y)
  {
    IdxBelow(x, y, n);
    var k := Idx(x, y, n);
    Decompose(k, n);
    IdxInjective(ColOf(k, n), RowOf(k, n), x, y, n);
  }

  /** Two square pictures of one size that agree on every pixel are the same. */
  lemma SameImage(a: Image, b: Image)
    requires Square(a) && Square(b) && a.size == b.size
    requires forall x: int, y: int :: 0 <= x < a.size && 0 <= y < a.size ==> Pixel(a, x, y) == Pixel(b, x, y)
    ensures a == b
  {
    forall k | 0 <= k < |a.pixels|
      ensures a.pixels[k] == b.pixels[k]
    {
      DecomposeBelow(k, a.size);
      assert Pixel(a, ColOf(k, a.size), RowOf(k, a.size)) == Pixel(b, ColOf(k, a.size), RowOf(k, a.size));
    }
  }

  /** `with_size`: every pixel unset. */
  function Blank(n: nat): (img: Image)
    ensures img.size == n && Square(img)
  {
    Image(n, seq(Area(n), k => false))
  }

  lemma BlankAt(n: nat, x: int, y: int)
    ensures !Pixel(Blank(n), x, y)
  {
  }

  // ---------------------------------------------------------------------------------------
  // Flips and rotation

  /** The two axes of `flip`. */
  datatype Axis = Vertical | Horizontal

  /** `flip(VERTICAL)`: the rows in reverse order. */
  function FlipVertical(img: Image): (r: Image)
    ensures r.size == img.size && Square(r)
  {
    Build(img.size, (x, y) => Pixel(img, x, img.size - 1 - y))
  }

  /** `flip(HORIZONTAL)`: every row reversed. */
  function FlipHorizontal(img: Image): (r: Image)
    ensures r.size == img.size && Square(r)
  {
    Build(img.size, (x, y) => Pixel(img, img.size - 1 - x, y))
  }

  /** `flip` across either axis. */
  function Flip(img: Image, axis: Axis): (r: Image)
    ensures r.size == img.size && Square(r)
  {
    match axis
    case Vertical => FlipVertical(img)
    case Horizontal => FlipHorizontal(img)
  }

  /** The first half of `rotate`: rows become columns. */
  function Transpose(img: Image): (r: Image)
    ensures r.size == img.size && Square(r)
  {
    Build(img.size, (x, y) => Pixel(img, y, x))
  }

  /** `rotate`: the transpose, then a horizontal flip. */
  function Rotate(img: Image): (r: Image)
    ensures r.size == img.size && Square(r)
  {
    FlipHorizontal(Transpose(img))
  }

  lemma FlipVerticalAt(img: Image, x: int, y: int)
    requires 0 <= x < img.size && 0 <= y < img.size
    ensures Pixel(FlipVertical(img), x, y) == Pixel(img, x, img.size - 1 - y)
  {
    BuildAt(img.size, (x, y) => Pixel(img, x, img.size - 1 - y), x, y);
  }

  lemma FlipHorizontalAt(img: Image, x: int, y: int)
    requires 0 <= x < img.size && 0 <= y < img.size
    ensures Pixel(FlipHorizontal(img), x, y) == Pixel(img, img.size - 1 - x, y)
  {
    BuildAt(img.size, (x, y) => Pixel(img, img.size - 1 - x, y), x, y);
  }

  lemma TransposeAt(img: Image, x: int, y: int)
    requires 0 <= x < img.size && 0 <= y < img.size
    ensures Pixel(Transpose(img), x, y) == Pixel(img, y, x)
  {
    BuildAt(img.size, (x, y) => Pixel(img, y, x), x, y);
  }

  /** `rotate` turns the picture a quarter: pixel `(x, y)` comes from `(y, n - 1 - x)`. */
  lemma RotateAt(img: Image, x: int, y: int)
    requires 0 <= x < img.size && 0 <= y < img.size
    ensures Pixel(Rotate(img), x, y) == Pixel(img, y, img.size - 1 - x)
  {
    FlipHorizontalAt(Transpose(img), x, y);
    TransposeAt(img, img.size - 1 - x, y);
  }

  /** Flipping twice across the same axis gives the picture back. */
  lemma FlipTwice(img: Image, axis: Axis)
    requires Square(img)
    ensures Flip(Flip(img, axis), axis) == img
  {
    var n := img.size;
    forall x: int, y: int | 0 <= x < n && 0 <= y < n
      ensures Pixel(Flip(Flip(img, axis), axis), x, y) == Pixel(img, x, y)
    {
      if axis == Vertical {
        FlipVerticalAt(FlipVertical(img), x, y);
        FlipVerticalAt(img, x, n - 1 - y);
      } else {
        FlipHorizontalAt(FlipHorizontal(img), x, y);
        FlipHorizontalAt(img, n - 1 - x, y);
      }
    }
    SameImage(Flip(Flip(img, axis), axis), img);
  }

  /** `rotate` applied `t` times. */
  function Rotations(t: nat, img: Image): (r: Image)
    ensures r.size == img.size
    ensures t > 0 ==> Square(r)
  {
    if t == 0 then img else Rotate(Rotations(t - 1, img))
  }

  /** Two quarter turns: pixel `(x, y)` comes from `(n - 1 - x, n - 1 - y)`. */
  lemma HalfTurnAt(img: Image, x: int, y: int)
    requires 0 <= x < img.size && 0 <= y < img.size
    ensures Pixel(Rotate(Rotate(img)), x, y) == Pixel(img, img.size - 1 - x, img.size - 1 - y)
  {
    RotateAt(Rotate(img), x, y);
    RotateAt(img, y, img.size - 1 - x);
  }

  /** Four quarter turns: every pixel back in place. */
  lemma FullTurnAt(img: Image, x: int, y: int)
    requires 0 <= x < img.size && 0 <= y < img.size
    ensures Pixel(Rotate(Rotate(Rotate(Rotate(img)))), x, y) == Pixel(img, x, y)
  {
    var n := img.size;
    HalfTurnAt(Rotate(Rotate(img)), x, y);
    HalfTurnAt(img, n - 1 - x, n - 1 - y);
  }

  lemma RotationsTwo(img: Image)
    ensures Rotations(2, img) == Rotate(Rotate(img))
  {
    assert Rotations(1, img) == Rotate(img);
  }

  lemma RotationsThree(img: Image)
    ensures Rotations(3, img) == Rotate(Rotate(Rotate(img)))
  {
    RotationsTwo(img);
  }

  lemma RotationsFour(img: Image)
    ensures Rotations(4, img) == Rotate(Rotate(Rotate(Rotate(img))))
  {
    RotationsThree(img);
  }

  /** Four rotations return the original picture. */
  lemma RotateFour(img: Image)
    requires Square(img)
    ensures Rotations(4, img) == img
  {
    var r := Rotate(Rotate(Rotate(Rotate(img))));
    forall x: int, y: int | 0 <= x < img.size && 0 <= y < img.size
      ensures Pixel(r, x, y) == Pixel(img, x, y)
    {
      FullTurnAt(img, x, y);
    }
    SameImage(r, img);
    RotationsFour(img);
  }

  /** Turning `a` times after turning `b` times is turning `a + b` times. */
  lemma {:induction false} RotationsAdd(a: nat, b: nat, img: Image)
    ensures Rotations(a, Rotations(b, img)) == Rotations(a + b, img)
  {
    if a > 0 {
      RotationsAdd(a - 1, b, img);
    }
  }

  /** Four more turns change nothing. */
  lemma RotationsPlusFour(t: nat, img: Image)
    requires Square(img)
    ensures Rotations(t + 4, img) == Rotations(t, img)
  {
    RotationsAdd(4, t, img);
    var r := Rotations(t, img);
    assert Square(r) by {
      if t == 0 {
        assert r == img;
      }
    }
    RotateFour(r);
  }

  /** Only the number of turns modulo four matters. */
  lemma {:induction false} RotationsMod(t: nat, img: Image)
    requires Square(img)
    ensures Rotations(t, img) == Rotations(t % 4, img)
    decreases t
  {
    if t >= 4 {
      RotationsMod(t - 4, img);
      RotationsPlusFour(t - 4, img);
      Arith.ModSub(t, 4);
      var r := t % 4;
      assert Rotations(t, img) == Rotations(r, img);
    }
  }

  /** A vertical flip is a half turn followed by a horizontal flip. */
  lemma VerticalIsMirroredHalfTurn(img: Image)
    requires Square(img)
    ensures FlipVertical(img) == FlipHorizontal(Rotations(2, img))
  {
    VerticalIsMirroredHalfTurnRotate(img);
    RotationsTwo(img);
  }

  lemma VerticalIsMirroredHalfTurnRotate(img: Image)
    requires Square(img)
    ensures FlipVertical(img) == FlipHorizontal(Rotate(Rotate(img)))
  {
    var n := img.size;
    var h := Rotate(Rotate(img));
    forall x: int, y: int | 0 <= x < n && 0 <= y < n
      ensures Pixel(FlipVertical(img), x, y) == Pixel(FlipHorizontal(h), x, y)
    {
      FlipVerticalAt(img, x, y);
      FlipHorizontalAt(h, x, y);
      HalfTurnAt(img, n - 1 - x, y);
    }
    SameImage(FlipVertical(img), FlipHorizontal(h));
  }

  /** A vertical flip after a horizontal one is a half turn. */
  lemma BothFlipsAreHalfTurn(img: Image)
    requires Square(img)
    ensures FlipVertical(FlipHorizontal(img)) == Rotations(2, img)
  {
    BothFlipsAreHalfTurnRotate(img);
    RotationsTwo(img);
  }

  lemma BothFlipsAreHalfTurnRotate(img: Image)
    requires Square(img)
    ensures FlipVertical(FlipHorizontal(img)) == Rotate(Rotate(img))
  {
    var n := img.size;
    var h := Rotate(Rotate(img));
    forall x: int, y: int | 0 <= x < n && 0 <= y < n
      ensures Pixel(FlipVertical(FlipHorizontal(img)), x, y) == Pixel(h, x, y)
    {
      FlipVerticalAt(FlipHorizontal(img), x, y);
      FlipHorizontalAt(img, x, n - 1 - y);
      HalfTurnAt(img, x, y);
    }
    SameImage(FlipVertical(FlipHorizontal(img)), h);
  }

  /** Turning a mirrored picture is mirroring the picture turned three times. */
  lemma RotateMirror(img: Image)
    requires Square(img)
    ensures Rotate(FlipHorizontal(img)) == FlipHorizontal(Rotations(3, img))
  {
    var n := img.size;
    var h := Rotate(Rotate(img));
    var t := Rotate(h);
    forall x: int, y: int | 0 <= x < n && 0 <= y < n
      ensures Pixel(Rotate(FlipHorizontal(img)), x, y) == Pixel(FlipHorizontal(t), x, y)
    {
      RotateMirrorAt(img, x, y);
    }
    SameImage(Rotate(FlipHorizontal(img)), FlipHorizontal(t));
    RotationsThree(img);
  }

  lemma RotateMirrorAt(img: Image, x: int, y: int)
    requires 0 <= x < img.size && 0 <= y < img.size
    ensures Pixel(Rotate(FlipHorizontal(img)), x, y) == Pixel(FlipHorizontal(Rotate(Rotate(Rotate(img)))), x, y)
  {
    var n := img.size;
    RotateAt(FlipHorizontal(img), x, y);
    FlipHorizontalAt(img, y, n - 1 - x);
    FlipHorizontalAt(Rotate(Rotate(Rotate(img))), x, y);
    RotateAt(Rotate(Rotate(img)), n - 1 - x, y);
    HalfTurnAt(img, y, x);
  }

  /** Turning `t` times moves a mirror to the other side as `3 t` turns. */
  lemma {:induction false} RotationsMirror(t: nat, img: Image)
    requires Square(img)
    ensures Rotations(t, FlipHorizontal(img)) == FlipHorizontal(Rotations(3 * t, img))
  {
    if t > 0 {
      RotationsMirror(t - 1, img);
      var inner := Rotations(3 * (t - 1), img);
      if t == 1 {
        RotateMirror(img);
      } else {
        RotateMirror(inner);
      }
      RotationsAdd(3, 3 * (t - 1), img);
    }
  }

  // ---------------------------------------------------------------------------------------
  // The eight symmetries of the square

  /** A number of quarter turns, optionally followed by a horizontal flip. */
  datatype Symmetry = Symmetry(turns: nat, mirrored: bool)

  function Transform(s: Symmetry, img: Image): Image
  {
    if s.mirrored then FlipHorizontal(Rotations(s.turns, img)) else Rotations(s.turns, img)
  }

  /** One operation a picture can undergo. */
  datatype Op = Turn | FlipAcross(axis: Axis)

  function Step(op: Op, img: Image): Image
  {
    match op
    case Turn => Rotate(img)
    case FlipAcross(axis) => Flip(img, axis)
  }

  /** The operations applied in order. */
  function Apply(ops: seq<Op>, img: Image): Image
  {
    if ops == [] then img else Step(ops[|ops| - 1], Apply(ops[..|ops| - 1], img))
  }

  /** The symmetry reached by one more operation. */
  function Then(s: Symmetry, op: Op): Symmetry
  {
    match op
    case Turn => if s.mirrored then Symmetry(s.turns + 3, true) else Symmetry(s.turns + 1, false)
    case FlipAcross(Horizontal) => Symmetry(s.turns, !s.mirrored)
    case FlipAcross(Vertical) => Symmetry(s.turns + 2, !s.mirrored)
  }

  /** A turn or a horizontal flip after a symmetry is again a symmetry. */
  lemma TurnOrMirrorThen(s: Symmetry, img: Image, op: Op)
    requires Square(img) && (op == Turn || op == FlipAcross(Horizontal))
    ensures Step(op, Transform(s, img)) == Transform(Then(s, op), img)
  {
    var r := Rotations(s.turns, img);
    if s.turns > 0 {
      assert Square(r);
    }
    if op == Turn && s.mirrored {
      RotateMirror(r);
      RotationsAdd(3, s.turns, img);
    } else if op != Turn && s.mirrored {
      FlipTwice(r, Horizontal);
    }
  }

  /** Every operation after a symmetry is again a symmetry. */
  lemma StepThen(s: Symmetry, img: Image, op: Op)
    requires Square(img)
    ensures Step(op, Transform(s, img)) == Transform(Then(s, op), img)
  {
    if op == FlipAcross(Vertical) {
      var t := Transform(s, img);
      assert Square(t) by {
        if s.turns > 0 || s.mirrored {
        } else {
          assert t == img;
        }
      }
      VerticalIsMirroredHalfTurnRotate(t);
      TurnOrMirrorThen(s, img, Turn);
      var s1 := Then(s, Turn);
      TurnOrMirrorThen(s1, img, Turn);
      var s2 := Then(s1, Turn);
      TurnOrMirrorThen(s2, img, FlipAcross(Horizontal));
      var s3 := Then(s2, FlipAcross(Horizontal));
      SymmetryTurnsMod(s3, Then(s, op), img);
    } else {
      assert op == Turn || op == FlipAcross(Horizontal) by {
        if op.FlipAcross? {
          assert op.axis != Vertical;
        }
      }
      TurnOrMirrorThen(s, img, op);
    }
  }

  /** Symmetries whose turns agree modulo four act alike. */
  lemma SymmetryTurnsMod(s: Symmetry, s': Symmetry, img: Image)
    requires Square(img) && s.mirrored == s'.mirrored && s.turns % 4 == s'.turns % 4
    ensures Transform(s, img) == Transform(s', img)
  {
    RotationsMod(s.turns, img);
    RotationsMod(s'.turns, img);
  }

  /** Any sequence of turns and flips is one of the eight symmetries. */
  lemma {:induction false} ApplyIsSymmetry(ops: seq<Op>, img: Image)
    requires Square(img)
    ensures Apply(ops, img) == Transform(Compose(ops), img)
  {
    if ops != [] {
      ApplyIsSymmetry(ops[..|ops| - 1], img);
      StepThen(Compose(ops[..|ops| - 1]), img, ops[|ops| - 1]);
    }
  }

  /** The symmetry of a sequence of operations. */
  function Compose(ops: seq<Op>): Symmetry
  {
    if ops == [] then Symmetry(0, false) else Then(Compose(ops[..|ops| - 1]), ops[|ops| - 1])
  }

  /** Every symmetry can be undone by a symmetry. */
  function Inverse(s: Symmetry): Symmetry
  {
    if s.mirrored then s else Symmetry(3 * s.turns, false)
  }

  lemma InverseUndoes(s: Symmetry, img: Image)
    requires Square(img)
    ensures Transform(Inverse(s), Transform(s, img)) == img
  {
    var r := Rotations(s.turns, img);
    RotationsAdd(3 * s.turns, s.turns, img);
    RotationsMod(4 * s.turns, img);
    if s.mirrored {
      if s.turns > 0 {
        assert Square(r);
      }
      RotationsMirror(s.turns, r);
      FlipTwice(Rotations(3 * s.turns, r), Horizontal);
      RotationsAdd(3 * s.turns, s.turns, img);
    }
  }
}
