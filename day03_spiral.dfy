/** The Ulam spiral: cells numbered outward from the origin counter-clockwise, a store of
    values per cell, a walker that produces the cells in spiral order by turning left whenever
    it can, the distance of a numbered cell from the origin, and the running neighbour sums
    written along the spiral. */
module UlamSpiral {
  import opened Common
  import opened Arith

  /** An `(x, y)` cell; `x` grows to the right and `y` upward. */
  type Cell = (int, int)

  /** `d` is one of the eight cells around `c`: a different cell at most one step away
      in each direction. */
  predicate Touching(c: Cell, d: Cell)
  {
    d != c && Abs(d.0 - c.0) <= 1 && Abs(d.1 - c.1) <= 1
  }

  /** `neighbors`: the eight cells around `c`, column by column from the left, each column
      from the bottom up, leaving out `c` itself. */
  function Neighbors(c: Cell): (r: seq<Cell>)
    ensures |r| == 8
    ensures forall d :: d in r <==> Touching(c, d)
  {
    var (x, y) := c;
    [(x - 1, y - 1), (x - 1, y), (x - 1, y + 1), (x, y - 1),
     (x, y + 1), (x + 1, y - 1), (x + 1, y), (x + 1, y + 1)]
  }

  /** No cell is listed twice among the neighbours. */
  lemma NeighborsDistinct(c: Cell, i: nat, j: nat)
    requires i < j < 8
    ensures Neighbors(c)[i] != Neighbors(c)[j]
  {
  }

  /** The value stored at `c`, if any (`HashMap::get`). */
  function Lookup<T>(m: map<Cell, T>, c: Cell): (r: Option<T>)
    ensures r.Some? <==> c in m
    ensures r.Some? ==> r.value == m[c]
  {
    if c in m then Some(m[c]) else None
  }

  /** `Ulam`: values stored at some of the cells of the plane. */
  class Ulam<T> {
    var explored: map<Cell, T>

    /** `Ulam::new`: nothing stored yet. */
    constructor ()
      ensures explored == map[]
    {
      explored := map[];
    }

    /** `set`: stores `v` at `c`, replacing what was there; every other cell keeps its value. */
    method Set(c: Cell, v: T)
      modifies this
      ensures explored == old(explored)[c := v]
      ensures Get(c) == Some(v)
    {
      explored := explored[c := v];
    }

    /** `get`: the value stored at `c`, if any. */
    function Get(c: Cell): (r: Option<T>)
      reads this
    {
      Lookup(explored, c)
    }

    /** `neighbors_values`: what is stored at each of the eight neighbours of `c`, in the
        order `Neighbors` lists them. */
    function NeighborsValues(c: Cell): (r: seq<Option<T>>)
      reads this
      ensures |r| == 8
      ensures forall k :: 0 <= k < 8 ==> r[k] == Get(Neighbors(c)[k])
    {
      var around := Neighbors(c);
      seq(8, k requires 0 <= k < 8 reads this => Get(around[k]))
    }
  }

  // ---------------------------------------------------------------------------------------
  // Walking the spiral

  /** A direction of travel. */
  datatype Heading = Up | Down | Left | Right

  /** The step one cell in a direction. */
  function Delta(d: Heading): (v: (int, int))
    ensures Abs(v.0) + Abs(v.1) == 1
  {
    match d
    case Up => (0, 1)
    case Down => (0, -1)
    case Left => (-1, 0)
    case Right => (1, 0)
  }

  /** `preferred_next_direction`: the direction a quarter turn to the left. */
  function PreferredNext(d: Heading): (e: Heading)
    ensures Delta(e) == (-Delta(d).1, Delta(d).0)
  {
    match d
    case Up => Left
    case Left => Down
    case Down => Right
    case Right => Up
  }

  /** Four left turns face the way one started, and no fewer do. */
  lemma TurnsCycle(d: Heading)
    ensures PreferredNext(PreferredNext(PreferredNext(PreferredNext(d)))) == d
    ensures PreferredNext(d) != d && PreferredNext(PreferredNext(d)) != d
    ensures PreferredNext(PreferredNext(PreferredNext(d))) != d
  {
  }

  /** The cell one step from `c` in direction `d`. */
  function Move(c: Cell, d: Heading): Cell
  {
    (c.0 + Delta(d).0, c.1 + Delta(d).1)
  }

  /** A walker's state (`UlamIterator`): the cells visited so far, the cell reached, if any,
      and the direction of the last move, if any. */
  datatype Walk = Walk(visited: map<Cell, bool>, current: Option<Cell>, direction: Option<Heading>)

  /** The states a walker can be in: before the first cell nothing is visited and there is no
      direction; the cell reached has been visited; and the only state with a cell but no
      direction is the one that has visited the origin alone. */
  predicate WalkOk(w: Walk)
  {
    && (w.current.None? ==> w.direction.None? && w.visited == map[])
    && (w.current.Some? ==> w.current.value in w.visited)
    && (w.current.Some? && w.direction.None? ==>
          w.current.value == (0, 0) && w.visited == map[(0, 0) := true])
  }

  /** The walker before its first step. */
  function Start(): (w: Walk)
    ensures WalkOk(w)
  {
    Walk(map[], None, None)
  }

  /** `UlamIterator::next`: the first cell is the origin; after it the walker turns left when
      the cell there has not been visited (moving right when it has no direction yet) and
      otherwise goes on in its direction. The next cell is always there, it is one step from
      the last (`AdvanceSteps`), and the walker never needs a direction it does not have. */
  function Advance(w: Walk): (n: Walk)
    requires WalkOk(w)
    ensures WalkOk(n) && n.current.Some?
    ensures n.visited == w.visited[n.current.value := true]
  {
    match w.current
    case None =>
      Walk(w.visited[(0, 0) := true], Some((0, 0)), w.direction)
    case Some(c) =>
      var preferred := if w.direction.Some? then PreferredNext(w.direction.value) else Right;
      var check := Move(c, preferred);
      if check in w.visited then
        var next := Move(c, w.direction.value);
        Walk(w.visited[next := true], Some(next), w.direction)
      else
        Walk(w.visited[check := true], Some(check), Some(preferred))
  }

  /** Each step after the first moves the walker to a cell one unit away. */
  lemma AdvanceSteps(w: Walk)
    requires WalkOk(w) && w.current.Some?
    ensures var n := Advance(w).current.value;
            Abs(n.0 - w.current.value.0) + Abs(n.1 - w.current.value.1) == 1
  {
  }

  /** The walker after `n` steps. */
  function Walked(n: nat): (w: Walk)
    ensures WalkOk(w)
    ensures n > 0 ==> w.current.Some?
  {
    if n == 0 then Start() else Advance(Walked(n - 1))
  }

  /** Each step of the walk is one `Advance`. */
  lemma WalkedNext(i: nat, m: nat)
    requires m == i + 1
    ensures Walked(m) == Advance(Walked(i))
  {
  }

  /** The cell the walker yields at step `i` (counting from 0); it is numbered `i + 1` on
      the spiral. */
  function CellAt(i: nat): Cell
  {
    Walked(i + 1).current.value
  }

  /** `UlamIterator`: an iterator over the spiral that owns the `Ulam` recording where it
      has been. */
  class UlamIterator {
    const ulam: Ulam<bool>
    var current: Option<Cell>
    var direction: Option<Heading>

    /** The iterator's state as a value. */
    function State(): Walk
      reads this, ulam
    {
      Walk(ulam.explored, current, direction)
    }

    predicate Valid()
      reads this, ulam
    {
      WalkOk(State())
    }

    /** `UlamIterator::new`: a walker before its first step. */
    constructor ()
      ensures Valid() && State() == Start()
      ensures fresh(ulam)
    {
      ulam := new Ulam<bool>();
      current := None;
      direction := None;
    }

    /** `next`: moves the walker one cell along the spiral and yields that cell; it never
        yields `None`. */
    method Next() returns (r: Option<Cell>)
      requires Valid()
      modifies this, ulam
      ensures Valid() && State() == Advance(old(State()))
      ensures r.Some? && r == current
    {
      match current {
        case None =>
          var newCell := (0, 0);
          current := Some(newCell);
          ulam.Set(newCell, true);
          r := Some(newCell);
        case Some(c) =>
          var preferred := if direction.Some? then PreferredNext(direction.value) else Right;
          var checkCell := Move(c, preferred);
          var seen := ulam.Get(checkCell);
          if seen.Some? {
            var nextCell := Move(c, direction.value);
            current := Some(nextCell);
            ulam.Set(nextCell, true);
            r := Some(nextCell);
          } else {
            current := Some(checkCell);
            ulam.Set(checkCell, true);
            direction := Some(preferred);
            r := Some(checkCell);
          }
      }
    }
  }

  /** The walker has visited exactly the cells it has yielded. */
  lemma {:induction false} WalkedVisits(n: nat, c: Cell)
    ensures c in Walked(n).visited <==> exists i :: 0 <= i < n && CellAt(i) == c
  {
    if n > 0 {
      var p := n - 1;
      WalkedVisits(p, c);
      LastVisit(p, n);
      if c in Walked(p).visited {
        var i :| 0 <= i < p && CellAt(i) == c;
        assert 0 <= i < n && CellAt(i) == c;
      }
      if exists i :: 0 <= i < n && CellAt(i) == c {
        var i :| 0 <= i < n && CellAt(i) == c;
        if i < p {
          assert c in Walked(p).visited;
        } else {
          assert i == p;
        }
      }
    }
  }

  /** The cell yielded at step `i` is where the walker stands after `i + 1` steps. */
  lemma YieldedAt(i: nat, n: nat)
    requires n == i + 1
    ensures CellAt(i) == Walked(n).current.value
  {
  }

  /** Step `i` adds its cell to what was visited before. */
  lemma LastVisit(i: nat, n: nat)
    requires n == i + 1
    ensures Walked(n).visited == Walked(i).visited[CellAt(i) := true]
  {
  }

  // ---------------------------------------------------------------------------------------
  // The spiral in closed form

  /** The square ring a cell lies on: ring 0 is the origin, ring `r` the cells `r` away from
      it in the farther direction. */
  function Ring(c: Cell): nat
  {
    if Abs(c.0) >= Abs(c.1) then Abs(c.0) else Abs(c.1)
  }

  /** The cell `t` places along ring `r >= 1`, which the spiral enters at `(r, 1 - r)` and
      walks up the right side, left along the top, down the left side and right along the
      bottom, `2r` cells each. */
  function SpiralPos(r: int, t: int): Cell
    requires 1 <= r && 0 <= t < 8 * r
  {
    if t < 2 * r then (r, t - r + 1)
    else if t < 4 * r then (3 * r - 1 - t, r)
    else if t < 6 * r then (-r, 5 * r - 1 - t)
    else (t - 7 * r + 1, -r)
  }

  /** How far along ring `r` the cell `c` of that ring lies. */
  function RingIndex(r: int, c: Cell): int
    requires 1 <= r && Ring(c) == r
  {
    var (x, y) := c;
    if x == r && y > -r then y + r - 1
    else if y == r then 3 * r - 1 - x
    else if x == -r then 5 * r - 1 - y
    else x + 7 * r - 1
  }

  /** `SpiralPos` lands on the ring it is asked for, at the place it is asked for. */
  lemma PosIndex(r: nat, t: nat)
    requires 1 <= r && t < 8 * r
    ensures Ring(SpiralPos(r, t)) == r && RingIndex(r, SpiralPos(r, t)) == t
  {
  }

  /** Every cell of ring `r` is `SpiralPos` of its place along the ring. */
  lemma IndexPos(r: nat, c: Cell)
    requires 1 <= r && Ring(c) == r
    ensures 0 <= RingIndex(r, c) < 8 * r && SpiralPos(r, RingIndex(r, c)) == c
  {
  }

  /** The direction of the move that reached place `t` of ring `r`. */
  function HeadingAt(r: nat, t: nat): Heading
  {
    if t == 0 then Right
    else if t < 2 * r then Up
    else if t < 4 * r then Left
    else if t < 6 * r then Down
    else Right
  }

  /** The cells visited once the walker stands at place `t` of ring `r`: every inner ring and
      ring `r` up to place `t`. */
  predicate Seen(r: nat, t: nat, c: Cell)
    requires 1 <= r
  {
    Ring(c) < r || (Ring(c) == r && RingIndex(r, c) <= t)
  }

  /** The record of visited cells a walker keeps on reaching place `t` of ring `r`: the
      origin, then every place up to that one, ring by ring. */
  function SpiralVisited(r: nat, t: nat): map<Cell, bool>
    requires 1 <= r && t < 8 * r
    decreases r, t
  {
    var before :=
      if t > 0 then SpiralVisited(r, t - 1)
      else if r == 1 then map[(0, 0) := true]
      else SpiralVisited(r - 1, 8 * (r - 1) - 1);
    before[SpiralPos(r, t) := true]
  }

  /** The walker's state at place `t` of ring `r`, having come there in the spiral's
      direction. */
  function SpiralWalk(r: nat, t: nat): (w: Walk)
    requires 1 <= r && t < 8 * r
    ensures WalkOk(w)
  {
    Walk(SpiralVisited(r, t), Some(SpiralPos(r, t)), Some(HeadingAt(r, t)))
  }

  /** The record holds exactly the cells seen: the inner rings and ring `r` up to place `t`. */
  lemma {:induction false} SpiralVisitedSeen(r: nat, t: nat, c: Cell)
    requires 1 <= r && t < 8 * r
    ensures c in SpiralVisited(r, t) <==> Seen(r, t, c)
    decreases r, t, 1
  {
    if t > 0 {
      SeenAlongRing(r, t, c);
    } else if r > 1 {
      SeenNextRing(r, c);
    } else {
      PosIndex(1, 0);
      if Ring(c) == 1 {
        IndexPos(1, c);
      }
    }
  }

  /** One place further along a ring, one more cell is seen. */
  lemma {:induction false} SeenAlongRing(r: nat, t: nat, c: Cell)
    requires 1 <= r && 1 <= t < 8 * r
    ensures c in SpiralVisited(r, t) <==> Seen(r, t, c)
    decreases r, t, 0
  {
    SpiralVisitedSeen(r, t - 1, c);
    PosIndex(r, t);
    if Ring(c) == r {
      IndexPos(r, c);
    }
  }

  /** Entering a ring, the inner rings are all seen, and so is the first place of the ring. */
  lemma {:induction false} SeenNextRing(r: nat, c: Cell)
    requires 2 <= r
    ensures c in SpiralVisited(r, 0) <==> Seen(r, 0, c)
    decreases r, 0, 0
  {
    SpiralVisitedSeen(r - 1, 8 * (r - 1) - 1, c);
    PosIndex(r, 0);
    if Ring(c) == r {
      IndexPos(r, c);
    }
    if Ring(c) == r - 1 {
      IndexPos(r - 1, c);
    }
  }

  /** Along a side the cell to the left is on an inner ring, so the walker goes straight on;
      at the start of a side it is the next place of the ring, not yet seen, so the walker
      turns. */
  lemma TurnOrKeep(r: nat, t: nat)
    requires 1 <= r && t + 1 < 8 * r
    ensures var c, d := SpiralPos(r, t), HeadingAt(r, t);
            var check := Move(c, PreferredNext(d));
            if t + 1 == 1 || t + 1 == 2 * r || t + 1 == 4 * r || t + 1 == 6 * r then
              HeadingAt(r, t + 1) == PreferredNext(d) && check == SpiralPos(r, t + 1) && !Seen(r, t, check)
            else
              HeadingAt(r, t + 1) == d && Ring(check) < r && Move(c, d) == SpiralPos(r, t + 1)
  {
    PosIndex(r, t + 1);
  }

  /** A step along a ring reaches the next place of the ring. */
  lemma AdvanceAlongRing(r: nat, t: nat, u: nat)
    requires 1 <= r && u == t + 1 && u < 8 * r
    ensures Advance(SpiralWalk(r, t)) == SpiralWalk(r, u)
  {
    TurnOrKeep(r, t);
    var c := SpiralPos(r, t);
    SpiralVisitedSeen(r, t, Move(c, PreferredNext(HeadingAt(r, t))));
  }

  /** The step after the last place of a ring goes on to the right, onto the next ring. */
  lemma AdvanceToNextRing(r: nat, s: nat)
    requires 1 <= r && s == r + 1
    ensures Advance(SpiralWalk(r, 8 * r - 1)) == SpiralWalk(s, 0)
  {
    var c := SpiralPos(r, 8 * r - 1);
    assert c == (r as int, -(r as int));
    PosIndex(r, 0);
    assert Move(c, Up) == SpiralPos(r, 0);
    SpiralVisitedSeen(r, 8 * r - 1, Move(c, Up));
  }

  /** The second step reaches the first place of ring 1. */
  lemma SecondStep(m: nat)
    requires m == 2
    ensures Walked(m) == SpiralWalk(1, 0)
  {
    assert Walked(m - 1) == Advance(Walked(0));
  }

  /** How many cells lie inside ring `r`: one for the origin and `8k` for each ring `k`
      in between. */
  function RingStart(r: nat): nat
    requires r >= 1
  {
    if r == 1 then 1 else RingStart(r - 1) + 8 * (r - 1)
  }

  /** Ring `q` holds `8q` cells. */
  lemma RingStartNext(q: nat, r: nat)
    requires 1 <= q && r == q + 1
    ensures RingStart(r) == RingStart(q) + 8 * q
  {
  }

  /** The cells inside ring `r` fill a square of side `2r - 1`. */
  lemma {:induction false} RingStartSquare(r: nat)
    requires r >= 1
    ensures RingStart(r) == (2 * r - 1) * (2 * r - 1)
  {
    if r > 1 {
      RingStartSquare(r - 1);
      assert (2 * r - 1) * (2 * r - 1) == (2 * r - 3) * (2 * r - 3) + 8 * (r - 1);
    }
  }

  /** The spiral in closed form: the cell numbered `m` lies `t` places along ring `r` when
      `m` is `(2r - 1)^2 + t + 1`, so that ring `r` holds the numbers after `(2r - 1)^2` up
      to `(2r + 1)^2`. */
  lemma {:induction false} WalkedOnSpiral(m: nat, r: nat, t: nat)
    requires 1 <= r && t < 8 * r && m == RingStart(r) + t + 1
    ensures Walked(m) == SpiralWalk(r, t)
    decreases m, 1
  {
    if t > 0 {
      WalkedAlongRing(m, r, t);
    } else if r == 1 {
      SecondStep(m);
    } else {
      WalkedToNextRing(m, r);
    }
  }

  /** A step within a ring. */
  lemma {:induction false} WalkedAlongRing(m: nat, r: nat, t: nat)
    requires 1 <= r && 1 <= t < 8 * r && m == RingStart(r) + t + 1
    ensures Walked(m) == SpiralWalk(r, t)
    decreases m, 0
  {
    var p, s := m - 1, t - 1;
    WalkedNext(p, m);
    AdvanceAlongRing(r, s, t);
    WalkedOnSpiral(p, r, s);
  }

  /** The step onto the next ring. */
  lemma {:induction false} WalkedToNextRing(m: nat, r: nat)
    requires 2 <= r && m == RingStart(r) + 1
    ensures Walked(m) == SpiralWalk(r, 0)
    decreases m, 0
  {
    var p, q := m - 1, r - 1;
    RingStartNext(q, r);
    WalkedNext(p, m);
    AdvanceToNextRing(q, r);
    WalkedOnSpiral(p, q, 8 * q - 1);
  }

  /** Every number after the first has its ring and its place on it. */
  lemma {:induction false} RingOf(n: nat) returns (r: nat, t: nat)
    requires n >= 1
    ensures 1 <= r && t < 8 * r && n == RingStart(r) + t
  {
    if n == 1 {
      r, t := 1, 0;
    } else {
      var r', t' := RingOf(n - 1);
      if t' + 1 < 8 * r' {
        r, t := r', t' + 1;
      } else {
        r, t := r' + 1, 0;
      }
    }
  }

  /** The cell at step `n` is `SpiralPos` of its ring and place. */
  lemma CellAtSpiral(n: nat, r: nat, t: nat)
    requires 1 <= r && t < 8 * r && n == RingStart(r) + t
    ensures CellAt(n) == SpiralPos(r, t)
  {
    WalkedOnSpiral(n + 1, r, t);
  }

  /** The walker starts at the origin and never comes back to a cell it has yielded. */
  lemma CellsDistinct(i: nat, j: nat)
    requires i < j
    ensures CellAt(0) == (0, 0)
    ensures CellAt(i) != CellAt(j)
  {
    assert Walked(1).current == Some((0, 0));
    var r2, t2 := RingOf(j);
    CellAtSpiral(j, r2, t2);
    PosIndex(r2, t2);
    if i > 0 {
      var r1, t1 := RingOf(i);
      CellAtSpiral(i, r1, t1);
      PosIndex(r1, t1);
    }
  }

  /** Each step yields a cell the walker has not visited before. */
  lemma StepIsFresh(n: nat)
    ensures CellAt(n) !in Walked(n).visited
  {
    WalkedVisits(n, CellAt(n));
    if exists i :: 0 <= i < n && CellAt(i) == CellAt(n) {
      var i :| 0 <= i < n && CellAt(i) == CellAt(n);
      CellsDistinct(i, n);
    }
  }

  /** The first 26 cells of the spiral. */
  const FirstCells: seq<Cell> :=
    [(0, 0), (1, 0), (1, 1), (0, 1), (-1, 1), (-1, 0), (-1, -1), (0, -1), (1, -1),
     (2, -1), (2, 0), (2, 1), (2, 2), (1, 2), (0, 2), (-1, 2), (-2, 2), (-2, 1),
     (-2, 0), (-2, -1), (-2, -2), (-1, -2), (0, -2), (1, -2), (2, -2), (3, -2)]

  /** The walker yields the first 26 cells in the spiral's order. */
  lemma FirstCellsOfWalk(i: nat)
    requires i < |FirstCells|
    ensures CellAt(i) == FirstCells[i]
  {
    if i == 0 {
      CellsDistinct(0, 1);
    } else if i < 9 {
      CellAtSpiral(i, 1, i - 1);
      RingOneListed(i - 1, i);
    } else if i < 25 {
      CellAtSpiral(i, 2, i - 9);
      RingTwoListed(i - 9, i);
    } else {
      CellAtSpiral(i, 3, 0);
    }
  }

  /** Ring 1 as listed among the first cells. */
  lemma RingOneListed(t: nat, i: nat)
    requires t < 8 && i == t + 1
    ensures SpiralPos(1, t) == FirstCells[i]
  {
  }

  /** Ring 2 as listed among the first cells. */
  lemma RingTwoListed(t: nat, i: nat)
    requires t < 16 && i == t + 9
    ensures SpiralPos(2, t) == FirstCells[i]
  {
  }

  // ---------------------------------------------------------------------------------------
  // Part 1: distance of a numbered cell

  /** The Manhattan distance of a cell from the origin. */
  function Manhattan(c: Cell): nat
  {
    Abs(c.0) + Abs(c.1)
  }

  /** `distance_for_square`: walks the spiral to the cell numbered `n` and returns its
      Manhattan distance from the origin. */
  method DistanceForSquare(n: nat) returns (d: nat)
    requires n >= 1
    ensures d == Manhattan(CellAt(n - 1))
  {
    var walker := new UlamIterator();
    var i := 0;
    var cell := walker.Next();
    while i + 1 != n
      invariant 0 <= i < n
      invariant walker.State() == Walked(i + 1)
      invariant cell == Some(CellAt(i))
      decreases n - i
    {
      cell := walker.Next();
      i := i + 1;
    }
    var (x, y) := cell.value;
    d := Abs(x) + Abs(y);
  }

  /** Cell 1 is the origin, 0 steps from itself. */
  lemma DistanceSampleOne(a: nat)
    requires a == 0
    ensures Manhattan(CellAt(a)) == 0
  {
    CellsDistinct(0, 1);
  }

  /** Cell 12 (yielded at step 11) is 3 steps from the origin: it lies 2 places along
      ring `r = 2`. */
  lemma DistanceSampleTwelve(b: nat, r: nat)
    requires b == 11 && r == 2
    ensures Manhattan(CellAt(b)) == 3
  {
    CellAtSpiral(b, r, 2);
    assert SpiralPos(r, 2) == (2, 1);
  }

  /** Cell 23 (yielded at step 22) is 2 steps from the origin: it lies 13 places along
      ring `r = 2`. */
  lemma DistanceSampleTwentyThree(c: nat, r: nat)
    requires c == 22 && r == 2
    ensures Manhattan(CellAt(c)) == 2
  {
    CellAtSpiral(c, r, 13);
    assert SpiralPos(r, 13) == (0, -2);
  }

  /** Cell 1024 (yielded at step 1023) is 31 steps from the origin: it lies on ring `r = 16`. */
  lemma DistanceSample1024(d: nat, r: nat)
    requires d == 1023 && r == 16
    ensures Manhattan(CellAt(d)) == 31
  {
    RingStartSquare(r);
    CellAtSpiral(d, r, 62);
  }

  // ---------------------------------------------------------------------------------------
  // Part 2: neighbour sums along the spiral

  /** A stored value, or 0 where nothing is stored (`unwrap_or(&0)`). */
  function OrZero(v: Option<nat>): nat
  {
    if v.Some? then v.value else 0
  }

  /** The sum of the values present, with missing ones counting 0. */
  function SumPresent(vs: seq<Option<nat>>): nat
  {
    if vs == [] then 0 else SumPresent(vs[..|vs| - 1]) + OrZero(vs[|vs| - 1])
  }

  /** The sum of eight values, spelled out. */
  lemma SumOfEight(vs: seq<Option<nat>>)
    requires |vs| == 8
    ensures SumPresent(vs) == OrZero(vs[0]) + OrZero(vs[1]) + OrZero(vs[2]) + OrZero(vs[3])
                            + OrZero(vs[4]) + OrZero(vs[5]) + OrZero(vs[6]) + OrZero(vs[7])
  {
    assert vs[..8] == vs;
    SumPresentPrefix(vs, 8);
    SumPresentPrefix(vs, 7);
    SumPresentPrefix(vs, 6);
    SumPresentPrefix(vs, 5);
    SumPresentPrefix(vs, 4);
    SumPresentPrefix(vs, 3);
    SumPresentPrefix(vs, 2);
    SumPresentPrefix(vs, 1);
  }

  /** The sum over a prefix adds its last value to the sum over the shorter prefix. */
  lemma SumPresentPrefix(vs: seq<Option<nat>>, k: nat)
    requires 1 <= k <= |vs|
    ensures SumPresent(vs[..k]) == SumPresent(vs[..k - 1]) + OrZero(vs[k - 1])
  {
    assert vs[..k][..k - 1] == vs[..k - 1];
  }

  /** Each value present is part of the sum. */
  lemma {:induction false} SumPresentCounts(vs: seq<Option<nat>>, j: nat)
    requires j < |vs|
    ensures OrZero(vs[j]) <= SumPresent(vs)
  {
    if j < |vs| - 1 {
      var front := vs[..|vs| - 1];
      SumPresentCounts(front, j);
      assert front[j] == vs[j];
    }
  }

  /** The sum of the values stored around `c`. */
  function NeighborSum(g: map<Cell, nat>, c: Cell): nat
  {
    var around := Neighbors(c);
    SumPresent(seq(8, k requires 0 <= k < 8 => Lookup(g, around[k])))
  }

  /** The values written once the first `k` cells after the origin have been filled: the
      origin holds 1 and each later cell the sum of its neighbours already written. */
  function Grid(k: nat): map<Cell, nat>
  {
    if k == 0 then map[(0, 0) := 1]
    else
      var g := Grid(k - 1);
      g[CellAt(k) := NeighborSum(g, CellAt(k))]
  }

  /** The value written at step `k >= 1`. */
  function Stress(k: nat): nat
    requires k >= 1
  {
    NeighborSum(Grid(k - 1), CellAt(k))
  }

  /** Around the origin of a grid holding 1 to 9 in reading order, the values present sum
      to 40, the centre's 5 left out; around the origin of an empty grid they sum to 0. */
  lemma NeighborSumSample(g: map<Cell, nat>)
    requires g == map[(-1, 1) := 1, (0, 1) := 2, (1, 1) := 3, (-1, 0) := 4, (0, 0) := 5,
                      (1, 0) := 6, (-1, -1) := 7, (0, -1) := 8, (1, -1) := 9]
    ensures NeighborSum(g, (0, 0)) == 40
    ensures NeighborSum(map[], (0, 0)) == 0
  {
    var around := Neighbors((0, 0));
    var vs := seq(8, k requires 0 <= k < 8 => Lookup(g, around[k]));
    assert vs == [Some(7), Some(4), Some(1), Some(8), Some(2), Some(9), Some(6), Some(3)];
    SumOfEight(vs);
    var empty: map<Cell, nat> := map[];
    var none := seq(8, k requires 0 <= k < 8 => Lookup(empty, around[k]));
    assert none == [None, None, None, None, None, None, None, None];
    SumOfEight(none);
  }

  /** Consecutive cells of the walk touch. */
  lemma StepTouches(i: nat, n: nat)
    requires n == i + 1
    ensures Touching(CellAt(n), CellAt(i))
  {
    YieldedAt(i, n);
    WalkedNext(n, n + 1);
    AdvanceSteps(Walked(n));
    UnitStepTouches(CellAt(i), CellAt(n));
  }

  /** Cells one unit apart touch. */
  lemma UnitStepTouches(c: Cell, d: Cell)
    requires Abs(d.0 - c.0) + Abs(d.1 - c.1) == 1
    ensures Touching(d, c)
  {
  }

  /** The sum around a cell counts what is stored at each of its neighbours. */
  lemma NeighborSumCounts(g: map<Cell, nat>, c: Cell, p: Cell)
    requires Touching(c, p)
    ensures OrZero(Lookup(g, p)) <= NeighborSum(g, c)
  {
    var around := Neighbors(c);
    var j :| 0 <= j < 8 && around[j] == p;
    var vs := seq(8, k requires 0 <= k < 8 => Lookup(g, around[k]));
    assert vs[j] == Lookup(g, p);
    SumPresentCounts(vs, j);
  }

  /** The values never decrease along the spiral: a cell's sum includes the cell before it. */
  lemma StressGrows(k: nat)
    requires k >= 2
    ensures Stress(k - 1) <= Stress(k)
  {
    var j := k - 1;
    StepTouches(j, k);
    assert Lookup(Grid(j), CellAt(j)) == Some(Stress(j));
    NeighborSumCounts(Grid(j), CellAt(k), CellAt(j));
  }

  /** The value written at step `k` is the sum around its cell over what the earlier steps
      wrote, and writing it gives the next grid. */
  lemma StressStep(filled: nat, k: nat)
    requires k == filled + 1
    ensures Stress(k) == NeighborSum(Grid(filled), CellAt(k))
    ensures Grid(k) == Grid(filled)[CellAt(k) := Stress(k)]
  {
    assert k - 1 == filled;
  }

  /** Every value written in steps `1..k-1` is at most `check`. */
  ghost predicate AllAtMost(check: nat, k: nat)
  {
    forall j :: 1 <= j < k ==> Stress(j) <= check
  }

  /** One more value at most `check` extends the run. */
  lemma AllAtMostNext(check: nat, k: nat, n: nat)
    requires k >= 1 && n == k + 1 && AllAtMost(check, k) && Stress(k) <= check
    ensures AllAtMost(check, n)
  {
  }

  /** The loop body of `part2`: sums the values around `cell` and writes the sum there. */
  method FillCell(g: Ulam<nat>, cell: Cell) returns (sum: nat)
    modifies g
    ensures sum == NeighborSum(old(g.explored), cell)
    ensures g.explored == old(g.explored)[cell := sum]
  {
    var values := g.NeighborsValues(cell);
    sum := SumPresent(values);
    var stored := g.explored;
    assert values == seq(8, i requires 0 <= i < 8 => Lookup(stored, Neighbors(cell)[i]));
    g.Set(cell, sum);
  }

  /** `part2`: fills the spiral cell after cell, each with the sum of its neighbours, and
      returns the first value above `check`; the walk is cut off after `fuel` cells. */
  method Part2(check: nat, fuel: nat) returns (r: Option<nat>)
    ensures r.None? <==> AllAtMost(check, fuel + 1)
    ensures r.Some? ==> exists k :: 1 <= k <= fuel && r.value == Stress(k) && r.value > check
                                  && AllAtMost(check, k)
  {
    var g := new Ulam<nat>();
    g.Set((0, 0), 1);
    var walker := new UlamIterator();
    var origin := walker.Next();
    var k, filled := 1, 0;
    while k <= fuel
      invariant 1 <= k <= fuel + 1 && k == filled + 1
      invariant g.explored == Grid(filled)
      invariant walker.State() == Walked(k)
      invariant (g as object) != (walker.ulam as object) && (g as object) != walker
      invariant AllAtMost(check, k)
    {
      var cell := walker.Next();
      WalkedNext(k, k + 1);
      var sum := FillCell(g, cell.value);
      StressStep(filled, k);
      if sum > check {
        return Some(sum);
      }
      AllAtMostNext(check, k, k + 1);
      k, filled := k + 1, k;
    }
    return None;
  }
}
