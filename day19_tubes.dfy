/** A series of tubes: a maze drawn in text is read into rooms keyed by cell, and a walker
    follows the line from its start at the top, turning at corners, collecting the letters
    it passes. */
module Tubes {
  import opened Common
  import opened Arith
  import Text

  /** A direction on the map. */
  datatype Direction = N | S | E | W

  /** `Direction::opposite`. */
  function Opposite(d: Direction): Direction
  {
    match d
    case N => S
    case S => N
    case E => W
    case W => E
  }

  /** Turning round twice faces the way one started, and turning round always changes the
      direction. */
  lemma OppositeInvolutive(d: Direction)
    ensures Opposite(Opposite(d)) == d
    ensures Opposite(d) != d
  {
  }

  /** A cell of the map: `x` grows to the right, `y` downward, from `(0, 0)` at the upper left. */
  datatype Cell = Cell(x: int, y: int)

  function North(c: Cell): Cell { Cell(c.x, c.y - 1) }
  function South(c: Cell): Cell { Cell(c.x, c.y + 1) }
  function East(c: Cell): Cell { Cell(c.x + 1, c.y) }
  function West(c: Cell): Cell { Cell(c.x - 1, c.y) }

  /** `a` and `b` are one step apart, across or down. */
  predicate StepApart(a: Cell, b: Cell)
  {
    Abs(b.x - a.x) + Abs(b.y - a.y) == 1
  }

  /** `Cell::neighbor`: the cell one step away in direction `d`. */
  function Neighbor(c: Cell, d: Direction): (n: Cell)
    ensures StepApart(c, n)
  {
    match d
    case N => North(c)
    case S => South(c)
    case E => East(c)
    case W => West(c)
  }

  /** Stepping one way and then the opposite way comes back. */
  lemma NeighborOpposite(c: Cell, d: Direction)
    ensures Neighbor(Neighbor(c, d), Opposite(d)) == c
  {
  }

  /** `Cell::direction_from`: the direction of the step from `previous` to `c`, if they are
      one step apart. */
  function DirectionFrom(c: Cell, previous: Cell): (r: Option<Direction>)
    ensures r.Some? ==> c == Neighbor(previous, r.value)
    ensures r.None? ==> forall d :: c != Neighbor(previous, d)
  {
    var (dx, dy) := (previous.x - c.x, previous.y - c.y);
    if dx == 0 && dy == 1 then Some(N)
    else if dx == 0 && dy == -1 then Some(S)
    else if dx == 1 && dy == 0 then Some(W)
    else if dx == -1 && dy == 0 then Some(E)
    else None
  }

  /** The direction of a step is the one taken. */
  lemma DirectionFromNeighbor(c: Cell, d: Direction)
    ensures DirectionFrom(Neighbor(c, d), c) == Some(d)
  {
  }

  /** The four neighbours of `(4, -3)` and the four directions into `(5, 5)`. */
  lemma NeighborSamples(c: Cell, e: Cell)
    requires c == Cell(4, -3) && e == Cell(5, 5)
    ensures North(c) == Cell(4, -4) && South(c) == Cell(4, -2)
    ensures East(c) == Cell(5, -3) && West(c) == Cell(3, -3)
    ensures DirectionFrom(e, Cell(4, 5)) == Some(E) && DirectionFrom(e, Cell(6, 5)) == Some(W)
    ensures DirectionFrom(e, Cell(5, 4)) == Some(S) && DirectionFrom(e, Cell(5, 6)) == Some(N)
  {
  }

  /** What a cell of the map holds. */
  datatype RoomType = NS | EW | Corner | Letter(ch: char) | Empty

  /** The room a character of the map stands for. */
  function KindOf(ch: char): (k: RoomType)
    ensures k == Empty <==> ch == ' '
    ensures k.Letter? <==> ch !in {'|', '-', '+', ' '}
    ensures k.Letter? ==> k.ch == ch
  {
    match ch
    case '|' => NS
    case '-' => EW
    case '+' => Corner
    case ' ' => Empty
    case _ => Letter(ch)
  }

  /** The maze: the room at every cell the map covers. */
  datatype Maze = Maze(rooms: map<Cell, RoomType>)

  /** `trim_right_matches("\n")`: the text without its trailing newlines. */
  function TrimNewlines(s: string): (r: string)
    ensures |r| <= |s| && r == s[..|r|] && (r == [] || r[|r| - 1] != '\n')
    ensures forall i :: |r| <= i < |s| ==> s[i] == '\n'
  {
    if s != [] && s[|s| - 1] == '\n' then TrimNewlines(s[..|s| - 1]) else s
  }

  /** The rooms of the first `n` characters of `line`, the line numbered `y`, added to `acc`. */
  function RowRooms(acc: map<Cell, RoomType>, line: string, y: int, n: nat): map<Cell, RoomType>
    requires n <= |line|
  {
    if n == 0 then acc else RowRooms(acc, line, y, n - 1)[Cell(n - 1, y) := KindOf(line[n - 1])]
  }

  /** The rooms of the map made of `lines`, line by line. */
  function RoomsOf(lines: seq<string>): map<Cell, RoomType>
  {
    if lines == [] then map[]
    else
      var k := |lines| - 1;
      RowRooms(RoomsOf(lines[..k]), lines[k], k, |lines[k]|)
  }

  /** A row adds exactly its own cells, each holding the room of its character. */
  lemma {:induction false} RowRoomsAt(acc: map<Cell, RoomType>, line: string, y: int, n: nat, c: Cell)
    requires n <= |line|
    ensures c in RowRooms(acc, line, y, n) <==> c in acc || (c.y == y && 0 <= c.x < n)
    ensures c.y == y && 0 <= c.x < n ==> RowRooms(acc, line, y, n)[c] == KindOf(line[c.x])
    ensures !(c.y == y && 0 <= c.x < n) && c in acc ==> RowRooms(acc, line, y, n)[c] == acc[c]
  {
    if n > 0 {
      RowRoomsAt(acc, line, y, n - 1, c);
    }
  }

  /** The rooms of a map are exactly its cells, line `y` and column `x` holding the room of
      the character there. */
  lemma {:induction false} RoomsOfAt(lines: seq<string>, c: Cell)
    ensures c in RoomsOf(lines) <==> 0 <= c.y < |lines| && 0 <= c.x < |lines[c.y]|
    ensures c in RoomsOf(lines) ==> RoomsOf(lines)[c] == KindOf(lines[c.y][c.x])
  {
    if lines != [] {
      var k := |lines| - 1;
      var front := lines[..k];
      RoomsOfAt(front, c);
      RowRoomsAt(RoomsOf(front), lines[k], k, |lines[k]|, c);
      if 0 <= c.y < k {
        assert front[c.y] == lines[c.y];
      }
    }
  }

  /** `Maze::from_map`: reads the map line by line and character by character, storing the
      room of each character at its column and line. */
  method FromMap(text: string) returns (maze: Maze)
    ensures maze.rooms == RoomsOf(Text.Lines(TrimNewlines(text)))
  {
    var lines := Text.Lines(TrimNewlines(text));
    var rooms: map<Cell, RoomType> := map[];
    var y := 0;
    while y < |lines|
      invariant 0 <= y <= |lines|
      invariant rooms == RoomsOf(lines[..y])
    {
      var line := lines[y];
      var x := 0;
      while x < |line|
        invariant 0 <= x <= |line|
        invariant rooms == RowRooms(RoomsOf(lines[..y]), line, y, x)
      {
        rooms := rooms[Cell(x, y) := KindOf(line[x])];
        x := x + 1;
      }
      assert lines[..y + 1][..y] == lines[..y];
      y := y + 1;
    }
    assert lines[..y] == lines;
    maze := Maze(rooms);
  }

  /** A cell the walk may start from: a vertical tube on the top line. */
  predicate IsStart(maze: Maze, c: Cell)
  {
    c in maze.rooms && maze.rooms[c] == NS && c.y == 0
  }

  /** `get_start`: some vertical tube on the top line, or none when there is none. Which one,
      when there are several, depends on the order of the source's hash map, so the model
      promises only that it is one of them. */
  method GetStart(maze: Maze) returns (start: Option<Cell>)
    ensures start.None? <==> forall c :: c in maze.rooms ==> !IsStart(maze, c)
    ensures start.Some? ==> IsStart(maze, start.value)
  {
    if exists c :: c in maze.rooms && IsStart(maze, c) {
      var c :| c in maze.rooms && IsStart(maze, c);
      start := Some(c);
    } else {
      start := None;
    }
  }

  /** A cell the walk can enter: on the map and not empty. */
  predicate Open(maze: Maze, c: Cell)
  {
    c in maze.rooms && maze.rooms[c] != Empty
  }

  /** The cells of `cs` that are open and are not `previous`, in order. */
  function Candidates(maze: Maze, cs: seq<Cell>, previous: Cell): (r: seq<Cell>)
    ensures |r| <= |cs|
    ensures forall c :: c in r <==> c in cs && Open(maze, c) && c != previous
    ensures r != [] ==> r[0] in cs && Open(maze, r[0])
  {
    if cs == [] then []
    else
      var rest := Candidates(maze, cs[1..], previous);
      if Open(maze, cs[0]) && cs[0] != previous then [cs[0]] + rest else rest
  }

  /** `cell_after`: the cell the walk goes on to from `cell`, heading `dir`. Along a tube or
      a letter it goes straight on if the next cell is open and stops otherwise; at a corner
      it takes the one open neighbour other than the cell it came from, and fails when there
      is not exactly one; a cell off the map or an empty one is an error. */
  function CellAfter(maze: Maze, dir: Direction, cell: Cell): (r: Result<Option<Cell>>)
    ensures r.Ok? && r.value.Some? ==> Open(maze, r.value.value)
    ensures r.Ok? && r.value.Some? ==> exists d :: r.value.value == Neighbor(cell, d)
  {
    if cell !in maze.rooms then Err("No room found for visited cell!")
    else match maze.rooms[cell]
      case Empty => Err("Shouldn't be able to visit Empty room")
      case Corner =>
        var remaining := Candidates(maze, Around(cell), Neighbor(cell, Opposite(dir)));
        if |remaining| == 1 then
          assert remaining[0] in remaining;
          Ok(Some(remaining[0]))
        else Err("assertion failed: remaining.len() == 1")
      case _ =>
        var next := Neighbor(cell, dir);
        if Open(maze, next) then Ok(Some(next)) else Ok(None)
  }

  /** On a tube or a letter the walk goes straight on exactly when the next cell is open, and
      ends otherwise. */
  lemma CellAfterStraight(maze: Maze, dir: Direction, cell: Cell)
    requires cell in maze.rooms && maze.rooms[cell] != Corner && maze.rooms[cell] != Empty
    ensures CellAfter(maze, dir, cell) == Ok(Some(Neighbor(cell, dir))) <==> Open(maze, Neighbor(cell, dir))
    ensures CellAfter(maze, dir, cell) == Ok(None) <==> !Open(maze, Neighbor(cell, dir))
  {
  }

  /** The four cells around `cell`, in the order a corner tries them. */
  function Around(cell: Cell): (r: seq<Cell>)
    ensures forall c :: c in r <==> exists d :: c == Neighbor(cell, d)
  {
    var r := [North(cell), South(cell), East(cell), West(cell)];
    assert r[0] == Neighbor(cell, N) && r[1] == Neighbor(cell, S);
    assert r[2] == Neighbor(cell, E) && r[3] == Neighbor(cell, W);
    r
  }

  /** `next` is the only way on from `cell` for a walker that came from `previous`: an open
      neighbour other than `previous`, and every such neighbour is `next`. */
  predicate OnlyWayOn(maze: Maze, cell: Cell, previous: Cell, next: Cell)
  {
    && next in Around(cell) && Open(maze, next) && next != previous
    && forall c :: c in Around(cell) && Open(maze, c) && c != previous ==> c == next
  }

  /** At a corner the walk goes to `next` exactly when `next` is the only way on other than
      back to the cell it came from. */
  lemma CellAfterCorner(maze: Maze, dir: Direction, cell: Cell, next: Cell)
    requires cell in maze.rooms && maze.rooms[cell] == Corner
    ensures CellAfter(maze, dir, cell) == Ok(Some(next)) <==>
              OnlyWayOn(maze, cell, Neighbor(cell, Opposite(dir)), next)
  {
    if CellAfter(maze, dir, cell) == Ok(Some(next)) {
      CornerTakesOnlyWay(maze, dir, cell, next);
    }
    if OnlyWayOn(maze, cell, Neighbor(cell, Opposite(dir)), next) {
      OnlyWayTaken(maze, dir, cell, next);
    }
  }

  /** The cell a corner goes on to is its only way on. */
  lemma CornerTakesOnlyWay(maze: Maze, dir: Direction, cell: Cell, next: Cell)
    requires cell in maze.rooms && maze.rooms[cell] == Corner
    requires CellAfter(maze, dir, cell) == Ok(Some(next))
    ensures OnlyWayOn(maze, cell, Neighbor(cell, Opposite(dir)), next)
  {
    var remaining := Candidates(maze, Around(cell), Neighbor(cell, Opposite(dir)));
    assert |remaining| == 1 && remaining[0] == next;
    assert next in remaining;
  }

  /** A corner with a single way on goes on to it. */
  lemma OnlyWayTaken(maze: Maze, dir: Direction, cell: Cell, next: Cell)
    requires cell in maze.rooms && maze.rooms[cell] == Corner
    requires OnlyWayOn(maze, cell, Neighbor(cell, Opposite(dir)), next)
    ensures CellAfter(maze, dir, cell) == Ok(Some(next))
  {
    var previous := Neighbor(cell, Opposite(dir));
    var around := Around(cell);
    assert next in Candidates(maze, around, previous);
    AroundDistinct(cell);
    CandidatesSingle(maze, around, previous, next);
  }

  /** The four cells around a cell are distinct. */
  lemma AroundDistinct(cell: Cell)
    ensures forall i, j :: 0 <= i < j < |Around(cell)| ==> Around(cell)[i] != Around(cell)[j]
  {
  }

  /** When every candidate is `only`, and `only` is one, there is exactly one. */
  lemma {:induction false} CandidatesSingle(maze: Maze, cs: seq<Cell>, previous: Cell, only: Cell)
    requires only in Candidates(maze, cs, previous)
    requires forall c :: c in Candidates(maze, cs, previous) ==> c == only
    requires forall i, j :: 0 <= i < j < |cs| ==> cs[i] != cs[j]
    ensures Candidates(maze, cs, previous) == [only]
  {
    var rest := Candidates(maze, cs[1..], previous);
    if Open(maze, cs[0]) && cs[0] != previous {
      assert cs[0] == only;
      assert cs[0] !in cs[1..];
      assert forall c :: c in rest ==> c in cs[1..] && c == only;
      if rest != [] {
        assert false;
      }
    } else {
      CandidatesSingle(maze, cs[1..], previous, only);
    }
  }

  /** The state of a walk (`MazeIter`): the last cell yielded, if any, and the direction it was
      entered in. */
  datatype WalkState = WalkState(last: Option<Cell>, direction: Direction)

  /** One step of the walk from `cell`, heading `dir`: the next cell and the direction it is
      entered in, `None` when the walk ends there, or the failure. */
  function StepFrom(maze: Maze, dir: Direction, cell: Cell): (r: Result<Option<(Cell, Direction)>>)
    ensures r.Ok? && r.value.Some? ==> r.value.value.0 == Neighbor(cell, r.value.value.1)
    ensures r.Ok? && r.value.Some? ==> Open(maze, r.value.value.0)
  {
    match CellAfter(maze, dir, cell)
    case Err(e) => Err(e)
    case Ok(None) => Ok(None)
    case Ok(Some(next)) =>
      var d := DirectionFrom(next, cell);
      assert d.Some?;
      Ok(Some((next, d.value)))
  }

  /** How a walk ended: at its last cell, at a failure, or cut off after the steps allowed. */
  datatype Ending = Finished | Failed(msg: string) | OutOfFuel

  /** `cells` can be walked from `from`: each is open and one step from the one before. */
  predicate Walkable(maze: Maze, from: Cell, cells: seq<Cell>)
    decreases |cells|
  {
    cells == [] || (Open(maze, cells[0]) && StepApart(from, cells[0]) && Walkable(maze, cells[0], cells[1..]))
  }

  /** The cells the walk yields after `cell` (heading `dir`), at most `fuel` of them, and how
      it ended. */
  function PathFrom(maze: Maze, dir: Direction, cell: Cell, fuel: nat): (p: (seq<Cell>, Ending))
    ensures |p.0| <= fuel
    ensures p.1 == OutOfFuel ==> |p.0| == fuel
    ensures Walkable(maze, cell, p.0)
    decreases fuel
  {
    if fuel == 0 then ([], OutOfFuel)
    else match StepFrom(maze, dir, cell)
      case Err(e) => ([], Failed(e))
      case Ok(None) => ([], Finished)
      case Ok(Some((next, d))) =>
        var rest := PathFrom(maze, d, next, fuel - 1);
        ([next] + rest.0, rest.1)
  }

  /** The letters met along some cells, in order. */
  function Letters(maze: Maze, cells: seq<Cell>): (r: seq<char>)
    ensures |r| <= |cells|
  {
    if cells == [] then [] else LetterAt(maze, cells[0]) + Letters(maze, cells[1..])
  }

  /** The letter of a cell, if it holds one. */
  function LetterAt(maze: Maze, c: Cell): (r: seq<char>)
    ensures |r| <= 1
    ensures r != [] <==> c in maze.rooms && maze.rooms[c].Letter?
    ensures r != [] ==> r[0] == maze.rooms[c].ch
  {
    if c in maze.rooms && maze.rooms[c].Letter? then [maze.rooms[c].ch] else []
  }

  /** `MazeIter`: a walker over a maze. */
  class MazeIter {
    const maze: Maze
    var lastCell: Option<Cell>
    var direction: Direction

    /** The walker's state as a value. */
    function State(): WalkState
      reads this
    {
      WalkState(lastCell, direction)
    }

    /** `MazeIter::new`: no cell yielded yet, heading south. */
    constructor (m: Maze)
      ensures maze == m && State() == WalkState(None, S)
    {
      maze := m;
      lastCell := None;
      direction := S;
    }

    /** `next`: the first call yields a start cell (heading south); each later call yields the
        cell after the last one and the direction it was entered in. The walker stays put once
        the walk has ended, and a failure of `cell_after` is passed on. */
    method Next() returns (r: Result<Option<Cell>>)
      modifies this
      ensures old(lastCell).None? ==>
        && (r.Ok? && (r.value.None? <==> forall c :: c in maze.rooms ==> !IsStart(maze, c)))
        && (r.value.None? ==> State() == old(State()))
        && (r.value.Some? ==> IsStart(maze, r.value.value) && State() == WalkState(r.value, S))
      ensures old(lastCell).Some? ==>
        match StepFrom(maze, old(direction), old(lastCell).value)
        case Err(e) => r == Err(e) && State() == old(State())
        case Ok(None) => r == Ok(None) && State() == old(State())
        case Ok(Some((next, d))) => r == Ok(Some(next)) && State() == WalkState(Some(next), d)
    {
      match lastCell {
        case None =>
          var start := GetStart(maze);
          if start.Some? {
            lastCell := start;
            direction := S;
          }
          r := Ok(start);
        case Some(cell) =>
          var after := CellAfter(maze, direction, cell);
          match after {
            case Err(e) =>
              r := Err(e);
            case Ok(None) =>
              r := Ok(None);
            case Ok(Some(next)) =>
              var d := DirectionFrom(next, cell);
              lastCell := Some(next);
              direction := d.value;
              r := Ok(Some(next));
          }
      }
    }
  }

  /** One step of `PathFrom`, by the outcome of the step from `cell`. */
  lemma PathStep(maze: Maze, dir: Direction, cell: Cell, fuel: nat)
    requires fuel > 0
    ensures match StepFrom(maze, dir, cell)
            case Err(e) => PathFrom(maze, dir, cell, fuel) == ([], Failed(e))
            case Ok(None) => PathFrom(maze, dir, cell, fuel) == ([], Finished)
            case Ok(Some((next, d))) =>
              var rest := PathFrom(maze, d, next, fuel - 1);
              PathFrom(maze, dir, cell, fuel) == ([next] + rest.0, rest.1)
  {
  }

  /** A step to `next` (entered heading `d`) starts the path, and the rest of the path goes
      on from `next`. */
  lemma PathStepOn(maze: Maze, dir: Direction, cell: Cell, fuel: nat, next: Cell, d: Direction, rest: nat)
    requires fuel == rest + 1
    requires StepFrom(maze, dir, cell) == Ok(Some((next, d)))
    ensures PathFrom(maze, dir, cell, fuel) == ([next] + PathFrom(maze, d, next, rest).0, PathFrom(maze, d, next, rest).1)
  {
    var tail := PathFrom(maze, d, next, rest);
    assert PathFrom(maze, dir, cell, fuel) == ([next] + tail.0, tail.1);
  }

  /** The letters of a path are those of its first cell and then those of the rest. */
  lemma LettersCons(maze: Maze, first: Cell, rest: seq<Cell>)
    ensures Letters(maze, [first] + rest) == LetterAt(maze, first) + Letters(maze, rest)
  {
    assert ([first] + rest)[1..] == rest;
  }

  /** `find_treasure`: walks the maze from its start, collecting the letters of the cells it
      passes, for at most `fuel` cells. With no start the walk is empty; otherwise (`start`
      names the start cell taken) the result is the letters of the start cell and of the path
      after it, and how that path ended. */
  method FindTreasure(maze: Maze, fuel: nat) returns (treasure: seq<char>, ending: Ending, ghost start: Option<Cell>)
    ensures start.None? <==> forall c :: c in maze.rooms ==> !IsStart(maze, c)
    ensures start.None? ==> treasure == [] && ending == Finished
    ensures start.Some? ==> IsStart(maze, start.value)
    ensures start.Some? && fuel == 0 ==> treasure == [] && ending == OutOfFuel
    ensures start.Some? && fuel > 0 ==>
              var p := PathFrom(maze, S, start.value, fuel - 1);
              treasure == Letters(maze, [start.value] + p.0) && ending == p.1
  {
    var walker := new MazeIter(maze);
    treasure, ending := [], Finished;
    if fuel == 0 {
      start := None;
      if exists c :: c in maze.rooms && IsStart(maze, c) {
        var c :| c in maze.rooms && IsStart(maze, c);
        start := Some(c);
        ending := OutOfFuel;
      }
      return;
    }
    var first := walker.Next();
    start := first.value;
    if first.value.None? {
      return;
    }
    var s := first.value.value;
    var rest, how := WalkOn(walker, s, S, fuel - 1);
    LettersCons(maze, s, PathFrom(maze, S, s, fuel - 1).0);
    treasure, ending := LetterAt(maze, s) + rest, how;
  }

  /** The loop of `find_treasure` after the start: keeps calling `next` on a walker that last
      yielded `cell`, heading `dir`, and collects the letters of the cells it yields, for at
      most `fuel` cells. */
  method WalkOn(walker: MazeIter, cell: Cell, dir: Direction, fuel: nat) returns (letters: seq<char>, ending: Ending)
    requires walker.State() == WalkState(Some(cell), dir)
    modifies walker
    ensures var p := PathFrom(walker.maze, dir, cell, fuel);
            letters == Letters(walker.maze, p.0) && ending == p.1
  {
    var maze := walker.maze;
    ghost var goal := PathFrom(maze, dir, cell, fuel);
    letters := [];
    assert letters + Letters(maze, goal.0) == Letters(maze, goal.0);
    var here, heading := cell, dir;
    var left := fuel;
    while true
      invariant walker.maze == maze
      invariant walker.lastCell == Some(here) && walker.direction == heading
      invariant Letters(maze, goal.0) == letters + Letters(maze, PathFrom(maze, heading, here, left).0)
      invariant goal.1 == PathFrom(maze, heading, here, left).1
      decreases left
    {
      if left == 0 {
        assert letters + [] == letters;
        ending := OutOfFuel;
        return;
      }
      PathStep(maze, heading, here, left);
      ghost var st := StepFrom(maze, heading, here);
      var step := walker.Next();
      match step {
        case Err(e) =>
          assert st == Err(e) && letters + [] == letters;
          ending := Failed(e);
          return;
        case Ok(None) =>
          assert st == Ok(None) && letters + [] == letters;
          ending := Finished;
          return;
        case Ok(Some(next)) =>
          var d := walker.direction;
          var rest: nat := left - 1;
          assert st == Ok(Some((next, d)));
          ghost var more := PathFrom(maze, d, next, rest);
          PathStepOn(maze, heading, here, left, next, d, rest);
          LettersCons(maze, next, more.0);
          Regroup(letters, LetterAt(maze, next), Letters(maze, more.0));
          letters := letters + LetterAt(maze, next);
          here, heading, left := next, d, rest;
      }
    }
  }

  /** Letters collected so far, the next one and those after it, regrouped. */
  lemma Regroup(done: seq<char>, now: seq<char>, later: seq<char>)
    ensures done + (now + later) == (done + now) + later
  {
  }
}
