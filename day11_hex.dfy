/** The child process on the hex grid: directions, cube coordinates, the walk and its
    furthest distance. */
module HexGrid {
  import opened Common
  import opened Arith

  /** The six directions a step can take. */
  datatype Direction = N | NE | SE | S | SW | NW

  /** The direction's name, in capitals. */
  function Name(d: Direction): string
  {
    match d
    case N => "N"
    case NE => "NE"
    case SE => "SE"
    case S => "S"
    case SW => "SW"
    case NW => "NW"
  }

  /** An ASCII letter in capitals; any other character is left alone. */
  function UpperChar(c: char): char
  {
    if 'a' <= c <= 'z' then (c as int - 'a' as int + 'A' as int) as char else c
  }

  function Upper(s: string): (r: string)
    ensures |r| == |s| && forall i :: 0 <= i < |s| ==> r[i] == UpperChar(s[i])
  {
    if s == [] then [] else [UpperChar(s[0])] + Upper(s[1..])
  }

  /** `HexDirection::from_str`: one of the six names, in any mix of cases. */
  function ParseDirection(s: string): (r: Result<Direction>)
    ensures r.Ok? <==> Upper(s) in {"N", "NE", "SE", "S", "SW", "NW"}
    ensures r.Ok? ==> Name(r.value) == Upper(s)
    ensures r.Err? ==> r.msg == "couldn't parse direction"
  {
    var u := Upper(s);
    if u == "N" then Ok(N)
    else if u == "NE" then Ok(NE)
    else if u == "SE" then Ok(SE)
    else if u == "S" then Ok(S)
    else if u == "SW" then Ok(SW)
    else if u == "NW" then Ok(NW)
    else Err("couldn't parse direction")
  }

  /** Every name parses back to its direction. */
  lemma ParseName(d: Direction)
    ensures ParseDirection(Name(d)) == Ok(d)
  {
    var u := Name(d);
    assert forall i :: 0 <= i < |u| ==> !('a' <= u[i] <= 'z');
    assert Upper(u) == u;
  }

  /** `test_hex_direction`: "n" is north, "sw" south-west, and "ok" is no direction. */
  lemma ParseSamples()
    ensures ParseDirection("n") == Ok(N)
    ensures ParseDirection("sw") == Ok(SW)
    ensures ParseDirection("ok").Err?
  {
    assert Upper("n") == "N";
    assert Upper("sw") == "SW";
    assert Upper("ok") == "OK";
  }

  /** A hex in cube coordinates. */
  datatype Hex = Hex(q: int, r: int, s: int)

  /** `Hex::origin`. */
  const Origin := Hex(0, 0, 0)

  /** A cube coordinate proper: on the plane `q + r + s == 0`. */
  predicate OnPlane(h: Hex)
  {
    h.q + h.r + h.s == 0
  }

  /** `Hex::distance`: half the sum of the absolute coordinates. */
  function Distance(h: Hex): int
  {
    (Abs(h.q) + Abs(h.r) + Abs(h.s)) / 2
  }

  function Max3(a: int, b: int, c: int): int
  {
    if a >= b && a >= c then a else if b >= c then b else c
  }

  /** On the plane the absolute coordinates sum to an even number, twice the largest one, so
      the distance is the largest absolute coordinate. */
  lemma DistanceOnPlane(h: Hex)
    requires OnPlane(h)
    ensures Abs(h.q) + Abs(h.r) + Abs(h.s) == 2 * Max3(Abs(h.q), Abs(h.r), Abs(h.s))
    ensures Distance(h) == Max3(Abs(h.q), Abs(h.r), Abs(h.s))
  {
  }

  /** `From<HexDirection> for Hex`: the unit step of each direction. */
  function Unit(d: Direction): Hex
  {
    match d
    case N => Hex(0, 1, -1)
    case NE => Hex(1, 0, -1)
    case SE => Hex(1, -1, 0)
    case S => Hex(0, -1, 1)
    case SW => Hex(-1, 0, 1)
    case NW => Hex(-1, 1, 0)
  }

  /** The direction pointing the other way. */
  function Opposite(d: Direction): Direction
  {
    match d
    case N => S
    case NE => SW
    case SE => NW
    case S => N
    case SW => NE
    case NW => SE
  }

  /** `Add<Hex> for Hex`. */
  function Add(a: Hex, b: Hex): Hex
  {
    Hex(a.q + b.q, a.r + b.r, a.s + b.s)
  }

  /** `Add<HexDirection> for Hex`: a step in a direction. */
  function Step(h: Hex, d: Direction): Hex
  {
    Add(h, Unit(d))
  }

  /** Adding hexes is commutative and associative, the origin adds nothing, and a hex on the
      plane plus a hex on the plane is on the plane. */
  lemma AddLaws(a: Hex, b: Hex, c: Hex)
    ensures Add(a, b) == Add(b, a)
    ensures Add(Add(a, b), c) == Add(a, Add(b, c))
    ensures Add(a, Origin) == a
    ensures OnPlane(a) && OnPlane(b) ==> OnPlane(Add(a, b))
  {
  }

  /** Each unit step is on the plane, at distance one from the origin. */
  lemma UnitOnPlane(d: Direction)
    ensures OnPlane(Unit(d)) && Distance(Unit(d)) == 1
  {
    DistanceOnPlane(Unit(d));
  }

  /** Two opposite steps cancel out. */
  lemma UnitOpposite(d: Direction)
    ensures Add(Unit(d), Unit(Opposite(d))) == Origin
  {
  }

  /** The six directions have six different steps. */
  lemma UnitDistinct(d: Direction, e: Direction)
    requires Unit(d) == Unit(e)
    ensures d == e
  {
  }

  /** A step changes the distance by at most one. */
  lemma StepDistance(h: Hex, d: Direction)
    requires OnPlane(h)
    ensures OnPlane(Step(h, d))
    ensures Distance(h) - 1 <= Distance(Step(h, d)) <= Distance(h) + 1
  {
    var h' := Step(h, d);
    assert OnPlane(h') && Abs(h'.q - h.q) <= 1 && Abs(h'.r - h.r) <= 1 && Abs(h'.s - h.s) <= 1 by {
      match d
      case N =>
      case NE =>
      case SE =>
      case S =>
      case SW =>
      case NW =>
    }
    DistanceOnPlane(h);
    DistanceOnPlane(h');
    Max3Near(h, h');
  }

  /** Coordinates each within one of the other's have largest absolute coordinates within one. */
  lemma Max3Near(h: Hex, h': Hex)
    requires Abs(h'.q - h.q) <= 1 && Abs(h'.r - h.r) <= 1 && Abs(h'.s - h.s) <= 1
    ensures var m, m' := Max3(Abs(h.q), Abs(h.r), Abs(h.s)), Max3(Abs(h'.q), Abs(h'.r), Abs(h'.s));
      m - 1 <= m' <= m + 1
  {
  }

  /** `test_hex`: (1, 3, -2) + (3, -4, 3) is (4, -1, 1), and a step north from (1, 3, -2) is
      (1, 4, -3). */
  lemma AddSamples()
    ensures Add(Hex(1, 3, -2), Hex(3, -4, 3)) == Hex(4, -1, 1)
    ensures Step(Hex(1, 3, -2), N) == Hex(1, 4, -3)
  {
  }

  /** Part 1's fold: the position after taking the steps in order from the origin. */
  function Position(dirs: seq<Direction>): Hex
  {
    if dirs == [] then Origin else Step(Position(dirs[..|dirs| - 1]), dirs[|dirs| - 1])
  }

  /** Walking `a` and then `b` ends where the walks' positions add up to, whatever the
      order of the steps. */
  lemma {:induction false} PositionConcat(a: seq<Direction>, b: seq<Direction>)
    ensures Position(a + b) == Add(Position(a), Position(b))
  {
    if b == [] {
      assert a + b == a;
    } else {
      var b' := b[..|b| - 1];
      assert (a + b)[..|a + b| - 1] == a + b';
      PositionConcat(a, b');
    }
  }

  /** Every position reached from the origin is on the plane, and no further from it than
      the number of steps taken. */
  lemma {:induction false} PositionBounds(dirs: seq<Direction>)
    ensures OnPlane(Position(dirs))
    ensures 0 <= Distance(Position(dirs)) <= |dirs|
  {
    if dirs != [] {
      PositionBounds(dirs[..|dirs| - 1]);
      StepDistance(Position(dirs[..|dirs| - 1]), dirs[|dirs| - 1]);
    }
  }

  /** The furthest any position of the walk gets from the origin, 0 for no steps. */
  function Furthest(dirs: seq<Direction>): int
  {
    if dirs == [] then 0
    else
      var before := Furthest(dirs[..|dirs| - 1]);
      var d := Distance(Position(dirs));
      if d > before then d else before
  }

  /** `Furthest` bounds the distance of every position of the walk and is reached by one of
      them (or is 0), and never exceeds the number of steps. */
  lemma {:induction false} FurthestIsMax(dirs: seq<Direction>)
    ensures forall k :: 0 <= k <= |dirs| ==> Distance(Position(dirs[..k])) <= Furthest(dirs)
    ensures Furthest(dirs) == 0 || exists k :: 1 <= k <= |dirs| && Distance(Position(dirs[..k])) == Furthest(dirs)
    ensures 0 <= Furthest(dirs) <= |dirs|
  {
    if dirs == [] {
      assert dirs[..0] == [];
    } else {
      var init := dirs[..|dirs| - 1];
      FurthestIsMax(init);
      PositionBounds(dirs);
      forall k | 0 <= k < |dirs|
        ensures dirs[..k] == init[..k]
      {
      }
      assert dirs[..|dirs|] == dirs;
    }
  }

  /** Part 2's loop: the furthest the walk ever gets from the origin, over every position it
      passes, and 0 for no steps. */
  method MaxDistance(dirs: seq<Direction>) returns (max: int)
    ensures max == Furthest(dirs)
    ensures forall k :: 0 <= k <= |dirs| ==> Distance(Position(dirs[..k])) <= max
    ensures max == 0 || exists k :: 1 <= k <= |dirs| && Distance(Position(dirs[..k])) == max
  {
    var location := Origin;
    max := 0;
    var i := 0;
    while i < |dirs|
      invariant 0 <= i <= |dirs|
      invariant location == Position(dirs[..i])
      invariant max == Furthest(dirs[..i])
    {
      ghost var prefix := dirs[..i + 1];
      assert prefix[..i] == dirs[..i];
      location := Step(location, dirs[i]);
      var distance := Distance(location);
      if distance > max {
        max := distance;
      }
      i := i + 1;
    }
    assert dirs[..i] == dirs;
    FurthestIsMax(dirs);
  }
}
