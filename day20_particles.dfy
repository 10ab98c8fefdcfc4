/** Particle swarm: particles with a position, velocity and acceleration are stepped in
    lock-step, and a collider removes every particle that shares its new position with another. */
module Particles {
  import opened Common
  import opened Arith

  /** `Vec3`: a point or a displacement in three dimensions. */
  datatype Vec3 = Vec3(x: int, y: int, z: int)

  /** `impl Add for Vec3`: componentwise addition. */
  function Add(a: Vec3, b: Vec3): Vec3
  {
    Vec3(a.x + b.x, a.y + b.y, a.z + b.z)
  }

  /** `k` copies of `v` added together. */
  function Scale(k: nat, v: Vec3): Vec3
  {
    if k == 0 then Vec3(0, 0, 0) else Add(Scale(k - 1, v), v)
  }

  /** `k` copies of `v` are `v` with each coordinate multiplied by `k`. */
  lemma {:induction false} ScaleProduct(k: nat, v: Vec3)
    ensures Scale(k, v) == Vec3(k * v.x, k * v.y, k * v.z)
  {
    if k > 0 {
      ScaleProduct(k - 1, v);
      Distribute(k - 1, 1, v.x);
      Distribute(k - 1, 1, v.y);
      Distribute(k - 1, 1, v.z);
    }
  }

  /** The sum of `1 + 2 + ... + n`. */
  function Triangle(n: nat): nat
  {
    if n == 0 then 0 else Triangle(n - 1) + n
  }

  /** Twice the `n`-th triangle number is `n * (n + 1)`. */
  lemma {:induction false} TriangleClosed(n: nat)
    ensures 2 * Triangle(n) == n * (n + 1)
  {
    if n > 0 {
      TriangleClosed(n - 1);
    }
  }

  /** Addition of vectors is commutative and associative, and the zero vector adds nothing. */
  lemma AddLaws(a: Vec3, b: Vec3, c: Vec3)
    ensures Add(a, b) == Add(b, a)
    ensures Add(Add(a, b), c) == Add(a, Add(b, c))
    ensures Add(a, Vec3(0, 0, 0)) == a
  {
  }

  /** The `test_vec3` example. */
  lemma AddSample(v1: Vec3, v2: Vec3)
    requires v1 == Vec3(1, 2, 3) && v2 == Vec3(5, 6, 7)
    ensures Add(v1, v2) == Vec3(6, 8, 10)
  {
  }

  /** `Particle(position, velocity, acceleration)`. */
  datatype Particle = Particle(position: Vec3, velocity: Vec3, acceleration: Vec3)

  /** `Particle::update`: the velocity grows by the acceleration first, and the position then
      moves by the new velocity; the acceleration never changes. */
  function Update(p: Particle): (r: Particle)
    ensures r.acceleration == p.acceleration
    ensures r.velocity == Add(p.velocity, p.acceleration)
    ensures r.position == Add(p.position, r.velocity)
  {
    var velocity := Add(p.velocity, p.acceleration);
    Particle(Add(p.position, velocity), velocity, p.acceleration)
  }

  /** The particle after `n` calls of `update`. */
  function Updates(p: Particle, n: nat): Particle
  {
    if n == 0 then p else Update(Updates(p, n - 1))
  }

  /** After `n` updates the velocity is `v + n a` and the position is `p + n v + T(n) a`, with
      `T(n) = n (n + 1) / 2`: the acceleration counts once more at every step, since the
      velocity is raised before the position moves. */
  lemma {:induction false} UpdatesClosedForm(p: Particle, n: nat)
    ensures Updates(p, n).acceleration == p.acceleration
    ensures Updates(p, n).velocity == Add(p.velocity, Scale(n, p.acceleration))
    ensures Updates(p, n).position ==
              Add(p.position, Add(Scale(n, p.velocity), Scale(Triangle(n), p.acceleration)))
  {
    if n > 0 {
      var m := n - 1;
      UpdatesClosedForm(p, m);
      var a, v, p0 := p.acceleration, p.velocity, p.position;
      var t := Triangle(m);
      var prev, next := Updates(p, m), Updates(p, n);
      assert next == Update(prev);
      var mv, ta, na := Scale(m, v), Scale(t, a), Scale(n, a);
      ScaleSum(m, 1, n, a);
      ScaleSum(m, 1, n, v);
      assert Triangle(n) == t + n;
      ScaleSum(t, n, Triangle(n), a);
      assert Scale(1, a) == a && Scale(1, v) == v;
      assert prev.position == Add(p0, Add(mv, ta));
      assert next.velocity == Add(v, na);
      assert next.position == Add(Add(p0, Add(mv, ta)), Add(v, na));
      Regroup(p0, mv, ta, v, na);
      assert Scale(n, v) == Add(mv, v);
      assert Scale(Triangle(n), a) == Add(ta, na);
    } else {
      AddNothing(p.position, Scale(0, p.velocity), Scale(Triangle(0), p.acceleration));
    }
  }

  /** Scaling by a sum `s == j + k` is adding the scaled vectors. */
  lemma {:induction false} ScaleSum(j: nat, k: nat, s: nat, v: Vec3)
    requires s == j + k
    ensures Scale(s, v) == Add(Scale(j, v), Scale(k, v))
  {
    if k > 0 {
      ScaleSum(j, k - 1, s - 1, v);
    }
  }

  /** Moving by `v + na` from `p + (mv + ta)` ends where moving by `(mv + v) + (ta + na)`
      from `p` does. */
  lemma Regroup(p: Vec3, mv: Vec3, ta: Vec3, v: Vec3, na: Vec3)
    ensures Add(Add(p, Add(mv, ta)), Add(v, na)) == Add(p, Add(Add(mv, v), Add(ta, na)))
  {
  }

  /** Adding two zero vectors leaves a vector as it is. */
  lemma AddNothing(p: Vec3, u: Vec3, w: Vec3)
    requires u == Vec3(0, 0, 0) && w == Vec3(0, 0, 0)
    ensures Add(p, Add(u, w)) == p
  {
  }

  /** Multiplication distributes over addition. */
  lemma Distribute(j: int, k: int, c: int)
    ensures (j + k) * c == j * c + k * c
  {
  }

  /** `distance_from_center`: the Manhattan distance of the position from the origin. */
  function Distance(p: Particle): (d: int)
    ensures d >= 0
    ensures d == 0 <==> p.position == Vec3(0, 0, 0)
    ensures d >= Abs(p.position.x) && d >= Abs(p.position.y) && d >= Abs(p.position.z)
  {
    Abs(p.position.x) + Abs(p.position.y) + Abs(p.position.z)
  }

  /** The `test_particle` examples (the particles built directly instead of parsed). */
  lemma ParticleSamples(p1: Particle, p2: Particle)
    requires p1 == Particle(Vec3(3, 0, 0), Vec3(2, 0, 0), Vec3(-1, 0, 0))
    requires p2 == Particle(Vec3(4, 0, 0), Vec3(0, 0, 0), Vec3(-2, 0, 0))
    ensures Update(p1) == Particle(Vec3(4, 0, 0), Vec3(1, 0, 0), Vec3(-1, 0, 0))
    ensures Update(p2) == Particle(Vec3(2, 0, 0), Vec3(-2, 0, 0), Vec3(-2, 0, 0))
    ensures Distance(Update(p1)) == 4 && Distance(Update(p2)) == 2
  {
    var q1, q2 := Update(p1), Update(p2);
    assert q1.position == Vec3(4, 0, 0) && q2.position == Vec3(2, 0, 0);
    assert Abs(4) == 4 && Abs(2) == 2 && Abs(0) == 0;
  }

  /** Part one's choice: the slot of the particle nearest the origin, the first such slot
      when several tie; none for no particles (where `unwrap` panics). */
  function Closest(ps: seq<Particle>): (r: Option<nat>)
    ensures r.None? <==> ps == []
    ensures r.Some? ==> r.value < |ps|
    ensures r.Some? ==> forall j :: 0 <= j < |ps| ==> Distance(ps[r.value]) <= Distance(ps[j])
    ensures r.Some? ==> forall j :: 0 <= j < r.value ==> Distance(ps[j]) > Distance(ps[r.value])
  {
    if ps == [] then None
    else
      var last := |ps| - 1;
      match Closest(ps[..last])
      case None => Some(0)
      case Some(best) => if Distance(ps[last]) < Distance(ps[best]) then Some(last) else Some(best)
  }

  /** The slots after every live particle has been updated once; empty slots stay empty. */
  function Stepped(slots: seq<Option<Particle>>): (r: seq<Option<Particle>>)
    ensures |r| == |slots|
    ensures forall i :: 0 <= i < |slots| ==> r[i].Some? == slots[i].Some?
    ensures forall i :: 0 <= i < |slots| && slots[i].Some? ==> r[i].value == Update(slots[i].value)
  {
    if slots == [] then []
    else
      var last := slots[|slots| - 1];
      Stepped(slots[..|slots| - 1]) + [if last.Some? then Some(Update(last.value)) else None]
  }

  /** The particle in slot `i` shares its position with the particle in another slot. */
  predicate Crowded(slots: seq<Option<Particle>>, i: int)
    requires 0 <= i < |slots|
  {
    && slots[i].Some?
    && exists j :: 0 <= j < |slots| && j != i && slots[j].Some? && slots[j].value.position == slots[i].value.position
  }

  /** The slots of the particles that collide. */
  function Collided(slots: seq<Option<Particle>>): set<int>
  {
    set i | 0 <= i < |slots| && Crowded(slots, i)
  }

  /** The slots after every colliding particle has been taken out. */
  function Survivors(slots: seq<Option<Particle>>): (r: seq<Option<Particle>>)
    ensures |r| == |slots|
    ensures forall i :: 0 <= i < |slots| ==> r[i] == if Crowded(slots, i) then None else slots[i]
  {
    seq(|slots|, i requires 0 <= i < |slots| => if Crowded(slots, i) then None else slots[i])
  }

  /** The slots holding a particle. */
  function Live(slots: seq<Option<Particle>>): set<int>
  {
    set i | 0 <= i < |slots| && slots[i].Some?
  }

  /** `count`: the number of slots holding a particle. */
  function CountSome(slots: seq<Option<Particle>>): nat
  {
    if slots == [] then 0
    else CountSome(slots[..|slots| - 1]) + if slots[|slots| - 1].Some? then 1 else 0
  }

  /** The count is the number of live slots. */
  lemma {:induction false} CountSomeLive(slots: seq<Option<Particle>>)
    ensures CountSome(slots) == |Live(slots)|
  {
    if slots != [] {
      var k := |slots| - 1;
      var front := slots[..k];
      CountSomeLive(front);
      if slots[k].Some? {
        assert Live(slots) == Live(front) + {k};
      } else {
        assert Live(slots) == Live(front);
      }
    }
  }

  /** A tick never adds particles: the live slots after it are those before it less the
      collided ones, so the count drops by exactly the number removed. */
  lemma TickCount(slots: seq<Option<Particle>>)
    ensures Collided(Stepped(slots)) <= Live(Stepped(slots))
    ensures Live(Stepped(slots)) == Live(slots)
    ensures CountSome(Survivors(Stepped(slots))) == CountSome(slots) - |Collided(Stepped(slots))|
    ensures CountSome(Survivors(Stepped(slots))) <= CountSome(slots)
  {
    var st := Stepped(slots);
    var after := Survivors(st);
    assert Live(st) == Live(slots);
    assert Live(after) == Live(st) - Collided(st);
    CountSomeLive(slots);
    CountSomeLive(after);
    SubsetCard(Collided(st), Live(st));
  }

  /** Taking a subset out of a set leaves the difference of their sizes. */
  lemma SubsetCard(b: set<int>, a: set<int>)
    requires b <= a
    ensures |a - b| == |a| - |b|
  {
    assert a == (a - b) + b;
  }

  /** After a tick no two particles share a position. */
  lemma SurvivorsApart(slots: seq<Option<Particle>>, i: int, j: int)
    requires 0 <= i < j < |slots|
    requires Survivors(slots)[i].Some? && Survivors(slots)[j].Some?
    ensures Survivors(slots)[i].value.position != Survivors(slots)[j].value.position
  {
    assert !Crowded(slots, i);
  }

  /** The slots before `k` whose particle sits at `q`, in increasing order. */
  function IndicesAt(slots: seq<Option<Particle>>, q: Vec3, k: nat): (r: seq<int>)
    requires k <= |slots|
    ensures forall x :: x in r <==> 0 <= x < k && slots[x].Some? && slots[x].value.position == q
    ensures forall a, b :: 0 <= a < b < |r| ==> r[a] < r[b]
  {
    if k == 0 then []
    else
      var front := IndicesAt(slots, q, k - 1);
      assert forall a :: 0 <= a < |front| ==> front[a] in front;
      if slots[k - 1].Some? && slots[k - 1].value.position == q then front + [k - 1] else front
  }

  /** Looking one slot further adds that slot when its particle sits at `q`. */
  lemma IndicesAtNext(slots: seq<Option<Particle>>, q: Vec3, i: nat, next: nat)
    requires next == i + 1 && next <= |slots|
    ensures IndicesAt(slots, q, next) ==
              if slots[i].Some? && slots[i].value.position == q then IndicesAt(slots, q, i) + [i]
              else IndicesAt(slots, q, i)
  {
  }

  /** `positions` lists, for every position, the slots before `k` holding a particle there,
      in increasing order, and has no entry for a position no such slot holds. */
  ghost predicate Indexed(positions: map<Vec3, seq<int>>, slots: seq<Option<Particle>>, k: nat)
    requires k <= |slots|
  {
    && (forall q :: q in positions ==> positions[q] == IndicesAt(slots, q, k) && positions[q] != [])
    && (forall q :: q !in positions ==> IndicesAt(slots, q, k) == [])
  }

  /** Noting slot `i` under its particle's position extends the index by one slot. */
  lemma IndexedNext(before: map<Vec3, seq<int>>, after: map<Vec3, seq<int>>, slots: seq<Option<Particle>>,
                    i: nat, next: nat)
    requires next == i + 1 && next <= |slots| && Indexed(before, slots, i)
    requires slots[i].None? ==> after == before
    requires slots[i].Some? ==>
      var q := slots[i].value.position;
      after == before[q := (if q in before then before[q] else []) + [i]]
    ensures Indexed(after, slots, next)
  {
    forall q {
      IndicesAtNext(slots, q, i, next);
    }
  }

  /** The colliding slots whose position is no longer among `keys`. */
  ghost function Done(slots: seq<Option<Particle>>, keys: set<Vec3>): set<int>
  {
    set j | 0 <= j < |slots| && Crowded(slots, j) && slots[j].value.position !in keys
  }

  /** The first `t` slots listed. */
  function Elements(list: seq<int>, t: nat): set<int>
    requires t <= |list|
  {
    set a | 0 <= a < t :: list[a]
  }

  /** Before any position is visited nothing is done, since every particle's position is
      listed. */
  lemma DoneStart(positions: map<Vec3, seq<int>>, slots: seq<Option<Particle>>)
    requires Indexed(positions, slots, |slots|)
    ensures Done(slots, positions.Keys) == {}
  {
    forall j | 0 <= j < |slots| && slots[j].Some?
      ensures slots[j].value.position in positions
    {
      var q := slots[j].value.position;
      assert j in IndicesAt(slots, q, |slots|);
    }
  }

  /** The colliding slots whose particle sits at `k`. */
  ghost function CrowdedAt(slots: seq<Option<Particle>>, k: Vec3): set<int>
  {
    set j | 0 <= j < |slots| && Crowded(slots, j) && slots[j].value.position == k
  }

  /** Visiting position `k` completes the colliding slots at `k`. */
  lemma DoneNext(slots: seq<Option<Particle>>, keys: set<Vec3>, k: Vec3)
    requires k in keys
    ensures Done(slots, keys - {k}) == Done(slots, keys) + CrowdedAt(slots, k)
  {
    forall x | x in Done(slots, keys - {k})
      ensures x in Done(slots, keys) + CrowdedAt(slots, k)
    {
      if slots[x].value.position == k {
        assert x in CrowdedAt(slots, k);
      } else {
        assert x in Done(slots, keys);
      }
    }
  }

  /** The colliding slots at `k` are all the slots listed at `k` when more than one particle is
      there, and none otherwise. */
  lemma CrowdedAtListed(slots: seq<Option<Particle>>, k: Vec3, l: seq<int>)
    requires l == IndicesAt(slots, k, |slots|)
    ensures |l| > 1 ==> CrowdedAt(slots, k) == Elements(l, |l|)
    ensures |l| <= 1 ==> CrowdedAt(slots, k) == {}
  {
    forall j | j in CrowdedAt(slots, k)
      ensures |l| > 1 && j in Elements(l, |l|)
    {
      CrowdedIffShared(slots, j);
      ListedAt(slots, k, l, j);
    }
    if |l| > 1 {
      forall x | x in Elements(l, |l|)
        ensures x in CrowdedAt(slots, k)
      {
        var a :| 0 <= a < |l| && x == l[a];
        assert x in l;
        CrowdedIffShared(slots, x);
      }
    }
  }

  /** A slot whose particle sits at `k` is among those listed at `k`. */
  lemma ListedAt(slots: seq<Option<Particle>>, k: Vec3, l: seq<int>, j: int)
    requires l == IndicesAt(slots, k, |slots|)
    requires 0 <= j < |slots| && slots[j].Some? && slots[j].value.position == k
    ensures j in Elements(l, |l|)
  {
    assert j in l;
    var a :| 0 <= a < |l| && l[a] == j;
  }

  /** `now` is `slots` with exactly the slots in `gone` emptied. */
  ghost predicate Emptied(now: seq<Option<Particle>>, slots: seq<Option<Particle>>, gone: set<int>)
  {
    |now| == |slots| && forall j :: 0 <= j < |slots| ==> now[j] == if j in gone then None else slots[j]
  }

  /** Emptying one more slot extends the emptied set by it. */
  lemma EmptiedNext(before: seq<Option<Particle>>, after: seq<Option<Particle>>, slots: seq<Option<Particle>>, gone: set<int>, x: int)
    requires Emptied(before, slots, gone) && 0 <= x < |before| && after == before[x := None]
    ensures Emptied(after, slots, gone + {x})
  {
  }

  /** The slots listed at a position still to visit are all valid and not yet emptied. */
  lemma SlotsPending(slots: seq<Option<Particle>>, keys: set<Vec3>, k: Vec3, l: seq<int>)
    requires l == IndicesAt(slots, k, |slots|) && k in keys
    ensures forall a :: 0 <= a < |l| ==> 0 <= l[a] < |slots| && l[a] !in Done(slots, keys)
  {
    forall a | 0 <= a < |l|
      ensures 0 <= l[a] < |slots| && slots[l[a]].Some? && slots[l[a]].value.position == k
    {
      assert l[a] in l;
    }
  }

  /** In a strictly increasing list the next element is new. */
  lemma ElementsNext(list: seq<int>, t: nat)
    requires t < |list| && forall a, b :: 0 <= a < b < |list| ==> list[a] < list[b]
    ensures list[t] !in Elements(list, t)
    ensures Elements(list, t + 1) == Elements(list, t) + {list[t]}
  {
  }

  /** A particle collides exactly when more than one slot holds a particle at its position. */
  lemma CrowdedIffShared(slots: seq<Option<Particle>>, j: int)
    requires 0 <= j < |slots| && slots[j].Some?
    ensures Crowded(slots, j) <==> |IndicesAt(slots, slots[j].value.position, |slots|)| > 1
  {
    var q := slots[j].value.position;
    var l := IndicesAt(slots, q, |slots|);
    assert j in l;
    if Crowded(slots, j) {
      var o :| 0 <= o < |slots| && o != j && slots[o].Some? && slots[o].value.position == q;
      assert o in l;
      if |l| <= 1 {
        assert false;
      }
    }
    if |l| > 1 {
      var o := if l[0] == j then l[1] else l[0];
      assert o in l && o != j;
    }
  }

  /** A particle moving at constant velocity. */
  function Drifting(x: int, dx: int): Option<Particle>
  {
    Some(Particle(Vec3(x, 0, 0), Vec3(dx, 0, 0), Vec3(0, 0, 0)))
  }

  /** One tick moves four drifting particles by their velocities. */
  lemma SteppedDrifting(x: seq<int>, dx: seq<int>, slots: seq<Option<Particle>>)
    requires |x| == |dx| == 4
    requires slots == [Drifting(x[0], dx[0]), Drifting(x[1], dx[1]), Drifting(x[2], dx[2]), Drifting(x[3], dx[3])]
    ensures Stepped(slots) == [Drifting(x[0] + dx[0], dx[0]), Drifting(x[1] + dx[1], dx[1]),
                               Drifting(x[2] + dx[2], dx[2]), Drifting(x[3] + dx[3], dx[3])]
  {
    var r := Stepped(slots);
    forall i | 0 <= i < 4
      ensures r[i] == Drifting(x[i] + dx[i], dx[i])
    {
      assert slots[i] == Drifting(x[i], dx[i]);
      var q := Update(slots[i].value);
      assert q.velocity == Vec3(dx[i], 0, 0) && q.position == Vec3(x[i] + dx[i], 0, 0);
    }
  }

  /** The `test_collider` example: nothing meets on the first tick, three particles meet at
      the origin on the second and one is left. */
  lemma ColliderSample(s0: seq<Option<Particle>>)
    requires s0 == [Drifting(-6, 3), Drifting(-4, 2), Drifting(-2, 1), Drifting(3, -1)]
    ensures |Collided(Stepped(s0))| == 0
    ensures CountSome(Survivors(Stepped(s0))) == 4
    ensures |Collided(Stepped(Survivors(Stepped(s0))))| == 3
    ensures CountSome(Survivors(Stepped(Survivors(Stepped(s0))))) == 1
  {
    var s1 := FirstPositions(s0);
    FirstTick(s1);
    var s2 := SecondPositions(s1);
    SecondTick(s2);
  }

  /** Where the example's particles are after the first tick. */
  lemma FirstPositions(s0: seq<Option<Particle>>) returns (s1: seq<Option<Particle>>)
    requires s0 == [Drifting(-6, 3), Drifting(-4, 2), Drifting(-2, 1), Drifting(3, -1)]
    ensures s1 == Stepped(s0)
    ensures s1 == [Drifting(-3, 3), Drifting(-2, 2), Drifting(-1, 1), Drifting(2, -1)]
  {
    SteppedDrifting([-6, -4, -2, 3], [3, 2, 1, -1], s0);
    s1 := Stepped(s0);
  }

  /** Where the example's particles are after the second tick. */
  lemma SecondPositions(s1: seq<Option<Particle>>) returns (s2: seq<Option<Particle>>)
    requires s1 == [Drifting(-3, 3), Drifting(-2, 2), Drifting(-1, 1), Drifting(2, -1)]
    ensures s2 == Stepped(s1)
    ensures s2 == [Drifting(0, 3), Drifting(0, 2), Drifting(0, 1), Drifting(1, -1)]
  {
    SteppedDrifting([-3, -2, -1, 2], [3, 2, 1, -1], s1);
    s2 := Stepped(s1);
  }

  /** After the first tick of the example every particle is on its own. */
  lemma FirstTick(s1: seq<Option<Particle>>)
    requires s1 == [Drifting(-3, 3), Drifting(-2, 2), Drifting(-1, 1), Drifting(2, -1)]
    ensures Collided(s1) == {} && Survivors(s1) == s1
    ensures CountSome(s1) == 4
  {
    CountSomeLive(s1);
    assert Live(s1) == {0, 1, 2, 3};
    forall i | 0 <= i < 4
      ensures !Crowded(s1, i)
    {
    }
  }

  /** After the second tick of the example the first three particles meet. */
  lemma SecondTick(s2: seq<Option<Particle>>)
    requires s2 == [Drifting(0, 3), Drifting(0, 2), Drifting(0, 1), Drifting(1, -1)]
    ensures |Collided(s2)| == 3
    ensures CountSome(Survivors(s2)) == 1
  {
    assert Crowded(s2, 0) by { assert s2[1].value.position == s2[0].value.position; }
    assert Crowded(s2, 1) by { assert s2[0].value.position == s2[1].value.position; }
    assert Crowded(s2, 2) by { assert s2[0].value.position == s2[2].value.position; }
    assert !Crowded(s2, 3);
    assert Collided(s2) == {0, 1, 2};
    var r := Survivors(s2);
    CountSomeLive(r);
    assert Live(r) == {3};
  }

  /** `Collider`: the particles in their slots, a slot emptied once its particle collides. */
  class Collider {
    var particles: seq<Option<Particle>>

    /** `Collider::new`: every particle in a slot of its own, in order. */
    constructor (ps: seq<Particle>)
      ensures |particles| == |ps|
      ensures forall i :: 0 <= i < |ps| ==> particles[i] == Some(ps[i])
    {
      particles := seq(|ps|, i requires 0 <= i < |ps| => Some(ps[i]));
    }

    /** `count`: the number of particles left. */
    function Count(): (n: nat)
      reads this
      ensures n == |Live(particles)|
    {
      CountSomeLive(particles);
      CountSome(particles)
    }

    /** `tick`: updates every particle once, noting the slots at each new position, then
        empties every slot whose position is shared, returning how many it emptied. */
    method Tick() returns (removed: nat)
      modifies this
      ensures particles == Survivors(Stepped(old(particles)))
      ensures removed == |Collided(Stepped(old(particles)))|
    {
      var positions := StepAll();
      removed := TakeCrowded(positions);
    }

    /** The first loop of `tick`: updates every particle in its slot and lists, for every
        position reached, the slots of the particles there in increasing order. */
    method StepAll() returns (positions: map<Vec3, seq<int>>)
      modifies this
      ensures particles == Stepped(old(particles))
      ensures Indexed(positions, particles, |particles|)
    {
      ghost var st := Stepped(particles);
      var n := |particles|;
      positions := map[];
      var i := 0;
      while i < n
        invariant 0 <= i <= n == |particles| == |st|
        invariant forall j :: 0 <= j < i ==> particles[j] == st[j]
        invariant forall j :: i <= j < n ==> particles[j] == old(particles)[j]
        invariant Indexed(positions, st, i)
      {
        var next := i + 1;
        ghost var before := positions;
        if particles[i].Some? {
          var particle := Update(particles[i].value);
          particles := particles[i := Some(particle)];
          var q := particle.position;
          var at := if q in positions then positions[q] else [];
          positions := positions[q := at + [i]];
        }
        IndexedNext(before, positions, st, i, next);
        i := next;
      }
      assert particles == st;
    }

    /** The second loop of `tick`: empties the slots of every position holding more than one
        particle, counting the slots emptied. The positions are visited in any order. */
    method TakeCrowded(positions: map<Vec3, seq<int>>) returns (removed: nat)
      requires Indexed(positions, particles, |particles|)
      modifies this
      ensures particles == Survivors(old(particles))
      ensures removed == |Collided(old(particles))|
    {
      ghost var st := particles;
      removed := 0;
      var keys := positions.Keys;
      DoneStart(positions, st);
      while keys != {}
        invariant keys <= positions.Keys
        invariant Emptied(particles, st, Done(st, keys))
        invariant removed == |Done(st, keys)|
        decreases |keys|
      {
        var k :| k in keys;
        var count := TakeAt(positions[k], st, k, keys);
        removed := removed + count;
        keys := keys - {k};
      }
      assert Done(st, {}) == Collided(st);
      assert particles == Survivors(st);
    }

    /** One step of the second loop: empties the slots listed at position `k` when there is
        more than one, completing the colliding slots at `k`. */
    method TakeAt(slots: seq<int>, ghost st: seq<Option<Particle>>, ghost k: Vec3, ghost keys: set<Vec3>)
      returns (count: nat)
      requires slots == IndicesAt(st, k, |st|) && k in keys
      requires Emptied(particles, st, Done(st, keys))
      modifies this
      ensures Emptied(particles, st, Done(st, keys - {k}))
      ensures |Done(st, keys - {k})| == |Done(st, keys)| + count
    {
      ghost var gone := Done(st, keys);
      DoneNext(st, keys, k);
      CrowdedAtListed(st, k, slots);
      if |slots| > 1 {
        SlotsPending(st, keys, k, slots);
        count := EmptySlots(slots, st, gone);
        assert Done(st, keys - {k}) == gone + Elements(slots, |slots|);
      } else {
        count := 0;
        assert Done(st, keys - {k}) == gone;
      }
    }

    /** Empties the listed slots, which are distinct and not yet empty, counting them. */
    method EmptySlots(slots: seq<int>, ghost st: seq<Option<Particle>>, ghost gone: set<int>) returns (count: nat)
      requires Emptied(particles, st, gone)
      requires forall a :: 0 <= a < |slots| ==> 0 <= slots[a] < |st| && slots[a] !in gone
      requires forall a, b :: 0 <= a < b < |slots| ==> slots[a] < slots[b]
      modifies this
      ensures Emptied(particles, st, gone + Elements(slots, |slots|))
      ensures count == |slots| && |gone + Elements(slots, |slots|)| == |gone| + count
    {
      count := 0;
      while count < |slots|
        invariant count <= |slots|
        invariant Emptied(particles, st, gone + Elements(slots, count))
        invariant |gone + Elements(slots, count)| == |gone| + count
      {
        ghost var before := particles;
        ElementsNext(slots, count);
        particles := particles[slots[count] := None];
        EmptiedNext(before, particles, st, gone + Elements(slots, count), slots[count]);
        count := count + 1;
      }
    }
  }
}
