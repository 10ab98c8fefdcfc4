/** The village of programs connected by pipes: a map from each program to the programs it
    talks to, a depth-first searcher for the programs connected to one of them, and the count
    of separate groups. */
module Plumber {
  import opened Common

  /** Programs and their pipes: each known program with the set of programs it talks to. */
  type Pipes = map<nat, set<nat>>

  /** The programs `p` talks to, none when `p` is unknown. */
  function Neighbors(g: Pipes, p: nat): set<nat>
  {
    if p in g then g[p] else {}
  }

  /** Every pipe works both ways. */
  ghost predicate Symmetric(g: Pipes)
  {
    forall a, b :: a in g && b in g[a] ==> b in g && a in g[b]
  }

  /** Every program some program of `s` talks to. */
  ghost function Neigh(g: Pipes, s: set<nat>): set<nat>
  {
    set a, b | a in s && a in g && b in g[a] :: b
  }

  /** The programs reachable from `a` over at most `n` pipes. */
  ghost function Within(g: Pipes, a: nat, n: nat): set<nat>
  {
    if n == 0 then {a} else Within(g, a, n - 1) + Neigh(g, Within(g, a, n - 1))
  }

  /** `x` is reachable from `a` over some number of pipes, none included. */
  ghost predicate Reaches(g: Pipes, a: nat, x: nat)
  {
    exists n: nat :: x in Within(g, a, n)
  }

  /** The programs found from `p`: every program a program reachable from `p` talks to. */
  ghost function Reached(g: Pipes, p: nat): set<nat>
  {
    set a, b | a in g && b in g[a] && Reaches(g, p, a) :: b
  }

  /** The groups of the village: the programs found from each known program. */
  ghost function Groups(g: Pipes): set<set<nat>>
  {
    set p | p in g :: Reached(g, p)
  }

  /** Every program of `s` is known and talks only to programs of `s`. */
  ghost predicate Closed(g: Pipes, s: set<nat>)
  {
    forall x :: x in s ==> x in g && g[x] <= s
  }

  lemma NeighMono(g: Pipes, s: set<nat>, t: set<nat>)
    requires s <= t
    ensures Neigh(g, s) <= Neigh(g, t)
  {
  }

  /** A program reaches itself. */
  lemma ReachesSelf(g: Pipes, a: nat)
    ensures Reaches(g, a, a)
  {
    assert a in Within(g, a, 0);
  }

  /** A program reaches whatever a program it reaches talks to. */
  lemma ReachesStep(g: Pipes, a: nat, y: nat, x: nat)
    requires Reaches(g, a, y) && y in g && x in g[y]
    ensures Reaches(g, a, x)
  {
    var n: nat :| y in Within(g, a, n);
    assert x in Within(g, a, n + 1);
  }

  /** Reaching a reaching program reaches what it reaches. */
  lemma {:induction false} WithinTrans(g: Pipes, a: nat, b: nat, n: nat, m: nat)
    requires b in Within(g, a, n)
    ensures Within(g, b, m) <= Within(g, a, n + m)
  {
    if m > 0 {
      WithinTrans(g, a, b, n, m - 1);
      NeighMono(g, Within(g, b, m - 1), Within(g, a, n + m - 1));
    }
  }

  lemma ReachesTrans(g: Pipes, a: nat, b: nat, c: nat)
    requires Reaches(g, a, b) && Reaches(g, b, c)
    ensures Reaches(g, a, c)
  {
    var n: nat :| b in Within(g, a, n);
    var m: nat :| c in Within(g, b, m);
    WithinTrans(g, a, b, n, m);
  }

  /** A program reaches whatever a program it talks to reaches. */
  lemma ReachesShift(g: Pipes, a: nat, b: nat, x: nat)
    requires a in g && b in g[a] && Reaches(g, b, x)
    ensures Reaches(g, a, x)
  {
    ReachesSelf(g, a);
    ReachesStep(g, a, a, b);
    ReachesTrans(g, a, b, x);
  }

  /** A closed set holding `a` holds everything `a` reaches. */
  lemma {:induction false} WithinClosed(g: Pipes, s: set<nat>, a: nat, n: nat)
    requires a in s && Closed(g, s)
    ensures Within(g, a, n) <= s
  {
    if n > 0 {
      WithinClosed(g, s, a, n - 1);
    }
  }

  lemma ReachesClosed(g: Pipes, s: set<nat>, a: nat, x: nat)
    requires a in s && Closed(g, s) && Reaches(g, a, x)
    ensures x in s
  {
    var n: nat :| x in Within(g, a, n);
    WithinClosed(g, s, a, n);
  }

  /** With pipes working both ways, a program reaches back whatever reaches it. */
  lemma {:induction false} WithinBack(g: Pipes, a: nat, n: nat, x: nat)
    requires Symmetric(g) && x in Within(g, a, n)
    ensures Reaches(g, x, a)
  {
    if n == 0 {
      ReachesSelf(g, a);
    } else if x in Within(g, a, n - 1) {
      WithinBack(g, a, n - 1, x);
    } else {
      var y :| y in Within(g, a, n - 1) && y in g && x in g[y];
      WithinBack(g, a, n - 1, y);
      ReachesBack(g, y, x, a);
    }
  }

  /** With pipes working both ways, a program reaches whatever the programs it talks to reach. */
  lemma ReachesBack(g: Pipes, y: nat, x: nat, a: nat)
    requires Symmetric(g) && y in g && x in g[y] && Reaches(g, y, a)
    ensures Reaches(g, x, a)
  {
    assert x in g && y in g[x];
    ReachesShift(g, x, y, a);
  }

  /** With pipes working both ways, every program a known program reaches is known. */
  lemma {:induction false} WithinKnown(g: Pipes, a: nat, n: nat, x: nat)
    requires Symmetric(g) && a in g && x in Within(g, a, n)
    ensures x in g
  {
    if n > 0 && x !in Within(g, a, n - 1) {
      var y :| y in Within(g, a, n - 1) && y in g && x in g[y];
    } else if n > 0 {
      WithinKnown(g, a, n - 1, x);
    }
  }

  lemma ReachesKnown(g: Pipes, a: nat)
    requires Symmetric(g) && a in g
    ensures forall x :: Reaches(g, a, x) ==> x in g
  {
    forall x | Reaches(g, a, x)
      ensures x in g
    {
      var n: nat :| x in Within(g, a, n);
      WithinKnown(g, a, n, x);
    }
  }

  /** With pipes working both ways, a program found from `q` has the same group as `q`. */
  lemma SameGroup(g: Pipes, q: nat, p: nat)
    requires Symmetric(g) && p in Reached(g, q)
    ensures Reached(g, p) == Reached(g, q)
  {
    var y :| y in g && p in g[y] && Reaches(g, q, y);
    ReachesStep(g, q, y, p);
    var n: nat :| p in Within(g, q, n);
    WithinBack(g, q, n, p);
    forall x | x in Reached(g, p)
      ensures x in Reached(g, q)
    {
      var z :| z in g && x in g[z] && Reaches(g, p, z);
      ReachesTrans(g, q, p, z);
    }
    forall x | x in Reached(g, q)
      ensures x in Reached(g, p)
    {
      var z :| z in g && x in g[z] && Reaches(g, q, z);
      ReachesTrans(g, p, q, z);
    }
  }

  /** Every program of `s` is known and talks only to programs found in `f`. */
  ghost predicate Expanded(g: Pipes, s: set<nat>, f: set<nat>)
  {
    forall x :: x in s ==> x in g && g[x] <= f
  }

  /** Once the programs reachable from `p` are exactly the closed set `s`, what is found from
      `p` is what the programs of `s` talk to. */
  lemma GroupOf(g: Pipes, p: nat, s: set<nat>)
    requires p in s && Closed(g, s) && forall c :: c in s ==> Reaches(g, p, c)
    ensures Reached(g, p) == Neigh(g, s)
  {
    forall x | x in Reached(g, p)
      ensures x in Neigh(g, s)
    {
      var a :| a in g && x in g[a] && Reaches(g, p, a);
      ReachesClosed(g, s, p, a);
    }
  }

  /** The programs of `xs`. */
  function Elements(xs: seq<nat>): set<nat>
  {
    set x | x in xs
  }

  /** Strictly ascending: sorted, and so without duplicates. */
  predicate Ascending(xs: seq<nat>)
  {
    forall i, j :: 0 <= i < j < |xs| ==> xs[i] < xs[j]
  }

  lemma ElementsCons(h: nat, t: seq<nat>)
    ensures Elements([h] + t) == {h} + Elements(t)
  {
    assert forall y :: y in [h] + t <==> y == h || y in t;
  }

  lemma AscendingCons(h: nat, t: seq<nat>)
    requires Ascending(t) && forall y :: y in Elements(t) ==> h < y
    ensures Ascending([h] + t)
  {
    assert forall k :: 0 <= k < |t| ==> t[k] in Elements(t);
  }

  lemma AscendingTail(xs: seq<nat>)
    requires Ascending(xs) && xs != []
    ensures Ascending(xs[1..]) && forall y :: y in Elements(xs[1..]) ==> xs[0] < y
    ensures Elements(xs) == {xs[0]} + Elements(xs[1..])
  {
    ElementsCons(xs[0], xs[1..]);
    assert xs == [xs[0]] + xs[1..];
  }

  /** `x` inserted in its place in an ascending list. */
  function Insert(xs: seq<nat>, x: nat): (r: seq<nat>)
    requires Ascending(xs) && x !in xs
    ensures Ascending(r) && Elements(r) == Elements(xs) + {x}
  {
    if xs == [] then [x]
    else if x < xs[0] then
      AscendingTail(xs);
      AscendingCons(x, xs);
      ElementsCons(x, xs);
      [x] + xs
    else
      AscendingTail(xs);
      var rest := Insert(xs[1..], x);
      AscendingCons(xs[0], rest);
      ElementsCons(xs[0], rest);
      [xs[0]] + rest
  }

  /** The elements of a set in ascending order: `collect` followed by `sort`. */
  method SortedList(s: set<nat>) returns (r: seq<nat>)
    ensures Ascending(r) && Elements(r) == s
  {
    r := [];
    var rest := s;
    while rest != {}
      invariant rest <= s && Ascending(r) && Elements(r) == s - rest
      decreases rest
    {
      var x :| x in rest;
      r := Insert(r, x);
      rest := rest - {x};
    }
  }

  lemma ElementsEmpty(xs: seq<nat>)
    ensures Elements(xs) == {} <==> xs == []
  {
    if xs != [] {
      assert xs[0] in Elements(xs);
    }
  }

  /** Two ascending lists with the same elements are the same list. */
  lemma {:induction false} AscendingUnique(xs: seq<nat>, ys: seq<nat>)
    requires Ascending(xs) && Ascending(ys) && Elements(xs) == Elements(ys)
    ensures xs == ys
  {
    ElementsEmpty(xs);
    ElementsEmpty(ys);
    if xs != [] && ys != [] {
      assert xs[0] == ys[0] by {
        assert xs[0] in Elements(ys) && ys[0] in Elements(xs);
      }
      assert Elements(xs[1..]) == Elements(ys[1..]) by {
        assert xs == [xs[0]] + xs[1..] && ys == [ys[0]] + ys[1..];
        assert Elements(xs) == {xs[0]} + Elements(xs[1..]);
        assert Elements(ys) == {ys[0]} + Elements(ys[1..]);
        assert xs[0] !in Elements(xs[1..]) && ys[0] !in Elements(ys[1..]);
      }
      AscendingUnique(xs[1..], ys[1..]);
    }
  }

  /** `programs` with `other` added to what `prog` talks to, `prog` becoming known. */
  function Inserted(g: Pipes, prog: nat, other: nat): Pipes
  {
    g[prog := Neighbors(g, prog) + {other}]
  }

  /** `programs` after `connect(prog, other)`. */
  function Connected(g: Pipes, prog: nat, other: nat): Pipes
  {
    Inserted(Inserted(g, prog, other), other, prog)
  }

  /** Connecting puts each program among the other's, keeps every pipe there was, and adds
      no other pipe; pipes working both ways keep doing so. */
  lemma ConnectedMeaning(g: Pipes, prog: nat, other: nat)
    ensures var c := Connected(g, prog, other);
      && prog in c && other in c[prog] && other in c && prog in c[other]
      && c.Keys == g.Keys + {prog, other}
      && (forall p :: p in g ==> g[p] <= c[p])
      && (forall p, q :: p in c && q in c[p] ==> (p in g && q in g[p]) || (p == prog && q == other) || (p == other && q == prog))
      && (Symmetric(g) ==> Symmetric(c))
  {
  }

  /** What each program talks to after connecting `prog` and `other`. */
  lemma ConnectedAt(g: Pipes, prog: nat, other: nat)
    ensures var c := Connected(g, prog, other);
      && c.Keys == g.Keys + {prog, other}
      && forall p :: p in c ==> c[p] == Neighbors(g, p) + (if p == prog then {other} else {}) + (if p == other then {prog} else {})
  {
  }

  /** `Village`: the programs each program talks to. */
  class Village {
    var programs: Pipes

    /** Every pipe works both ways: what `connect` keeps true. */
    ghost predicate Valid()
      reads this
    {
      Symmetric(programs)
    }

    /** `Village::new`: no program is known. */
    constructor ()
      ensures programs == map[] && Valid()
    {
      programs := map[];
    }

    /** `insert`: `other` joins the programs `prog` talks to, creating the entry if needed. */
    method Insert(prog: nat, other: nat)
      modifies this
      ensures programs == Inserted(old(programs), prog, other)
    {
      var nbrs := Neighbors(programs, prog);
      programs := programs[prog := nbrs + {other}];
    }

    /** `connect`: a pipe both ways. */
    method Connect(prog: nat, other: nat)
      requires Valid()
      modifies this
      ensures programs == Connected(old(programs), prog, other) && Valid()
    {
      ConnectedMeaning(programs, prog, other);
      Insert(prog, other);
      Insert(other, prog);
    }

    /** `get`: the programs `prog` talks to; an unknown program is an error (the source's
        `unwrap` panics). */
    function Get(prog: nat): (r: Result<set<nat>>)
      reads this
      ensures r.Ok? <==> prog in programs
      ensures r.Ok? ==> r.value == programs[prog]
    {
      if prog in programs then Ok(programs[prog]) else Err("called `Option::unwrap()` on a `None` value")
    }

    /** `connected_to`: the programs found from `start`, ascending. It fails exactly when some
        program reachable from `start` is unknown. */
    method ConnectedTo(start: nat) returns (r: Result<seq<nat>>)
      ensures r.Ok? <==> forall x :: Reaches(programs, start, x) ==> x in programs
      ensures r.Ok? ==> Ascending(r.value) && Elements(r.value) == Reached(programs, start)
    {
      var searcher := new Searcher(this);
      r := searcher.Find(start);
      ghost var g, c, f := programs, searcher.checked, searcher.found;
      if r.Ok? {
        assert Closed(g, c);
        forall x | Reaches(g, start, x)
          ensures x in g
        {
          ReachesClosed(g, c, start, x);
        }
        assert c - {} == c && f - {} == f;
        assert f <= Neigh(g, c);
        GroupOf(g, start, c);
        forall y | y in Neigh(g, c)
          ensures y in f
        {
          var a :| a in c && a in g && y in g[a];
        }
      } else {
        ghost var x :| x !in g && Reaches(g, start, x);
      }
    }

    /** `num_groups`: visits every known program not yet found, and collects the group found
        from it; the number of groups collected is the number of distinct groups. */
    method NumGroups() returns (count: nat)
      requires Valid()
      ensures count == |Groups(programs)|
    {
      var visited: set<nat> := {};
      var results: set<set<nat>> := {};
      var keys := programs.Keys;
      while keys != {}
        invariant keys <= programs.Keys
        invariant results == set p | p in programs.Keys - keys :: Reached(programs, p)
        invariant forall x :: x in visited ==> exists q :: q in programs.Keys - keys && x in Reached(programs, q)
        decreases keys
      {
        var p :| p in keys;
        ghost var done := programs.Keys - keys;
        keys := keys - {p};
        if p !in visited {
          ReachesKnown(programs, p);
          var connected := ConnectedTo(p);
          visited := visited + Elements(connected.value);
          results := results + {Elements(connected.value)};
        } else {
          ghost var q :| q in done && p in Reached(programs, q);
          SameGroup(programs, q, p);
        }
        assert programs.Keys - keys == done + {p};
      }
      assert programs.Keys - keys == programs.Keys;
      count := |results|;
    }
  }

  /** `Searcher`: the programs found so far and those already expanded. */
  class Searcher {
    const village: Village
    var found: set<nat>
    var checked: set<nat>

    /** `Searcher::new`: nothing found or expanded yet. */
    constructor (village: Village)
      ensures this.village == village && found == {} && checked == {}
    {
      this.village := village;
      found, checked := {}, {};
    }

    /** `find`: expands `target` unless it was expanded before, adding every program it talks
        to to the found programs and searching from each in turn; returns all programs found,
        ascending. Each program is expanded at most once. */
    method Find(target: nat) returns (r: Result<seq<nat>>)
      modifies this
      decreases village.programs.Keys - checked
      ensures old(checked) <= checked && old(found) <= found && target in checked
      ensures forall x :: x in checked - old(checked) ==> Reaches(village.programs, target, x)
      ensures r.Ok? ==> Expanded(village.programs, checked - old(checked), found)
      ensures r.Ok? ==> Expanded(village.programs, checked - old(checked), checked)
      ensures r.Ok? ==> found - old(found) <= Neigh(village.programs, checked - old(checked))
      ensures r.Ok? ==> Ascending(r.value) && Elements(r.value) == found
      ensures r.Err? ==> exists x :: x !in village.programs && Reaches(village.programs, target, x)
    {
      if target !in checked {
        ghost var g := village.programs;
        checked := checked + {target};
        var nbrs := village.Get(target);
        if nbrs.Err? {
          ReachesSelf(g, target);
          return Err(nbrs.msg);
        }
        var todo := nbrs.value;
        ReachesSelf(g, target);
        while todo != {}
          invariant todo <= g[target]
          invariant old(checked) + {target} <= checked && old(found) <= found
          invariant g[target] - todo <= found && g[target] - todo <= checked
          invariant Expanded(g, checked - old(checked) - {target}, found)
          invariant Expanded(g, checked - old(checked) - {target}, checked)
          invariant found - old(found) <= Neigh(g, checked - old(checked))
          invariant forall x :: x in checked - old(checked) ==> Reaches(g, target, x)
          decreases todo
        {
          var item :| item in todo;
          todo := todo - {item};
          found := found + {item};
          ghost var checked0, found0 := checked, found;
          assert item in Neigh(g, checked - old(checked));
          var sub := Find(item);
          forall x | x in checked - checked0
            ensures Reaches(g, target, x)
          {
            ReachesShift(g, target, item, x);
          }
          if sub.Err? {
            ghost var x :| x !in g && Reaches(g, item, x);
            ReachesShift(g, target, item, x);
            return Err(sub.msg);
          }
          NeighMono(g, checked - checked0, checked - old(checked));
          NeighMono(g, checked0 - old(checked), checked - old(checked));
        }
      }
      var list := SortedList(found);
      r := Ok(list);
    }
  }
}

module PlumberSample {
  import opened Common
  import opened Plumber

  /** The pipes of the sample village: 1-2, 1-3, 2-4 and 5-6. */
  ghost predicate SampleShape(g: Pipes)
  {
    && g.Keys == {1, 2, 3, 4, 5, 6}
    && g[1] == {2, 3} && g[2] == {1, 4} && g[3] == {1} && g[4] == {2}
    && g[5] == {6} && g[6] == {5}
  }

  lemma ConnectFirst(g0: Pipes, g1: Pipes)
    requires g0 == map[] && g1 == Connected(g0, 1, 2)
    ensures g1.Keys == {1, 2} && g1[1] == {2} && g1[2] == {1}
  {
    ConnectedAt(g0, 1, 2);
  }

  lemma ConnectSecond(g1: Pipes, g2: Pipes)
    requires g1.Keys == {1, 2} && g1[1] == {2} && g1[2] == {1}
    requires g2 == Connected(g1, 1, 3)
    ensures g2.Keys == {1, 2, 3} && g2[1] == {2, 3} && g2[2] == {1} && g2[3] == {1}
  {
    ConnectedAt(g1, 1, 3);
  }

  lemma ConnectThird(g2: Pipes, g3: Pipes)
    requires g2.Keys == {1, 2, 3} && g2[1] == {2, 3} && g2[2] == {1} && g2[3] == {1}
    requires g3 == Connected(g2, 2, 4)
    ensures g3.Keys == {1, 2, 3, 4} && g3[1] == {2, 3} && g3[2] == {1, 4} && g3[3] == {1} && g3[4] == {2}
  {
    ConnectedAt(g2, 2, 4);
  }

  lemma ConnectFourth(g3: Pipes, g4: Pipes)
    requires g3.Keys == {1, 2, 3, 4} && g3[1] == {2, 3} && g3[2] == {1, 4} && g3[3] == {1} && g3[4] == {2}
    requires g4 == Connected(g3, 5, 6)
    ensures SampleShape(g4)
  {
    ConnectedAt(g3, 5, 6);
  }

  /** Connecting 1-2, 1-3, 2-4 and 5-6 in turn yields the sample pipes. */
  lemma SampleConnected(g0: Pipes, g1: Pipes, g2: Pipes, g3: Pipes, g4: Pipes)
    requires g0 == map[] && g1 == Connected(g0, 1, 2) && g2 == Connected(g1, 1, 3)
    requires g3 == Connected(g2, 2, 4) && g4 == Connected(g3, 5, 6)
    ensures SampleShape(g4)
  {
    ConnectFirst(g0, g1);
    ConnectSecond(g1, g2);
    ConnectThird(g2, g3);
    ConnectFourth(g3, g4);
  }

  /** The sample's pipes work both ways. */
  lemma SampleSymmetric(g: Pipes)
    requires SampleShape(g)
    ensures Symmetric(g)
  {
    forall a, b | a in g && b in g[a]
      ensures b in g && a in g[b]
    {
      assert a in {1, 2, 3, 4, 5, 6};
      if a == 1 {
        assert b == 2 || b == 3;
      } else if a == 2 {
        assert b == 1 || b == 4;
      }
    }
  }

  /** What the programs 1, 2, 3 and 4 talk to is 1, 2, 3 and 4 again. */
  lemma FirstClosed(g: Pipes)
    requires SampleShape(g)
    ensures Closed(g, {1, 2, 3, 4}) && Neigh(g, {1, 2, 3, 4}) == {1, 2, 3, 4}
  {
    var s := {1, 2, 3, 4};
    forall y | y in Neigh(g, s)
      ensures y in s
    {
      var a :| a in s && a in g && y in g[a];
      assert a == 1 || a == 2 || a == 3 || a == 4;
    }
    assert 2 in g[1] && 3 in g[1] && 1 in g[2] && 4 in g[2];
  }

  /** The programs found from 1: 1, 2, 3 and 4. */
  lemma FirstGroupFromOne(g: Pipes)
    requires SampleShape(g)
    ensures Reached(g, 1) == {1, 2, 3, 4}
  {
    ReachesSelf(g, 1);
    ReachesStep(g, 1, 1, 2);
    ReachesStep(g, 1, 1, 3);
    ReachesStep(g, 1, 2, 4);
    FirstClosed(g);
    GroupOf(g, 1, {1, 2, 3, 4});
  }

  /** The sample's first group: 1, 2, 3 and 4. */
  lemma SampleFirstGroup(g: Pipes, p: nat)
    requires SampleShape(g) && p in {1, 2, 3, 4}
    ensures Reached(g, p) == {1, 2, 3, 4}
  {
    FirstGroupFromOne(g);
    if p != 1 {
      SampleSymmetric(g);
      SameGroup(g, 1, p);
    }
  }

  /** What the programs 5 and 6 talk to is 5 and 6 again. */
  lemma SecondClosed(g: Pipes)
    requires SampleShape(g)
    ensures Closed(g, {5, 6}) && Neigh(g, {5, 6}) == {5, 6}
  {
    var s := {5, 6};
    forall y | y in Neigh(g, s)
      ensures y in s
    {
      var a :| a in s && a in g && y in g[a];
      assert a == 5 || a == 6;
    }
    assert 6 in g[5] && 5 in g[6];
  }

  /** The programs found from 5: 5 and 6. */
  lemma SecondGroupFromFive(g: Pipes)
    requires SampleShape(g)
    ensures Reached(g, 5) == {5, 6}
  {
    ReachesSelf(g, 5);
    ReachesStep(g, 5, 5, 6);
    SecondClosed(g);
    GroupOf(g, 5, {5, 6});
  }

  /** The sample's second group: 5 and 6. */
  lemma SampleSecondGroup(g: Pipes, p: nat)
    requires SampleShape(g) && p in {5, 6}
    ensures Reached(g, p) == {5, 6}
  {
    SecondGroupFromFive(g);
    if p != 5 {
      SampleSymmetric(g);
      SameGroup(g, 5, p);
    }
  }

  /** Each program of the sample is in one of its two groups. */
  lemma SampleGroupOf(g: Pipes, p: nat)
    requires SampleShape(g) && p in g
    ensures Reached(g, p) == {1, 2, 3, 4} || Reached(g, p) == {5, 6}
  {
    if p in {1, 2, 3, 4} {
      SampleFirstGroup(g, p);
    } else {
      SampleSecondGroup(g, p);
    }
  }

  /** The sample village's groups: 1, 2, 3, 4 and 5, 6. */
  lemma SampleGroups(g: Pipes)
    requires SampleShape(g)
    ensures Groups(g) == {{1, 2, 3, 4}, {5, 6}}
  {
    forall x | x in Groups(g)
      ensures x == {1, 2, 3, 4} || x == {5, 6}
    {
      var p :| p in g && x == Reached(g, p);
      SampleGroupOf(g, p);
    }
    FirstGroupFromOne(g);
    SecondGroupFromFive(g);
    assert Reached(g, 1) in Groups(g) && Reached(g, 5) in Groups(g);
  }

  /** The sample village has two groups. */
  lemma SampleGroupCount(g: Pipes)
    requires SampleShape(g)
    ensures |Groups(g)| == 2
  {
    SampleGroups(g);
    assert {1, 2, 3, 4} != {5, 6} by { assert 1 !in {5, 6}; }
  }

  lemma FirstListFacts()
    ensures Ascending([1, 2, 3, 4]) && Elements([1, 2, 3, 4]) == {1, 2, 3, 4}
  {
    ElementsCons(1, [2, 3, 4]);
    ElementsCons(2, [3, 4]);
    ElementsCons(3, [4]);
  }

  /** The ascending list of the programs found from a program of the first group. */
  lemma FirstList(g: Pipes, p: nat, xs: seq<nat>)
    requires SampleShape(g) && p in {1, 2, 3, 4} && Ascending(xs) && Elements(xs) == Reached(g, p)
    ensures xs == [1, 2, 3, 4]
  {
    SampleFirstGroup(g, p);
    FirstListFacts();
    AscendingUnique(xs, [1, 2, 3, 4]);
  }

  /** The ascending list of the programs found from a program of the second group. */
  lemma SecondList(g: Pipes, p: nat, xs: seq<nat>)
    requires SampleShape(g) && p in {5, 6} && Ascending(xs) && Elements(xs) == Reached(g, p)
    ensures xs == [5, 6]
  {
    SampleSecondGroup(g, p);
    assert Elements([5, 6]) == {5, 6};
    AscendingUnique(xs, [5, 6]);
  }

  /** The test of `Village`: the programs connected to 1, 5 and 6 and the number of groups
      after connecting 1-2, 1-3, 2-4 and 5-6. */
  method Sample() returns (one: Result<seq<nat>>, five: Result<seq<nat>>, six: Result<seq<nat>>, groups: nat)
    ensures one == Ok([1, 2, 3, 4]) && five == Ok([5, 6]) && six == Ok([5, 6]) && groups == 2
  {
    var v := new Village();
    ghost var g0 := v.programs;
    v.Connect(1, 2);
    ghost var g1 := v.programs;
    v.Connect(1, 3);
    ghost var g2 := v.programs;
    v.Connect(2, 4);
    ghost var g3 := v.programs;
    v.Connect(5, 6);
    ghost var g := v.programs;
    SampleConnected(g0, g1, g2, g3, g);
    ReachesKnown(g, 1);
    one := v.ConnectedTo(1);
    FirstList(g, 1, one.value);
    ReachesKnown(g, 5);
    five := v.ConnectedTo(5);
    SecondList(g, 5, five.value);
    ReachesKnown(g, 6);
    six := v.ConnectedTo(6);
    SecondList(g, 6, six.value);
    groups := v.NumGroups();
    SampleGroupCount(g);
  }
}
