/** Dueling generators: each generator multiplies its previous value by a factor and keeps the
    remainder by a divisor; a picky variant only hands out values divisible by a check
    number; a judge compares the lowest 16 bits of the two generators' values. */
module Generators {
  import opened Common
  import opened Arith

  /** The value of a generator with the given factor and divisor after `k` steps from `start`. */
  function Value(factor: nat, div: nat, start: nat, k: nat): nat
    requires div > 0
  {
    if k == 0 then start else (Value(factor, div, start, k - 1) * factor) % div
  }

  /** The first `n` values handed out from `start` (the start itself is never handed out). */
  function Outputs(factor: nat, div: nat, start: nat, n: nat): (r: seq<nat>)
    requires div > 0
    ensures |r| == n
  {
    if n == 0 then [] else Outputs(factor, div, start, n - 1) + [Value(factor, div, start, n)]
  }

  /** The `i`-th value handed out is the value after `i + 1` steps. */
  lemma {:induction false} OutputsAt(factor: nat, div: nat, start: nat, n: nat, i: nat)
    requires div > 0 && i < n
    ensures Outputs(factor, div, start, n)[i] == Value(factor, div, start, i + 1)
  {
    if i < n - 1 {
      OutputsAt(factor, div, start, n - 1, i);
    }
  }

  /** `factor` multiplied by itself `k` times. */
  function Power(factor: nat, k: nat): nat
  {
    if k == 0 then 1 else Power(factor, k - 1) * factor
  }

  /** Every value handed out is below the divisor, and the value after `k` steps is
      `start · factor^k` reduced once by the divisor: reducing at every step changes nothing. */
  lemma {:induction false} ValuePower(factor: nat, div: nat, start: nat, k: nat)
    requires div > 0
    ensures k > 0 ==> Value(factor, div, start, k) < div
    ensures k > 0 ==> Value(factor, div, start, k) == (start * Power(factor, k)) % div
  {
    if k > 1 {
      var m := k - 1;
      ValuePower(factor, div, start, m);
      var x := start * Power(factor, m);
      MulMod(x, factor, div);
      assert start * Power(factor, k) == x * factor by {
        assert Power(factor, k) == Power(factor, m) * factor;
      }
    }
  }

  /** Reducing a factor first does not change the remainder of a product. */
  lemma MulMod(x: nat, f: nat, d: nat)
    requires d > 0
    ensures ((x % d) * f) % d == (x * f) % d
  {
    var q, r := x / d, x % d;
    assert x * f == d * (q * f) + r * f by {
      assert x == d * q + r;
      assert (d * q + r) * f == d * q * f + r * f;
    }
    ModMultipleAdd(q * f, r * f, d);
  }

  /** Adding a multiple of the divisor does not change the remainder. */
  lemma ModMultipleAdd(m: int, y: int, d: int)
    requires d > 0
    ensures (d * m + y) % d == y % d
  {
    assert y == d * (y / d) + y % d;
    assert d * m + y == d * (m + y / d) + y % d;
    DivUnique(d * m + y, d, m + y / d, y % d);
  }

  /** The values handed out after `j` steps continue from the value reached after `j` steps. */
  lemma {:induction false} OutputsSplit(factor: nat, div: nat, start: nat, j: nat, k: nat)
    requires div > 0
    ensures Outputs(factor, div, start, j + k) ==
      Outputs(factor, div, start, j) + Outputs(factor, div, Value(factor, div, start, j), k)
  {
    if k > 0 {
      OutputsSplit(factor, div, start, j, k - 1);
      ValueSplit(factor, div, start, j, k);
    }
  }

  /** `j + k` steps are `k` steps from the value after `j` steps. */
  lemma {:induction false} ValueSplit(factor: nat, div: nat, start: nat, j: nat, k: nat)
    requires div > 0
    ensures Value(factor, div, start, j + k) == Value(factor, div, Value(factor, div, start, j), k)
  {
    if k > 0 {
      ValueSplit(factor, div, start, j, k - 1);
    }
  }

  /** `FactorGenerator`: a factor, a divisor and the previous value. The ghost fields record
      the start and every value handed out so far. */
  class FactorGenerator {
    const factor: nat
    const div: nat
    var prev: nat
    ghost const start: nat
    ghost var outputs: seq<nat>

    /** The previous value is the start stepped once per value handed out, and the values
        handed out are those of the generator from its start. */
    ghost predicate Valid()
      reads this
    {
      div > 0 && prev == Value(factor, div, start, |outputs|) && outputs == Outputs(factor, div, start, |outputs|)
    }

    /** `FactorGenerator::new`: `start` becomes the previous value. */
    constructor (factor: nat, start: nat, div: nat)
      requires div > 0
      ensures this.factor == factor && this.div == div && this.start == start
      ensures prev == start && outputs == [] && Valid()
    {
      this.factor, this.div, this.start := factor, div, start;
      prev := start;
      outputs := [];
    }

    /** `next`: the previous value times the factor, reduced by the divisor, becomes the
        previous value and is handed out. */
    method Next() returns (r: Option<nat>)
      requires Valid()
      modifies this
      ensures Valid()
      ensures prev == (old(prev) * factor) % div && r == Some(prev) && prev < div
      ensures outputs == old(outputs) + [prev]
    {
      var mult := prev * factor;
      var rem := mult % div;
      prev := rem;
      outputs := outputs + [rem];
      r := Some(rem);
    }
  }

  /** The values of `xs` divisible by `check`, in order. */
  function Divisible(xs: seq<nat>, check: nat): (r: seq<nat>)
    requires check > 0
    ensures |r| <= |xs|
  {
    if xs == [] then []
    else Divisible(xs[..|xs| - 1], check) + if xs[|xs| - 1] % check == 0 then [xs[|xs| - 1]] else []
  }

  /** Every value kept is a multiple of `check` taken from `xs`. */
  lemma {:induction false} DivisibleMembers(xs: seq<nat>, check: nat)
    requires check > 0
    ensures forall i :: 0 <= i < |Divisible(xs, check)| ==>
      Divisible(xs, check)[i] % check == 0 && Divisible(xs, check)[i] in xs
  {
    if xs != [] {
      DivisibleMembers(xs[..|xs| - 1], check);
    }
  }

  /** Keeping the divisible values of two runs one after the other keeps those of each run. */
  lemma {:induction false} DivisibleConcat(xs: seq<nat>, ys: seq<nat>, check: nat)
    requires check > 0
    ensures Divisible(xs + ys, check) == Divisible(xs, check) + Divisible(ys, check)
  {
    if ys == [] {
      assert xs + ys == xs;
    } else {
      var front := ys[..|ys| - 1];
      assert (xs + ys)[..|xs + ys| - 1] == xs + front;
      assert (xs + ys)[|xs + ys| - 1] == ys[|ys| - 1];
      DivisibleConcat(xs, front, check);
    }
  }

  /** A run without a divisible value contributes nothing. */
  lemma {:induction false} DivisibleNone(xs: seq<nat>, check: nat)
    requires check > 0 && Indivisible(xs, check)
    ensures Divisible(xs, check) == []
  {
    if xs != [] {
      DivisibleNone(xs[..|xs| - 1], check);
    }
  }

  /** `DivFactorGenerator`: a generator that only hands out the values of `gen` divisible by
      `check`. The ghost fields record how many values `gen` had handed out when it was
      wrapped, and every value handed out by the wrapper. */
  class DivFactorGenerator {
    const gen: FactorGenerator
    const check: nat
    ghost const skipped: nat
    ghost var yielded: seq<nat>

    /** The values handed out are exactly the divisible ones among the values `gen` handed out
        since it was wrapped, in order. */
    ghost predicate Valid()
      reads this, gen
    {
      gen.Valid() && check > 0 && skipped <= |gen.outputs| && yielded == Divisible(gen.outputs[skipped..], check)
    }

    /** `only_div` / `DivFactorGenerator::new`: wraps a generator. */
    constructor (gen: FactorGenerator, check: nat)
      requires gen.Valid() && check > 0
      ensures this.gen == gen && this.check == check && skipped == |gen.outputs| && yielded == []
      ensures Valid()
    {
      this.gen, this.check := gen, check;
      skipped := |gen.outputs|;
      yielded := [];
      new;
      assert gen.outputs[|gen.outputs|..] == [];
    }

    /** `next`: draws values from `gen` until one is divisible by `check` and hands it out.
        The search gives up after `fuel` draws. */
    method Next(fuel: nat) returns (r: Option<nat>)
      requires Valid()
      modifies this, gen
      ensures Valid()
      ensures old(gen.outputs) <= gen.outputs
      ensures var drawn := gen.outputs[|old(gen.outputs)|..];
        && (r.Some? ==> 0 < |drawn| <= fuel && drawn[|drawn| - 1] == r.value && r.value % check == 0
                        && Indivisible(drawn[..|drawn| - 1], check) && yielded == old(yielded) + [r.value])
        && (r.None? ==> |drawn| == fuel && Indivisible(drawn, check) && yielded == old(yielded))
    {
      ghost var before := gen.outputs;
      var i := 0;
      while i < fuel
        invariant i <= fuel && gen.Valid() && before <= gen.outputs && |gen.outputs| == |before| + i
        invariant Indivisible(gen.outputs[|before|..], check)
        invariant yielded == old(yielded) && yielded == Divisible(gen.outputs[skipped..], check)
      {
        ghost var seen := gen.outputs;
        var n := gen.Next();
        DrawnNext(seen, gen.outputs, n.value, skipped, check);
        assert gen.outputs[|before|..] == seen[|before|..] + [n.value];
        if n.value % check == 0 {
          yielded := yielded + [n.value];
          assert gen.outputs[|before|..][..i] == seen[|before|..];
          return Some(n.value);
        }
        IndivisibleSnoc(seen[|before|..], n.value, check);
        i := i + 1;
      }
      return None;
    }
  }

  /** No value of `xs` is divisible by `check`. */
  ghost predicate Indivisible(xs: seq<nat>, check: nat)
    requires check > 0
  {
    forall i :: 0 <= i < |xs| ==> xs[i] % check != 0
  }

  lemma IndivisibleSnoc(xs: seq<nat>, n: nat, check: nat)
    requires check > 0 && Indivisible(xs, check) && n % check != 0
    ensures Indivisible(xs + [n], check)
  {
  }

  /** Drawing one more value extends the divisible values by it exactly when it is divisible. */
  lemma DrawnNext(seen: seq<nat>, now: seq<nat>, n: nat, skipped: nat, check: nat)
    requires check > 0 && skipped <= |seen| && now == seen + [n]
    ensures now[skipped..] == seen[skipped..] + [n]
    ensures Divisible(now[skipped..], check) ==
      Divisible(seen[skipped..], check) + if n % check == 0 then [n] else []
  {
    assert now[skipped..] == seen[skipped..] + [n];
    DivisibleConcat(seen[skipped..], [n], check);
    assert [n][..0] == [];
  }

  /** The lowest `k` binary digits of `a`, lowest first: what `format!("{:016b}", a)` read
      backwards and cut to `k` characters gives. */
  function LowBits(a: nat, k: nat): (r: string)
    ensures |r| == k
  {
    if k == 0 then [] else [if a % 2 == 0 then '0' else '1'] + LowBits(a / 2, k - 1)
  }

  /** Two to the `k`. */
  function Pow2(k: nat): (r: nat)
    ensures r > 0
  {
    if k == 0 then 1 else 2 * Pow2(k - 1)
  }

  /** The judge's test: the lowest 16 binary digits of the two values agree. */
  predicate Judge(a: nat, b: nat)
  {
    LowBits(a, 16) == LowBits(b, 16)
  }

  /** The lowest `k` digits agree exactly when the values agree modulo `2^k`. */
  lemma {:induction false} LowBitsEq(a: nat, b: nat, k: nat)
    ensures LowBits(a, k) == LowBits(b, k) <==> a % Pow2(k) == b % Pow2(k)
  {
    if k > 0 {
      var p := Pow2(k - 1);
      LowBitsEq(a / 2, b / 2, k - 1);
      ModDouble(a, p);
      ModDouble(b, p);
      var la, lb := LowBits(a, k), LowBits(b, k);
      if la == lb {
        assert la[0] == lb[0] && la[1..] == lb[1..];
      }
    }
  }

  /** The remainder by `2 p` is the lowest bit plus twice the remainder of the half by `p`. */
  lemma ModDouble(a: nat, p: nat)
    requires p > 0
    ensures a % (2 * p) == a % 2 + 2 * ((a / 2) % p)
  {
    var h := a / 2;
    assert a == 2 * h + a % 2;
    assert h == p * (h / p) + h % p;
    assert a == 2 * p * (h / p) + (a % 2 + 2 * (h % p));
    DivUnique(a, 2 * p, h / p, a % 2 + 2 * (h % p));
  }

  /** The judge matches a pair exactly when the values agree modulo 65536. */
  lemma JudgeIff(a: nat, b: nat)
    ensures Judge(a, b) <==> a % 65536 == b % 65536
  {
    LowBitsEq(a, b, 16);
    Pow16();
  }

  lemma Pow16()
    ensures Pow2(16) == 65536
  {
    assert Pow2(4) == 16;
    assert Pow2(8) == 256;
    assert Pow2(12) == 4096;
  }

  /** How many of the first `n` pairs the judge matches. */
  function Matches(xs: seq<nat>, ys: seq<nat>, n: nat): nat
    requires n <= |xs| && n <= |ys|
  {
    if n == 0 then 0 else Matches(xs, ys, n - 1) + if Judge(xs[n - 1], ys[n - 1]) then 1 else 0
  }

  /** The judge of `run`: draws `pairs` values from each generator and counts the pairs whose
      lowest 16 binary digits agree. */
  method CountMatches(a: FactorGenerator, b: FactorGenerator, pairs: nat) returns (count: nat)
    requires a.Valid() && b.Valid() && a != b
    modifies a, b
    ensures a.Valid() && b.Valid()
    ensures |a.outputs| == |old(a.outputs)| + pairs && |b.outputs| == |old(b.outputs)| + pairs
    ensures count == Matches(a.outputs[|old(a.outputs)|..], b.outputs[|old(b.outputs)|..], pairs)
  {
    ghost var startA, startB := a.outputs, b.outputs;
    count := 0;
    var i := 0;
    while i < pairs
      invariant 0 <= i <= pairs && a.Valid() && b.Valid()
      invariant startA <= a.outputs && |a.outputs| == |startA| + i
      invariant startB <= b.outputs && |b.outputs| == |startB| + i
      invariant count == Matches(a.outputs[|startA|..], b.outputs[|startB|..], i)
    {
      ghost var seenA, seenB := a.outputs, b.outputs;
      var x := a.Next();
      var y := b.Next();
      MatchesNext(seenA, a.outputs, seenB, b.outputs, |startA|, |startB|, i);
      if Judge(x.value, y.value) {
        count := count + 1;
      }
      i := i + 1;
    }
  }

  /** One more pair drawn adds one to the count exactly when the judge matches it. */
  lemma MatchesNext(seenA: seq<nat>, nowA: seq<nat>, seenB: seq<nat>, nowB: seq<nat>, fromA: nat, fromB: nat, i: nat)
    requires fromA + i == |seenA| && fromB + i == |seenB|
    requires |nowA| == |seenA| + 1 && seenA <= nowA && |nowB| == |seenB| + 1 && seenB <= nowB
    ensures Matches(nowA[fromA..], nowB[fromB..], i + 1) ==
      Matches(seenA[fromA..], seenB[fromB..], i) + if Judge(nowA[|seenA|], nowB[|seenB|]) then 1 else 0
  {
    MatchesPrefix(seenA[fromA..], nowA[fromA..], seenB[fromB..], nowB[fromB..], i);
  }

  /** The count over a prefix does not look past it. */
  lemma {:induction false} MatchesPrefix(xs: seq<nat>, xs': seq<nat>, ys: seq<nat>, ys': seq<nat>, n: nat)
    requires n <= |xs| && n <= |ys| && xs <= xs' && ys <= ys'
    ensures Matches(xs', ys', n) == Matches(xs, ys, n)
  {
    if n > 0 {
      MatchesPrefix(xs, xs', ys, ys', n - 1);
    }
  }

  /** The second judge of `run`: zips two picky generators, `pairs` pairs at most, and counts
      the pairs whose lowest 16 binary digits agree. The zip stops early only when a search for
      a divisible value gives up after `fuel` draws; `judged` is the number of pairs compared. */
  method CountPickyMatches(a: DivFactorGenerator, b: DivFactorGenerator, pairs: nat, fuel: nat)
    returns (count: nat, judged: nat)
    requires a.Valid() && b.Valid() && a != b && a.gen != b.gen
    modifies a, b, a.gen, b.gen
    ensures a.Valid() && b.Valid() && judged <= pairs
    ensures old(a.yielded) <= a.yielded && |a.yielded| >= |old(a.yielded)| + judged
    ensures old(b.yielded) <= b.yielded && |b.yielded| >= |old(b.yielded)| + judged
    ensures count == Matches(a.yielded[|old(a.yielded)|..], b.yielded[|old(b.yielded)|..], judged)
  {
    ghost var startA, startB := a.yielded, b.yielded;
    count, judged := 0, 0;
    while judged < pairs
      invariant judged <= pairs && a.Valid() && b.Valid()
      invariant startA <= a.yielded && |a.yielded| == |startA| + judged
      invariant startB <= b.yielded && |b.yielded| == |startB| + judged
      invariant count == Matches(a.yielded[|startA|..], b.yielded[|startB|..], judged)
    {
      ghost var seenA, seenB := a.yielded, b.yielded;
      var x, y := DrawPair(a, b, fuel);
      if y.None? {
        MatchesPrefix(seenA[|startA|..], a.yielded[|startA|..], seenB[|startB|..], b.yielded[|startB|..], judged);
        return;
      }
      MatchesNext(seenA, a.yielded, seenB, b.yielded, |startA|, |startB|, judged);
      if Judge(x, y.value) {
        count := count + 1;
      }
      judged := judged + 1;
    }
  }

  /** One step of the zip: a value from `a`, then, if there was one, a value from `b`. */
  method DrawPair(a: DivFactorGenerator, b: DivFactorGenerator, fuel: nat) returns (x: nat, y: Option<nat>)
    requires a.Valid() && b.Valid() && a != b && a.gen != b.gen
    modifies a, b, a.gen, b.gen
    ensures a.Valid() && b.Valid()
    ensures old(a.yielded) <= a.yielded <= old(a.yielded) + [x] && old(b.yielded) <= b.yielded
    ensures y.Some? ==> a.yielded == old(a.yielded) + [x] && b.yielded == old(b.yielded) + [y.value]
    ensures y.None? ==> |b.yielded| == |old(b.yielded)|
  {
    var r := a.Next(fuel);
    if r.None? {
      return 0, None;
    }
    x := r.value;
    y := b.Next(fuel);
  }

  /** The values a picky generator wrapped around a fresh generator hands out while the
      inner generator makes its first `n` steps. */
  function Picky(factor: nat, div: nat, start: nat, check: nat, n: nat): seq<nat>
    requires div > 0 && check > 0
  {
    if n == 0 then []
    else Picky(factor, div, start, check, n - 1) + if Value(factor, div, start, n) % check == 0 then [Value(factor, div, start, n)] else []
  }

  /** They are the values divisible by `check` among the first `n` values handed out. */
  lemma {:induction false} PickyDivisible(factor: nat, div: nat, start: nat, check: nat, n: nat)
    requires div > 0 && check > 0
    ensures Picky(factor, div, start, check, n) == Divisible(Outputs(factor, div, start, n), check)
  {
    if n > 0 {
      PickyDivisible(factor, div, start, check, n - 1);
      var outs := Outputs(factor, div, start, n);
      assert outs[..n - 1] == Outputs(factor, div, start, n - 1);
    }
  }

  /** One more step from a known value `p`, whose product with the factor is `quot` times
      the divisor plus `q`: the next value is `q`. */
  lemma Step(factor: nat, div: nat, start: nat, n: nat, p: nat, quot: nat, q: nat)
    requires div > 0 && Value(factor, div, start, n) == p
    requires p * factor == quot * div + q && q < div
    ensures Value(factor, div, start, n + 1) == q
    ensures Outputs(factor, div, start, n + 1) == Outputs(factor, div, start, n) + [q]
  {
    DivUnique(p * factor, div, quot, q);
  }

  /** The same step seen by a picky generator: it keeps `q` exactly when `check` divides it. */
  lemma PickyStep(factor: nat, div: nat, start: nat, check: nat, n: nat, p: nat, quot: nat, q: nat)
    requires div > 0 && check > 0 && Value(factor, div, start, n) == p
    requires p * factor == quot * div + q && q < div
    ensures Value(factor, div, start, n + 1) == q
    ensures Picky(factor, div, start, check, n + 1) ==
      Picky(factor, div, start, check, n) + if q % check == 0 then [q] else []
  {
    DivUnique(p * factor, div, quot, q);
  }

  /** The first five values of example generator A (factor 16807). */
  lemma FirstA(start: nat)
    requires start == 65
    ensures Outputs(16807, 2147483647, start, 5) == [1092455, 1181022009, 245556042, 1744312007, 1352636452]
  {
    var m := 0;
    Step(16807, 2147483647, start, m, 65, 0, 1092455);
    m := m + 1;
    Step(16807, 2147483647, start, m, 1092455, 8, 1181022009);
    m := m + 1;
    Step(16807, 2147483647, start, m, 1181022009, 9243, 245556042);
    m := m + 1;
    Step(16807, 2147483647, start, m, 245556042, 1921, 1744312007);
    m := m + 1;
    Step(16807, 2147483647, start, m, 1744312007, 13651, 1352636452);
    m := m + 1;
  }

  /** Steps 1 to 5 of example generator A, keeping multiples of 4. */
  lemma RunA1(start: nat, n: nat)
    requires Value(16807, 2147483647, start, n) == 65
    ensures Value(16807, 2147483647, start, n + 5) == 1352636452
    ensures Picky(16807, 2147483647, start, 4, n + 5) == Picky(16807, 2147483647, start, 4, n) + [1352636452]
  {
    var m := n;
    PickyStep(16807, 2147483647, start, 4, m, 65, 0, 1092455);
    m := m + 1;
    PickyStep(16807, 2147483647, start, 4, m, 1092455, 8, 1181022009);
    m := m + 1;
    PickyStep(16807, 2147483647, start, 4, m, 1181022009, 9243, 245556042);
    m := m + 1;
    PickyStep(16807, 2147483647, start, 4, m, 245556042, 1921, 1744312007);
    m := m + 1;
    PickyStep(16807, 2147483647, start, 4, m, 1744312007, 13651, 1352636452);
    m := m + 1;
  }

  /** Steps 6 to 10 of example generator A, keeping multiples of 4. */
  lemma RunA2(start: nat, n: nat)
    requires Value(16807, 2147483647, start, n) == 1352636452
    ensures Value(16807, 2147483647, start, n + 5) == 1621432265
    ensures Picky(16807, 2147483647, start, 4, n + 5) == Picky(16807, 2147483647, start, 4, n) + []
  {
    var m := n;
    PickyStep(16807, 2147483647, start, 4, m, 1352636452, 10586, 498961622);
    m := m + 1;
    PickyStep(16807, 2147483647, start, 4, m, 498961622, 3905, 124339419);
    m := m + 1;
    PickyStep(16807, 2147483647, start, 4, m, 124339419, 973, 271026602);
    m := m + 1;
    PickyStep(16807, 2147483647, start, 4, m, 271026602, 2121, 331284527);
    m := m + 1;
    PickyStep(16807, 2147483647, start, 4, m, 331284527, 2592, 1621432265);
    m := m + 1;
  }

  /** Steps 11 to 15 of example generator A, keeping multiples of 4. */
  lemma RunA3(start: nat, n: nat)
    requires Value(16807, 2147483647, start, n) == 1621432265
    ensures Value(16807, 2147483647, start, n + 5) == 1020068214
    ensures Picky(16807, 2147483647, start, 4, n + 5) == Picky(16807, 2147483647, start, 4, n) + [1992081072, 530830436]
  {
    var m := n;
    PickyStep(16807, 2147483647, start, 4, m, 1621432265, 12689, 1992081072);
    m := m + 1;
    PickyStep(16807, 2147483647, start, 4, m, 1992081072, 15590, 1636520374);
    m := m + 1;
    PickyStep(16807, 2147483647, start, 4, m, 1636520374, 12808, 27375042);
    m := m + 1;
    PickyStep(16807, 2147483647, start, 4, m, 27375042, 214, 530830436);
    m := m + 1;
    PickyStep(16807, 2147483647, start, 4, m, 530830436, 4154, 1020068214);
    m := m + 1;
  }

  /** Steps 16 to 20 of example generator A, keeping multiples of 4. */
  lemma RunA4(start: nat, n: nat)
    requires Value(16807, 2147483647, start, n) == 1020068214
    ensures Value(16807, 2147483647, start, n + 5) == 740335192
    ensures Picky(16807, 2147483647, start, 4, n + 5) == Picky(16807, 2147483647, start, 4, n) + [1980017072, 740335192]
  {
    var m := n;
    PickyStep(16807, 2147483647, start, 4, m, 1020068214, 7983, 924518697);
    m := m + 1;
    PickyStep(16807, 2147483647, start, 4, m, 924518697, 7235, 1341554434);
    m := m + 1;
    PickyStep(16807, 2147483647, start, 4, m, 1341554434, 10499, 1074562385);
    m := m + 1;
    PickyStep(16807, 2147483647, start, 4, m, 1074562385, 8409, 1980017072);
    m := m + 1;
    PickyStep(16807, 2147483647, start, 4, m, 1980017072, 15496, 740335192);
    m := m + 1;
  }

  /** The first five values of example generator B (factor 48271). */
  lemma FirstB(start: nat)
    requires start == 8921
    ensures Outputs(48271, 2147483647, start, 5) == [430625591, 1233683848, 1431495498, 137874439, 285222916]
  {
    var m := 0;
    Step(48271, 2147483647, start, m, 8921, 0, 430625591);
    m := m + 1;
    Step(48271, 2147483647, start, m, 430625591, 9679, 1233683848);
    m := m + 1;
    Step(48271, 2147483647, start, m, 1233683848, 27730, 1431495498);
    m := m + 1;
    Step(48271, 2147483647, start, m, 1431495498, 32177, 137874439);
    m := m + 1;
    Step(48271, 2147483647, start, m, 137874439, 3099, 285222916);
    m := m + 1;
  }

  /** Steps 1 to 9 of example generator B, keeping multiples of 8. */
  lemma RunB1(start: nat, n: nat)
    requires Value(48271, 2147483647, start, n) == 8921
    ensures Value(48271, 2147483647, start, n + 9) == 828718196
    ensures Picky(48271, 2147483647, start, 8, n + 9) == Picky(48271, 2147483647, start, 8, n) + [1233683848]
  {
    var m := n;
    PickyStep(48271, 2147483647, start, 8, m, 8921, 0, 430625591);
    m := m + 1;
    PickyStep(48271, 2147483647, start, 8, m, 430625591, 9679, 1233683848);
    m := m + 1;
    PickyStep(48271, 2147483647, start, 8, m, 1233683848, 27730, 1431495498);
    m := m + 1;
    PickyStep(48271, 2147483647, start, 8, m, 1431495498, 32177, 137874439);
    m := m + 1;
    PickyStep(48271, 2147483647, start, 8, m, 137874439, 3099, 285222916);
    m := m + 1;
    PickyStep(48271, 2147483647, start, 8, m, 285222916, 6411, 477717319);
    m := m + 1;
    PickyStep(48271, 2147483647, start, 8, m, 477717319, 10738, 213303963);
    m := m + 1;
    PickyStep(48271, 2147483647, start, 8, m, 213303963, 4794, 1358994255);
    m := m + 1;
    PickyStep(48271, 2147483647, start, 8, m, 1358994255, 30547, 828718196);
    m := m + 1;
  }

  /** Steps 10 to 18 of example generator B, keeping multiples of 8. */
  lemma RunB2(start: nat, n: nat)
    requires Value(48271, 2147483647, start, n) == 828718196
    ensures Value(48271, 2147483647, start, n + 9) == 320515855
    ensures Picky(48271, 2147483647, start, 8, n + 9) == Picky(48271, 2147483647, start, 8, n) + []
  {
    var m := n;
    PickyStep(48271, 2147483647, start, 8, m, 828718196, 18627, 1878146447);
    m := m + 1;
    PickyStep(48271, 2147483647, start, 8, m, 1878146447, 42216, 1837501385);
    m := m + 1;
    PickyStep(48271, 2147483647, start, 8, m, 1837501385, 41303, 512283294);
    m := m + 1;
    PickyStep(48271, 2147483647, start, 8, m, 512283294, 11515, 152689469);
    m := m + 1;
    PickyStep(48271, 2147483647, start, 8, m, 152689469, 3432, 309481595);
    m := m + 1;
    PickyStep(48271, 2147483647, start, 8, m, 309481595, 6956, 1089823713);
    m := m + 1;
    PickyStep(48271, 2147483647, start, 8, m, 1089823713, 24496, 2121033311);
    m := m + 1;
    PickyStep(48271, 2147483647, start, 8, m, 2121033311, 47676, 968600909);
    m := m + 1;
    PickyStep(48271, 2147483647, start, 8, m, 968600909, 21772, 320515855);
    m := m + 1;
  }

  /** Steps 19 to 27 of example generator B, keeping multiples of 8. */
  lemma RunB3(start: nat, n: nat)
    requires Value(48271, 2147483647, start, n) == 320515855
    ensures Value(48271, 2147483647, start, n + 9) == 867744487
    ensures Picky(48271, 2147483647, start, 8, n + 9) == Picky(48271, 2147483647, start, 8, n) + [862516352]
  {
    var m := n;
    PickyStep(48271, 2147483647, start, 8, m, 320515855, 7204, 1148643717);
    m := m + 1;
    PickyStep(48271, 2147483647, start, 8, m, 1148643717, 25819, 300581414);
    m := m + 1;
    PickyStep(48271, 2147483647, start, 8, m, 300581414, 6756, 965916062);
    m := m + 1;
    PickyStep(48271, 2147483647, start, 8, m, 965916062, 21711, 1716768785);
    m := m + 1;
    PickyStep(48271, 2147483647, start, 8, m, 1716768785, 38589, 899566652);
    m := m + 1;
    PickyStep(48271, 2147483647, start, 8, m, 899566652, 20220, 862516352);
    m := m + 1;
    PickyStep(48271, 2147483647, start, 8, m, 862516352, 19387, 1261363003);
    m := m + 1;
    PickyStep(48271, 2147483647, start, 8, m, 1261363003, 28352, 1797158069);
    m := m + 1;
    PickyStep(48271, 2147483647, start, 8, m, 1797158069, 40396, 867744487);
    m := m + 1;
  }

  /** Steps 28 to 36 of example generator B, keeping multiples of 8. */
  lemma RunB4(start: nat, n: nat)
    requires Value(48271, 2147483647, start, n) == 867744487
    ensures Value(48271, 2147483647, start, n + 9) == 1434109892
    ensures Picky(48271, 2147483647, start, 8, n + 9) == Picky(48271, 2147483647, start, 8, n) + []
  {
    var m := n;
    PickyStep(48271, 2147483647, start, 8, m, 867744487, 19505, 225597242);
    m := m + 1;
    PickyStep(48271, 2147483647, start, 8, m, 225597242, 5070, 2062378292);
    m := m + 1;
    PickyStep(48271, 2147483647, start, 8, m, 2062378292, 46358, 15625506);
    m := m + 1;
    PickyStep(48271, 2147483647, start, 8, m, 15625506, 351, 492040029);
    m := m + 1;
    PickyStep(48271, 2147483647, start, 8, m, 492040029, 11060, 95104039);
    m := m + 1;
    PickyStep(48271, 2147483647, start, 8, m, 95104039, 2137, 1594512930);
    m := m + 1;
    PickyStep(48271, 2147483647, start, 8, m, 1594512930, 35841, 772251903);
    m := m + 1;
    PickyStep(48271, 2147483647, start, 8, m, 772251903, 17358, 1350465087);
    m := m + 1;
    PickyStep(48271, 2147483647, start, 8, m, 1350465087, 30355, 1434109892);
    m := m + 1;
  }

  /** Steps 37 to 45 of example generator B, keeping multiples of 8. */
  lemma RunB5(start: nat, n: nat)
    requires Value(48271, 2147483647, start, n) == 1434109892
    ensures Value(48271, 2147483647, start, n + 9) == 1159784568
    ensures Picky(48271, 2147483647, start, 8, n + 9) == Picky(48271, 2147483647, start, 8, n) + [1159784568]
  {
    var m := n;
    PickyStep(48271, 2147483647, start, 8, m, 1434109892, 32235, 1783235687);
    m := m + 1;
    PickyStep(48271, 2147483647, start, 8, m, 1783235687, 40083, 982824476);
    m := m + 1;
    PickyStep(48271, 2147483647, start, 8, m, 982824476, 22091, 1859035119);
    m := m + 1;
    PickyStep(48271, 2147483647, start, 8, m, 1859035119, 41787, 585072060);
    m := m + 1;
    PickyStep(48271, 2147483647, start, 8, m, 585072060, 13151, 455966563);
    m := m + 1;
    PickyStep(48271, 2147483647, start, 8, m, 455966563, 10249, 402064470);
    m := m + 1;
    PickyStep(48271, 2147483647, start, 8, m, 402064470, 9037, 1244313431);
    m := m + 1;
    PickyStep(48271, 2147483647, start, 8, m, 1244313431, 27969, 1283504858);
    m := m + 1;
    PickyStep(48271, 2147483647, start, 8, m, 1283504858, 28850, 1159784568);
    m := m + 1;
  }

  /** Steps 46 to 54 of example generator B, keeping multiples of 8. */
  lemma RunB6(start: nat, n: nat)
    requires Value(48271, 2147483647, start, n) == 1159784568
    ensures Value(48271, 2147483647, start, n + 9) == 1119515577
    ensures Picky(48271, 2147483647, start, 8, n + 9) == Picky(48271, 2147483647, start, 8, n) + []
  {
    var m := n;
    PickyStep(48271, 2147483647, start, 8, m, 1159784568, 26069, 1209688285);
    m := m + 1;
    PickyStep(48271, 2147483647, start, 8, m, 1209688285, 27191, 635359658);
    m := m + 1;
    PickyStep(48271, 2147483647, start, 8, m, 635359658, 14281, 1232088511);
    m := m + 1;
    PickyStep(48271, 2147483647, start, 8, m, 1232088511, 27694, 1732394463);
    m := m + 1;
    PickyStep(48271, 2147483647, start, 8, m, 1732394463, 38940, 1399909293);
    m := m + 1;
    PickyStep(48271, 2147483647, start, 8, m, 1399909293, 31467, 153562254);
    m := m + 1;
    PickyStep(48271, 2147483647, start, 8, m, 153562254, 3451, 1637497037);
    m := m + 1;
    PickyStep(48271, 2147483647, start, 8, m, 1637497037, 36807, 1188877898);
    m := m + 1;
    PickyStep(48271, 2147483647, start, 8, m, 1188877898, 26723, 1119515577);
    m := m + 1;
  }

  /** Steps 55 to 63 of example generator B, keeping multiples of 8. */
  lemma RunB7(start: nat, n: nat)
    requires Value(48271, 2147483647, start, n) == 1119515577
    ensures Value(48271, 2147483647, start, n + 9) == 1097261798
    ensures Picky(48271, 2147483647, start, 8, n + 9) == Picky(48271, 2147483647, start, 8, n) + []
  {
    var m := n;
    PickyStep(48271, 2147483647, start, 8, m, 1119515577, 25164, 857924259);
    m := m + 1;
    PickyStep(48271, 2147483647, start, 8, m, 857924259, 19284, 787257441);
    m := m + 1;
    PickyStep(48271, 2147483647, start, 8, m, 787257441, 17695, 1980800846);
    m := m + 1;
    PickyStep(48271, 2147483647, start, 8, m, 1980800846, 44524, 675738238);
    m := m + 1;
    PickyStep(48271, 2147483647, start, 8, m, 675738238, 15189, 431372215);
    m := m + 1;
    PickyStep(48271, 2147483647, start, 8, m, 431372215, 9696, 766748953);
    m := m + 1;
    PickyStep(48271, 2147483647, start, 8, m, 766748953, 17234, 2005537865);
    m := m + 1;
    PickyStep(48271, 2147483647, start, 8, m, 2005537865, 45080, 755474655);
    m := m + 1;
    PickyStep(48271, 2147483647, start, 8, m, 755474655, 16981, 1097261798);
    m := m + 1;
  }

  /** Steps 64 to 72 of example generator B, keeping multiples of 8. */
  lemma RunB8(start: nat, n: nat)
    requires Value(48271, 2147483647, start, n) == 1097261798
    ensures Value(48271, 2147483647, start, n + 9) == 1733628941
    ensures Picky(48271, 2147483647, start, 8, n + 9) == Picky(48271, 2147483647, start, 8, n) + [1616057672]
  {
    var m := n;
    PickyStep(48271, 2147483647, start, 8, m, 1097261798, 24664, 387581650);
    m := m + 1;
    PickyStep(48271, 2147483647, start, 8, m, 387581650, 8712, 76294486);
    m := m + 1;
    PickyStep(48271, 2147483647, start, 8, m, 76294486, 1714, 2024162748);
    m := m + 1;
    PickyStep(48271, 2147483647, start, 8, m, 2024162748, 45499, 1553855);
    m := m + 1;
    PickyStep(48271, 2147483647, start, 8, m, 1553855, 34, 1991690707);
    m := m + 1;
    PickyStep(48271, 2147483647, start, 8, m, 1991690707, 44769, 206725054);
    m := m + 1;
    PickyStep(48271, 2147483647, start, 8, m, 206725054, 4646, 1616057672);
    m := m + 1;
    PickyStep(48271, 2147483647, start, 8, m, 1616057672, 36325, 1376407837);
    m := m + 1;
    PickyStep(48271, 2147483647, start, 8, m, 1376407837, 30938, 1733628941);
    m := m + 1;
  }

  /** Steps 73 to 81 of example generator B, keeping multiples of 8. */
  lemma RunB9(start: nat, n: nat)
    requires Value(48271, 2147483647, start, n) == 1733628941
    ensures Value(48271, 2147483647, start, n + 9) == 412269392
    ensures Picky(48271, 2147483647, start, 8, n + 9) == Picky(48271, 2147483647, start, 8, n) + [412269392]
  {
    var m := n;
    PickyStep(48271, 2147483647, start, 8, m, 1733628941, 38968, 859854715);
    m := m + 1;
    PickyStep(48271, 2147483647, start, 8, m, 859854715, 19327, 1630502196);
    m := m + 1;
    PickyStep(48271, 2147483647, start, 8, m, 1630502196, 36650, 695840566);
    m := m + 1;
    PickyStep(48271, 2147483647, start, 8, m, 695840566, 15641, 128238659);
    m := m + 1;
    PickyStep(48271, 2147483647, start, 8, m, 128238659, 2882, 1160437935);
    m := m + 1;
    PickyStep(48271, 2147483647, start, 8, m, 1160437935, 26084, 536112037);
    m := m + 1;
    PickyStep(48271, 2147483647, start, 8, m, 536112037, 12050, 1486191677);
    m := m + 1;
    PickyStep(48271, 2147483647, start, 8, m, 1486191677, 33406, 1119728785);
    m := m + 1;
    PickyStep(48271, 2147483647, start, 8, m, 1119728785, 25169, 412269392);
    m := m + 1;
  }
  /** The first five values example generator A keeps when it keeps multiples of 4. */
  lemma PickyA(start: nat)
    requires start == 65
    ensures Divisible(Outputs(16807, 2147483647, start, 20), 4) == [1352636452, 1992081072, 530830436, 1980017072, 740335192]
  {
    var n := 0;
    RunA1(start, n);
    assert Picky(16807, 2147483647, start, 4, n + 5) == [1352636452];
    n := n + 5;
    RunA2(start, n);
    assert Picky(16807, 2147483647, start, 4, n + 5) == [1352636452];
    n := n + 5;
    RunA3(start, n);
    assert Picky(16807, 2147483647, start, 4, n + 5) == [1352636452, 1992081072, 530830436];
    n := n + 5;
    RunA4(start, n);
    assert Picky(16807, 2147483647, start, 4, n + 5) == [1352636452, 1992081072, 530830436, 1980017072, 740335192];
    n := n + 5;
    PickyDivisible(16807, 2147483647, start, 4, n);
  }

  /** The first five values example generator B keeps when it keeps multiples of 8. */
  lemma PickyB(start: nat)
    requires start == 8921
    ensures Divisible(Outputs(48271, 2147483647, start, 81), 8) == [1233683848, 862516352, 1159784568, 1616057672, 412269392]
  {
    var n := 0;
    RunB1(start, n);
    assert Picky(48271, 2147483647, start, 8, n + 9) == [1233683848];
    n := n + 9;
    RunB2(start, n);
    assert Picky(48271, 2147483647, start, 8, n + 9) == [1233683848];
    n := n + 9;
    RunB3(start, n);
    assert Picky(48271, 2147483647, start, 8, n + 9) == [1233683848, 862516352];
    n := n + 9;
    RunB4(start, n);
    assert Picky(48271, 2147483647, start, 8, n + 9) == [1233683848, 862516352];
    n := n + 9;
    RunB5(start, n);
    assert Picky(48271, 2147483647, start, 8, n + 9) == [1233683848, 862516352, 1159784568];
    n := n + 9;
    RunB6(start, n);
    assert Picky(48271, 2147483647, start, 8, n + 9) == [1233683848, 862516352, 1159784568];
    n := n + 9;
    RunB7(start, n);
    assert Picky(48271, 2147483647, start, 8, n + 9) == [1233683848, 862516352, 1159784568];
    n := n + 9;
    RunB8(start, n);
    assert Picky(48271, 2147483647, start, 8, n + 9) == [1233683848, 862516352, 1159784568, 1616057672];
    n := n + 9;
    RunB9(start, n);
    assert Picky(48271, 2147483647, start, 8, n + 9) == [1233683848, 862516352, 1159784568, 1616057672, 412269392];
    n := n + 9;
    PickyDivisible(48271, 2147483647, start, 8, n);
  }
}
