/** The memory reallocation puzzle: a bank of memory banks rebalanced from its fullest bank
    until a configuration comes back. */
module MemoryBanks {
  import opened Common
  import opened Arith
  import Text
  import Decimal

  // ---------------------------------------------------------------------------------------
  // Values

  function Sum(s: seq<int>): int
  {
    if s == [] then 0 else Sum(s[..|s| - 1]) + s[|s| - 1]
  }

  /** Adding one to a bank adds one to the sum. */
  lemma {:induction false} SumIncrement(s: seq<int>, i: nat)
    requires i < |s|
    ensures Sum(s[i := s[i] + 1]) == Sum(s) + 1
  {
    var t := s[i := s[i] + 1];
    var n := |s|;
    if i < n - 1 {
      assert t[..n - 1] == s[..n - 1][i := s[i] + 1];
      SumIncrement(s[..n - 1], i);
    } else {
      assert t[..n - 1] == s[..n - 1];
    }
  }

  /** Setting a bank changes the sum by the difference. */
  lemma {:induction false} SumSet(s: seq<int>, i: nat, v: int)
    requires i < |s|
    ensures Sum(s[i := v]) == Sum(s) - s[i] + v
  {
    var t := s[i := v];
    var n := |s|;
    if i < n - 1 {
      assert t[..n - 1] == s[..n - 1][i := v];
      SumSet(s[..n - 1], i, v);
    } else {
      assert t[..n - 1] == s[..n - 1];
    }
  }

  /** `findIndex` and `indexOf`: the first position holding `v`, and -1 when there is none. */
  function FirstIndexOf<T(==)>(s: seq<T>, v: T): (r: int)
    ensures r == -1 <==> v !in s
    ensures 0 <= r ==> r < |s| && s[r] == v && forall k :: 0 <= k < r ==> s[k] != v
    ensures -1 <= r
  {
    if s == [] then -1
    else if s[0] == v then 0
    else
      var rest := FirstIndexOf(s[1..], v);
      assert forall k :: 1 <= k < |s| ==> s[k] == s[1..][k - 1];
      if rest == -1 then -1 else rest + 1
  }

  /** `redistribute`: one block at a time into successive banks from `index`, going round to
      the first bank after the last. */
  function Spread(s: seq<int>, amount: int, index: int): (r: seq<int>)
    requires |s| > 0 && 0 <= index <= |s|
    ensures |r| == |s|
    decreases amount
  {
    var i := if index >= |s| then 0 else index;
    if amount > 0 then Spread(s[i := s[i] + 1], amount - 1, i + 1) else s
  }

  /** How many of the `amount` blocks handed out from `start` on land in bank `j`: the
      number of `k < amount` with `(start + k) % n == j`. */
  function Hits(n: nat, start: int, amount: int, j: int): nat
    requires n > 0
    decreases amount
  {
    if amount <= 0 then 0
    else Hits(n, start, amount - 1, j) + (if (start + amount - 1) % n == j then 1 else 0)
  }

  /** Handing out from `start` is one block to `start`'s bank and the rest from the next one. */
  lemma {:induction false} HitsShift(n: nat, start: int, amount: int, j: int)
    requires n > 0 && amount > 0
    ensures Hits(n, start, amount, j) == (if start % n == j then 1 else 0) + Hits(n, start + 1, amount - 1, j)
    decreases amount
  {
    if amount > 1 {
      HitsShift(n, start, amount - 1, j);
    }
  }

  /** Starting one whole round later lands the same blocks in the same banks. */
  lemma {:induction false} HitsRound(n: nat, amount: int, j: int)
    requires n > 0
    ensures Hits(n, n, amount, j) == Hits(n, 0, amount, j)
    decreases amount
  {
    if amount > 0 {
      HitsRound(n, amount - 1, j);
      ModSub(n + amount - 1, n);
    }
  }

  /** Every block of `redistribute` goes to the bank its turn comes round to: bank `j` gains
      exactly the number of blocks handed out while the turn is at `j`. */
  lemma {:induction false} SpreadHits(s: seq<int>, amount: int, index: int, j: nat)
    requires |s| > 0 && 0 <= index <= |s| && j < |s|
    ensures Spread(s, amount, index)[j] == s[j] + Hits(|s|, index, amount, j)
    decreases amount
  {
    var n := |s|;
    if amount > 0 {
      var i := if index >= n then 0 else index;
      SpreadHits(s[i := s[i] + 1], amount - 1, i + 1, j);
      HitsShift(n, i, amount, j);
      ModUnique(i, n, 0, i);
      if index >= n {
        HitsRound(n, amount, j);
      }
    }
  }

  /** `redistribute` hands out every block of a positive amount and nothing else. */
  lemma {:induction false} SpreadSum(s: seq<int>, amount: int, index: int)
    requires |s| > 0 && 0 <= index <= |s|
    ensures Sum(Spread(s, amount, index)) == Sum(s) + (if amount > 0 then amount else 0)
    decreases amount
  {
    if amount > 0 {
      var i := if index >= |s| then 0 else index;
      SumIncrement(s, i);
      SpreadSum(s[i := s[i] + 1], amount - 1, i + 1);
    }
  }

  /** `balance` on the banks' values: empty the first fullest bank and hand its blocks out
      from the bank after it. An empty list of banks is left as it is: its maximum is
      `-Infinity`, so nothing is handed out. */
  function Balanced(s: seq<int>): (r: seq<int>)
    ensures |r| == |s|
  {
    if s == [] then s
    else
      var m := Max(s);
      var at := FirstIndexOf(s, m);
      Spread(s[at := 0], m, at + 1)
  }

  /** The bank `balance` empties: the first one holding the most blocks. */
  lemma FullestBank(s: seq<int>)
    requires s != []
    ensures var at := FirstIndexOf(s, Max(s));
      0 <= at < |s| && s[at] == Max(s) && forall k :: 0 <= k < at ==> s[k] < s[at]
  {
    var m := Max(s);
    var at := FirstIndexOf(s, m);
    assert at != -1;
    forall k | 0 <= k < at
      ensures s[k] < m
    {
      assert s[k] <= m && s[k] != m;
    }
  }

  /** Each bank after balancing: emptied if it was the fullest, plus the blocks its turn
      received. */
  lemma BalancedBank(s: seq<int>, j: nat)
    requires j < |s|
    ensures var at := FirstIndexOf(s, Max(s));
      Balanced(s)[j] == (if j == at then 0 else s[j]) + Hits(|s|, at + 1, Max(s), j)
  {
    var at := FirstIndexOf(s, Max(s));
    SpreadHits(s[at := 0], Max(s), at + 1, j);
  }

  /** The total only changes when every bank is negative: the emptied bank then gains. */
  lemma BalancedSum(s: seq<int>)
    requires s != []
    ensures Sum(Balanced(s)) == Sum(s) - Max(s) + (if Max(s) > 0 then Max(s) else 0)
  {
    var m := Max(s);
    var at := FirstIndexOf(s, m);
    SumSet(s, at, 0);
    SpreadSum(s[at := 0], m, at + 1);
  }

  /** The first fullest bank is emptied and its blocks handed out one per bank in turn from
      the next one round: the number of banks never changes, and the total only changes when
      every bank is negative. */
  lemma BalancedMeaning(s: seq<int>)
    requires s != []
    ensures var m, at := Max(s), FirstIndexOf(s, Max(s));
      && 0 <= at < |s| && s[at] == m
      && (forall k :: 0 <= k < at ==> s[k] < m)
      && (forall j :: 0 <= j < |s| ==> Balanced(s)[j] == (if j == at then 0 else s[j]) + Hits(|s|, at + 1, m, j))
      && Sum(Balanced(s)) == Sum(s) - m + (if m > 0 then m else 0)
  {
    FullestBank(s);
    forall j | 0 <= j < |s|
      ensures Balanced(s)[j] == (if j == FirstIndexOf(s, Max(s)) then 0 else s[j]) + Hits(|s|, FirstIndexOf(s, Max(s)) + 1, Max(s), j)
    {
      BalancedBank(s, j);
    }
    BalancedSum(s);
  }

  /** Banks holding no negative count keep holding none. */
  lemma BalancedNatural(s: seq<int>)
    requires forall k :: 0 <= k < |s| ==> s[k] >= 0
    ensures forall k :: 0 <= k < |s| ==> Balanced(s)[k] >= 0
  {
    forall j | 0 <= j < |s|
      ensures Balanced(s)[j] >= 0
    {
      BalancedBank(s, j);
    }
  }

  /** Banks holding no negative count keep their total. */
  lemma BalancedKeepsTotal(s: seq<int>)
    requires forall k :: 0 <= k < |s| ==> s[k] >= 0
    ensures Sum(Balanced(s)) == Sum(s)
  {
    if s != [] {
      BalancedSum(s);
    }
  }

  /** The banks after `k` rounds of balancing. */
  function Iterate(s: seq<int>, k: nat): (r: seq<int>)
    ensures |r| == |s|
  {
    if k == 0 then s else Balanced(Iterate(s, k - 1))
  }

  /** `getHash`: the banks' values in decimal, separated by commas. */
  function HashOf(s: seq<int>): string
  {
    if |s| == 0 then []
    else if |s| == 1 then Decimal.ShowInt(s[0])
    else Decimal.ShowInt(s[0]) + [','] + HashOf(s[1..])
  }

  /** The hash is the values' spellings joined with commas. */
  lemma {:induction false} HashJoin(s: seq<int>)
    ensures HashOf(s) == Text.Join(Decimal.ShowInts(s), ',')
  {
    if |s| > 1 {
      HashJoin(s[1..]);
      assert Decimal.ShowInts(s)[1..] == Decimal.ShowInts(s[1..]);
    }
  }

  /** The hash of banks that are not empty splits at its commas into the values' spellings. */
  lemma SplitHash(s: seq<int>)
    requires s != []
    ensures Text.Split(HashOf(s), {','}) == Decimal.ShowInts(s)
    ensures HashOf(s) != []
  {
    var parts := Decimal.ShowInts(s);
    forall i | 0 <= i < |parts|
      ensures forall c :: c in parts[i] ==> c !in {','}
    {
      Decimal.ShowIntChars(s[i]);
    }
    HashJoin(s);
    Text.SplitJoin(parts, ',', {','});
    Text.JoinStarts(parts, ',');
  }

  /** Equal hashes mean equal banks, so comparing hashes compares configurations. */
  lemma HashInjective(a: seq<int>, b: seq<int>)
    ensures HashOf(a) == HashOf(b) <==> a == b
  {
    if HashOf(a) == HashOf(b) {
      if a == [] || b == [] {
        if a != [] {
          SplitHash(a);
        }
        if b != [] {
          SplitHash(b);
        }
      } else {
        SplitHash(a);
        SplitHash(b);
        forall i | 0 <= i < |a|
          ensures a[i] == b[i]
        {
          Decimal.ParseShowInt(a[i]);
          Decimal.ParseShowInt(b[i]);
        }
      }
    }
  }

  // ---------------------------------------------------------------------------------------
  // The allocator

  /** `MemoryAllocator`: the banks (the caller's own array, not a copy), the hashes seen so
      far as a set and in order, and the number of rounds. */
  class MemoryAllocator {
    var banks: array<int>
    var visited: set<string>
    var history: seq<string>
    var steps: int

    /** The set of hashes seen holds exactly the hashes in the history. */
    ghost predicate Recorded()
      reads this
    {
      forall h :: h in visited <==> h in history
    }

    /** The history also has one hash per round. */
    ghost predicate Valid()
      reads this
    {
      Recorded() && |history| == steps
    }

    constructor(banks: array<int>)
      ensures this.banks == banks && visited == {} && history == [] && steps == 0
      ensures Valid()
    {
      this.banks := banks;
      visited := {};
      history := [];
      steps := 0;
    }

    /** `getHash`. */
    function Hash(): string
      reads this, banks
    {
      HashOf(banks[..])
    }

    /** `hasVisited`: whether a hash is in the history. */
    function HasVisited(hash: string): (r: bool)
      reads this
      requires Valid()
      ensures r <==> exists k :: 0 <= k < |history| && history[k] == hash
    {
      hash in visited
    }

    /** `getSteps`: the number of rounds, one per hash recorded. */
    function GetSteps(): (r: int)
      reads this
      requires Valid()
      ensures r == |history|
    {
      steps
    }

    /** `getStepsAtFirst`: how many rounds ago the hash was first recorded; for a hash never
      recorded `indexOf` gives -1, so one more than the number of rounds. */
    function GetStepsAtFirst(hash: string): (r: int)
      reads this
      requires Valid()
      ensures hash in history ==> exists k :: (0 <= k < |history| && history[k] == hash
        && (forall k' :: 0 <= k' < k ==> history[k'] != hash) && r == steps - k)
      ensures hash !in history ==> r == steps + 1
    {
      var firstSaw := FirstIndexOf(history, hash);
      steps - firstSaw
    }

    /** `addToHistory`: record the current hash in the set and at the end of the history. */
    method AddToHistory()
      modifies this
      requires Recorded()
      ensures Recorded()
      ensures banks == old(banks) && steps == old(steps)
      ensures history == old(history) + [HashOf(banks[..])]
      ensures visited == old(visited) + {HashOf(banks[..])}
    {
      var hash := Hash();
      visited := visited + {hash};
      history := history + [hash];
    }

    /** `redistribute`: the blocks handed out one at a time from `index`. */
    method Redistribute(amount: int, index: int)
      modifies banks
      requires banks.Length > 0 && 0 <= index <= banks.Length
      ensures banks[..] == Spread(old(banks[..]), amount, index)
      decreases amount
    {
      var i := index;
      if i >= banks.Length {
        i := 0;
      }
      if amount > 0 {
        banks[i] := banks[i] + 1;
        Redistribute(amount - 1, i + 1);
      }
    }

    /** `balance`: record the hash, empty the first fullest bank, hand its blocks out, count
      the round. */
    method Balance()
      modifies this, banks
      requires Valid()
      ensures Valid()
      ensures banks == old(banks) && banks[..] == Balanced(old(banks[..]))
      ensures history == old(history) + [HashOf(old(banks[..]))]
      ensures steps == old(steps) + 1
    {
      AddToHistory();
      if banks.Length > 0 {
        ghost var before := banks[..];
        var maxBankSize := Max(banks[..]);
        var bankIndex := FirstIndexOf(banks[..], maxBankSize);
        banks[bankIndex] := 0;
        assert banks[..] == before[bankIndex := 0];
        Redistribute(maxBankSize, bankIndex + 1);
      }
      steps := steps + 1;
    }
  }

  /** No configuration among the first `k` rounds comes back within them. */
  ghost predicate AllDistinct(s: seq<int>, k: nat)
  {
    forall i, j :: 0 <= i < j < k ==> Differ(s, i, j)
  }

  /** The configurations after `i` and after `j` rounds are not the same. */
  ghost predicate Differ(s: seq<int>, i: nat, j: nat)
  {
    Iterate(s, i) != Iterate(s, j)
  }

  /** The hashes of the first `n` configurations, in order. */
  function Hashes(s: seq<int>, n: nat, hash: seq<int> -> string): (h: seq<string>)
    ensures |h| == n
  {
    if n == 0 then [] else Hashes(s, n - 1, hash) + [hash(Iterate(s, n - 1))]
  }

  /** The `k`-th hash recorded is the hash of the configuration after `k` rounds. */
  lemma {:induction false} HashesAt(s: seq<int>, n: nat, k: nat, hash: seq<int> -> string)
    requires k < n
    ensures Hashes(s, n, hash)[k] == hash(Iterate(s, k))
  {
    if k < n - 1 {
      HashesAt(s, n - 1, k, hash);
    }
  }

  /** A configuration whose hash is not among the earlier ones' hashes is new. */
  lemma DistinctExtend(s: seq<int>, n: nat, hash: seq<int> -> string)
    requires AllDistinct(s, n)
    requires hash(Iterate(s, n)) !in Hashes(s, n, hash)
    ensures AllDistinct(s, n + 1)
  {
    forall i, j | 0 <= i < j < n + 1
      ensures Differ(s, i, j)
    {
      if j == n {
        HashesAt(s, n, i, hash);
      }
    }
  }

  /** The allocator has gone through the first `steps` rounds from `init`, recording each
      configuration's hash, and met no configuration twice. */
  ghost predicate Tracks(allocator: MemoryAllocator, init: seq<int>)
    reads allocator, allocator.banks
  {
    && allocator.Valid()
    && allocator.steps >= 0
    && allocator.banks[..] == Iterate(init, allocator.steps)
    && allocator.history == Hashes(init, allocator.steps, HashOf)
    && AllDistinct(init, allocator.steps)
  }

  /** One round of the driver's loop, taken when the current configuration is new. */
  method Round(allocator: MemoryAllocator, ghost init: seq<int>)
    modifies allocator, allocator.banks
    requires Tracks(allocator, init) && !allocator.HasVisited(allocator.Hash())
    ensures Tracks(allocator, init)
    ensures allocator.banks == old(allocator.banks) && allocator.steps == old(allocator.steps) + 1
  {
    ghost var n: nat := allocator.steps;
    DistinctExtend(init, n, HashOf);
    NextRound(init, n, HashOf);
    allocator.Balance();
  }

  /** One more round appends the current configuration's hash and balances it. */
  lemma NextRound(s: seq<int>, n: nat, hash: seq<int> -> string)
    ensures Hashes(s, n + 1, hash) == Hashes(s, n, hash) + [hash(Iterate(s, n))]
    ensures Iterate(s, n + 1) == Balanced(Iterate(s, n))
  {
  }

  /** The driver: balance until the current configuration has been seen before, then report
      the number of rounds and how many rounds ago it was first seen. `fuel` bounds the number
      of rounds; `None` means it ran out, with every configuration so far distinct. */
  method Reallocate(banks: array<int>, fuel: nat) returns (r: Option<(int, int)>)
    modifies banks
    ensures r.None? ==> AllDistinct(old(banks[..]), fuel + 1)
    ensures r.Some? ==> var (steps, loopSize) := r.value;
      && 0 < loopSize <= steps
      && AllDistinct(old(banks[..]), steps)
      && Iterate(old(banks[..]), steps) == Iterate(old(banks[..]), steps - loopSize)
      && banks[..] == Iterate(old(banks[..]), steps)
  {
    ghost var init := banks[..];
    var allocator := new MemoryAllocator(banks);
    while !allocator.HasVisited(allocator.Hash())
      invariant Tracks(allocator, init) && allocator.banks == banks
      invariant allocator.steps <= fuel
      decreases fuel - allocator.steps
    {
      if allocator.steps == fuel {
        DistinctExtend(init, allocator.steps, HashOf);
        return None;
      }
      Round(allocator, init);
    }
    var steps := allocator.GetSteps();
    var loopSize := allocator.GetStepsAtFirst(allocator.Hash());
    forall a, b | HashOf(a) == HashOf(b)
      ensures a == b
    {
      HashInjective(a, b);
    }
    RepeatFound(init, steps, loopSize, HashOf);
    r := Some((steps, loopSize));
  }

  /** The rounds ago at which the current hash was first recorded lead back to an equal
      configuration, when equal hashes mean equal configurations. */
  lemma RepeatFound(s: seq<int>, steps: nat, loopSize: int, hash: seq<int> -> string)
    requires forall a, b :: hash(a) == hash(b) ==> a == b
    requires exists k :: 0 <= k < steps && Hashes(s, steps, hash)[k] == hash(Iterate(s, steps)) && loopSize == steps - k
    ensures 0 < loopSize <= steps && Iterate(s, steps) == Iterate(s, steps - loopSize)
  {
    var k :| 0 <= k < steps && Hashes(s, steps, hash)[k] == hash(Iterate(s, steps)) && loopSize == steps - k;
    HashesAt(s, steps, k, hash);
  }
}
