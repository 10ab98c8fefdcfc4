/** Spinlock: a circular buffer that grows by one value per step, each value inserted just
    after the place reached by stepping forward a fixed number of times. */
module Spinlock {
  import opened Common
  import Arith

  /** The buffer and the current position in it. */
  datatype Lock = Lock(buffer: seq<nat>, pos: nat)

  /** `Vec::insert`: `x` placed at index `k`, the rest moved one place right. */
  function InsertAt(s: seq<nat>, k: nat, x: nat): (t: seq<nat>)
    requires k <= |s|
    ensures |t| == |s| + 1
  {
    s[..k] + [x] + s[k..]
  }

  /** The insertion index: `steps` (reduced modulo the length) forward from `pos`,
      wrapped around the buffer, plus one. */
  function Landing(pos: nat, steps: nat, len: nat): (p: nat)
    requires len > 0
    ensures 1 <= p <= len
  {
    (pos + steps % len) % len + 1
  }

  /** The values `i..=end` inserted one after the other; the buffer must not be empty. */
  function SpinFrom(s: seq<nat>, pos: nat, steps: nat, i: nat, end: nat): Lock
    requires |s| > 0
    decreases if i <= end then end + 1 - i else 0
  {
    if i > end then Lock(s, pos)
    else
      var p := Landing(pos, steps, |s|);
      SpinFrom(InsertAt(s, p, i), p, steps, i + 1, end)
  }

  /** `spinlock`: the buffer after inserting `start..=end` from position 0. With no values to
      insert nothing happens; otherwise an empty buffer fails at the remainder by zero. */
  function Spinlock(v: seq<nat>, steps: nat, start: nat, end: nat): Result<seq<nat>>
  {
    if start > end then Ok(v)
    else if v == [] then Err("attempt to calculate the remainder with a divisor of zero")
    else Ok(SpinFrom(v, 0, steps, start, end).buffer)
  }

  /** `spinlock`, with its insertion loop and the inner loop that wraps the index. */
  method Spin(v: seq<nat>, steps: nat, start: nat, end: nat) returns (r: Result<seq<nat>>)
    ensures r == Spinlock(v, steps, start, end)
  {
    if start > end {
      return Ok(v);
    }
    var buf: seq<nat> := v;
    var pos: nat := 0;
    for i := start to end + 1
      invariant |buf| == |v| + (i - start)
      invariant v == [] ==> i == start
      invariant buf != [] ==> SpinFrom(buf, pos, steps, i, end) == SpinFrom(v, 0, steps, start, end)
    {
      if buf == [] {
        return Err("attempt to calculate the remainder with a divisor of zero");
      }
      var forward := steps % |buf|;
      var idx: nat := pos + forward;
      while idx >= |buf|
        invariant idx % |buf| == (pos + forward) % |buf|
        decreases idx
      {
        Arith.ModSub(idx, |buf|);
        idx := idx - |buf|;
      }
      Arith.ModUnique(idx, |buf|, 0, idx);
      buf := buf[..idx + 1] + [i] + buf[idx + 1..];
      pos := idx + 1;
    }
    r := Ok(buf);
  }

  // ---------------------------------------------------------------------------------------
  // What the insertions keep

  /** How many values `i..=end` there are. */
  function Count(i: nat, end: nat): nat
  {
    if i <= end then end + 1 - i else 0
  }

  /** The values `i..=end`, each once. */
  function Values(i: nat, end: nat): multiset<nat>
    decreases Count(i, end)
  {
    if i > end then multiset{} else multiset{i} + Values(i + 1, end)
  }

  /** `Values(i, end)` holds each of `i..=end` exactly once and nothing else. */
  lemma {:induction false} ValuesOnce(i: nat, end: nat, k: nat)
    ensures Values(i, end)[k] == if i <= k <= end then 1 else 0
    decreases Count(i, end)
  {
    if i <= end {
      ValuesOnce(i + 1, end, k);
    }
  }

  /** The buffer grows by one per inserted value. */
  lemma {:induction false} SpinGrows(s: seq<nat>, pos: nat, steps: nat, i: nat, end: nat)
    requires |s| > 0
    ensures |SpinFrom(s, pos, steps, i, end).buffer| == |s| + Count(i, end)
    decreases Count(i, end)
  {
    if i <= end {
      var p := Landing(pos, steps, |s|);
      SpinGrows(InsertAt(s, p, i), p, steps, i + 1, end);
    }
  }

  /** Every insertion index is at least 1, so the first value never moves. */
  lemma {:induction false} SpinKeepsFirst(s: seq<nat>, pos: nat, steps: nat, i: nat, end: nat)
    requires |s| > 0
    ensures |SpinFrom(s, pos, steps, i, end).buffer| > 0
    ensures SpinFrom(s, pos, steps, i, end).buffer[0] == s[0]
    decreases Count(i, end)
  {
    SpinGrows(s, pos, steps, i, end);
    if i <= end {
      var p := Landing(pos, steps, |s|);
      SpinKeepsFirst(InsertAt(s, p, i), p, steps, i + 1, end);
    }
  }

  /** The buffer holds what it held and the inserted values, each once. */
  lemma {:induction false} SpinHolds(s: seq<nat>, pos: nat, steps: nat, i: nat, end: nat)
    requires |s| > 0
    ensures multiset(SpinFrom(s, pos, steps, i, end).buffer) == multiset(s) + Values(i, end)
    decreases Count(i, end)
  {
    if i <= end {
      var p := Landing(pos, steps, |s|);
      var t := InsertAt(s, p, i);
      assert s == s[..p] + s[p..];
      assert multiset(t) == multiset(s) + multiset{i};
      SpinHolds(t, p, steps, i + 1, end);
    }
  }

  /** After an insertion, the position is where the value just inserted sits. */
  lemma {:induction false} SpinEndsOnLast(s: seq<nat>, pos: nat, steps: nat, i: nat, end: nat)
    requires |s| > 0 && i <= end
    ensures var l := SpinFrom(s, pos, steps, i, end);
      1 <= l.pos < |l.buffer| && l.buffer[l.pos] == end
    decreases Count(i, end)
  {
    var p := Landing(pos, steps, |s|);
    var t := InsertAt(s, p, i);
    if i < end {
      SpinEndsOnLast(t, p, steps, i + 1, end);
    } else {
      assert t[p] == i;
    }
  }

  /** Started from `[0]` with the values `1..=end`, the buffer holds each of `0..=end`
      exactly once and still starts with 0. */
  lemma SpinFromZero(steps: nat, end: nat)
    requires end >= 1
    ensures var w := Spinlock([0], steps, 1, end).value;
      |w| == end + 1 && w[0] == 0 &&
      forall k: nat :: multiset(w)[k] == if k <= end then 1 else 0
  {
    SpinGrows([0], 0, steps, 1, end);
    SpinKeepsFirst([0], 0, steps, 1, end);
    SpinHolds([0], 0, steps, 1, end);
    forall k: nat
      ensures multiset(Spinlock([0], steps, 1, end).value)[k] == if k <= end then 1 else 0
    {
      ValuesOnce(1, end, k);
    }
  }

  /** With step 3, the first three insertions give `0 1`, `0 2 1` and `0 2 3 1`. */
  lemma SampleThree()
    ensures Spinlock([0], 3, 1, 3) == Ok([0, 2, 3, 1])
  {
    SampleFirst();
    SampleSecond();
    SampleThird();
  }

  lemma SampleFirst()
    ensures SpinFrom([0], 0, 3, 1, 3) == SpinFrom([0, 1], 1, 3, 2, 3)
  {
    assert Landing(0, 3, 1) == 1;
    assert InsertAt([0], 1, 1) == [0, 1];
  }

  lemma SampleSecond()
    ensures SpinFrom([0, 1], 1, 3, 2, 3) == SpinFrom([0, 2, 1], 1, 3, 3, 3)
  {
    Arith.ModUnique(3, 2, 1, 1);
    Arith.ModUnique(2, 2, 1, 0);
    assert Landing(1, 3, 2) == 1;
    assert InsertAt([0, 1], 1, 2) == [0, 2, 1];
  }

  lemma SampleThird()
    ensures SpinFrom([0, 2, 1], 1, 3, 3, 3) == Lock([0, 2, 3, 1], 2)
  {
    assert Landing(1, 3, 3) == 2;
    assert InsertAt([0, 2, 1], 2, 3) == [0, 2, 3, 1];
  }

  // ---------------------------------------------------------------------------------------
  // `spinlock_for_index`: the positions alone, with the buffer length equal to the value

  /** The landings of the values `i..=end` when, as from `[0]` with start 1, the buffer
      holds `i` values when `i` is inserted. */
  function Landings(pos: nat, steps: nat, i: nat, end: nat): (ps: seq<nat>)
    requires i >= 1
    ensures |ps| == Count(i, end)
    decreases Count(i, end)
  {
    if i > end then []
    else
      var p := (pos + steps) % i + 1;
      [p] + Landings(p, steps, i + 1, end)
  }

  /** The loop of `spinlock_for_index` from value `i` on, with the answer found so far. */
  function IndexFrom(index: nat, steps: nat, pos: nat, i: nat, end: nat, answer: Option<nat>): Option<nat>
    requires i >= 1
    decreases Count(i, end)
  {
    if i > end then answer
    else
      var idx := (pos + steps) % i;
      IndexFrom(index, steps, idx + 1, i + 1, end, if idx + 1 == index then Some(i) else answer)
  }

  /** `spinlock_for_index`. A start of 0 would make the wrapping loop subtract a length of
      zero forever, so the start must be at least 1. */
  function SpinlockForIndex(index: nat, steps: nat, start: nat, end: nat): Option<nat>
    requires start >= 1
  {
    IndexFrom(index, steps, 0, start, end, None)
  }

  /** `spinlock_for_index`, with its loop and the inner loop that wraps the index. */
  method ForIndex(index: nat, steps: nat, start: nat, end: nat) returns (answer: Option<nat>)
    requires start >= 1
    ensures answer == SpinlockForIndex(index, steps, start, end)
  {
    var pos: nat := 0;
    answer := None;
    if start > end {
      return;
    }
    for i := start to end + 1
      invariant IndexFrom(index, steps, pos, i, end, answer) == SpinlockForIndex(index, steps, start, end)
    {
      var listSize := i;
      var idx: nat := pos + steps;
      while idx >= listSize
        invariant idx % listSize == (pos + steps) % listSize
        decreases idx
      {
        Arith.ModSub(idx, listSize);
        idx := idx - listSize;
      }
      Arith.ModUnique(idx, listSize, 0, idx);
      if idx + 1 == index {
        answer := Some(i);
      }
      pos := idx + 1;
    }
  }

  /** The answer is the last value whose landing is `index`, or what was known before when
      no landing is. */
  lemma {:induction false} IndexIsLastLanding(index: nat, steps: nat, pos: nat, i: nat, end: nat, answer: Option<nat>)
    requires i >= 1 && (answer.Some? ==> answer.value < i)
    ensures var ps, r := Landings(pos, steps, i, end), IndexFrom(index, steps, pos, i, end, answer);
      (index !in ps <==> r == answer) &&
      (r != answer ==>
         r.Some? && i <= r.value < i + |ps| && ps[r.value - i] == index &&
         (forall j :: r.value - i < j < |ps| ==> ps[j] != index))
    decreases Count(i, end)
  {
    if i <= end {
      var p := (pos + steps) % i + 1;
      var next := if p == index then Some(i) else answer;
      IndexIsLastLanding(index, steps, p, i + 1, end, next);
      var rest := Landings(p, steps, i + 1, end);
      assert Landings(pos, steps, i, end) == [p] + rest;
    }
  }

  /** `spinlock_for_index` returns the last value that lands at `index`, or `None` when no
      value does. */
  lemma ForIndexIsLastLanding(index: nat, steps: nat, start: nat, end: nat)
    requires start >= 1
    ensures var ps, r := Landings(0, steps, start, end), SpinlockForIndex(index, steps, start, end);
      (r.None? <==> index !in ps) &&
      (r.Some? ==>
         start <= r.value && r.value - start < |ps| && ps[r.value - start] == index &&
         (forall j :: r.value - start < j < |ps| ==> ps[j] != index))
  {
    IndexIsLastLanding(index, steps, 0, start, end, None);
  }

  /** Reducing `steps` modulo the length first, as `spinlock` does, lands in the same place
      as the unreduced step count of `spinlock_for_index`. */
  lemma LandingAgrees(pos: nat, steps: nat, len: nat)
    requires len > 0
    ensures Landing(pos, steps, len) == (pos + steps) % len + 1
  {
    Arith.ModAddMod(pos, steps, len);
  }

  /** While the buffer holds `i` values when `i` is inserted, the value found for index 1
      is the value at index 1 of the buffer. */
  lemma {:induction false} FrontTracked(s: seq<nat>, pos: nat, steps: nat, i: nat, end: nat, answer: Option<nat>)
    requires |s| == i >= 1
    requires if |s| >= 2 then answer == Some(s[1]) else answer.None?
    ensures var w := SpinFrom(s, pos, steps, i, end).buffer;
      |w| >= 2 ==> IndexFrom(1, steps, pos, i, end, answer) == Some(w[1])
    ensures |SpinFrom(s, pos, steps, i, end).buffer| == 1 ==> IndexFrom(1, steps, pos, i, end, answer).None?
    decreases Count(i, end)
  {
    SpinGrows(s, pos, steps, i, end);
    if i <= end {
      var p := Landing(pos, steps, |s|);
      LandingAgrees(pos, steps, |s|);
      var t := InsertAt(s, p, i);
      var next := if p == 1 then Some(i) else answer;
      assert t[1] == if p == 1 then i else s[1];
      FrontTracked(t, p, steps, i + 1, end, next);
    }
  }

  /** Part 2: the value after 0 in the full buffer is what `spinlock_for_index` finds for
      index 1, without building the buffer. */
  lemma AfterZero(steps: nat, end: nat)
    requires end >= 1
    ensures var w := Spinlock([0], steps, 1, end).value;
      |w| >= 2 && SpinlockForIndex(1, steps, 1, end) == Some(w[1])
  {
    SpinGrows([0], 0, steps, 1, end);
    FrontTracked([0], 0, steps, 1, end, None);
  }
}
