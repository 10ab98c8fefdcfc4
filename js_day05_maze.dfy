/** The maze of twisty trampolines: a list of jump offsets walked from the first one, each
    offset changed by a modifier once it has been jumped from, until the position leaves the
    list. */
module Trampolines {
  /** What is done to an offset once it has been jumped from. */
  type Modifier = int -> int

  /** The default modifier: the offset grows by one. */
  function Increment(n: int): int
  {
    n + 1
  }

  /** Part 2's modifier: an offset of three or more shrinks by one, any other grows by one. */
  function Strange(n: int): int
  {
    if n >= 3 then n - 1 else n + 1
  }

  /** How a walk ends: past the end after `steps` jumps, before the start after `steps` jumps,
      or not within the jumps allowed. */
  datatype Outcome = Exited(steps: nat) | Fell(steps: nat) | OutOfFuel

  /** The same outcome with `k` more jumps made before it. */
  function Later(o: Outcome, k: nat): (r: Outcome)
    ensures r.Exited? == o.Exited? && r.Fell? == o.Fell?
    ensures !o.OutOfFuel? ==> r.steps == o.steps + k
  {
    match o
    case Exited(n) => Exited(n + k)
    case Fell(n) => Fell(n + k)
    case OutOfFuel => OutOfFuel
  }

  /** The walk from position `current` over `offsets`, with at most `fuel` jumps: each jump
      reads the offset, writes back its modified value and moves by the offset read. */
  function Run(offsets: seq<int>, current: int, modifier: Modifier, fuel: nat): Outcome
    decreases fuel
  {
    if current >= |offsets| then Exited(0)
    else if current < 0 then Fell(0)
    else if fuel == 0 then OutOfFuel
    else Later(Run(offsets[current := modifier(offsets[current])], current + offsets[current], modifier, fuel - 1), 1)
  }

  /** A walk with jumps left is one jump followed by the walk from where it lands. */
  lemma JumpRun(offsets: seq<int>, current: int, modifier: Modifier, fuel: nat, made: nat)
    requires 0 <= current < |offsets| && fuel > 0
    ensures Later(Run(offsets, current, modifier, fuel), made)
      == Later(Run(offsets[current := modifier(offsets[current])], current + offsets[current], modifier, fuel - 1), made + 1)
  {
  }

  /** A walk that ends within `fuel` jumps ends the same way with more fuel. */
  lemma {:induction false} RunMoreFuel(offsets: seq<int>, current: int, modifier: Modifier, fuel: nat, more: nat)
    requires fuel <= more && !Run(offsets, current, modifier, fuel).OutOfFuel?
    ensures Run(offsets, current, modifier, more) == Run(offsets, current, modifier, fuel)
    decreases fuel
  {
    if 0 <= current < |offsets| {
      RunMoreFuel(offsets[current := modifier(offsets[current])], current + offsets[current], modifier, fuel - 1, more - 1);
    }
  }

  /** A walk that ends takes at most the jumps allowed. */
  lemma {:induction false} RunSteps(offsets: seq<int>, current: int, modifier: Modifier, fuel: nat)
    requires !Run(offsets, current, modifier, fuel).OutOfFuel?
    ensures Run(offsets, current, modifier, fuel).steps <= fuel
    decreases fuel
  {
    if 0 <= current < |offsets| {
      RunSteps(offsets[current := modifier(offsets[current])], current + offsets[current], modifier, fuel - 1);
    }
  }

  // ---------------------------------------------------------------------------------------
  // Offsets that never point backwards

  /** A modifier that keeps offsets from pointing backwards and moves an offset of zero
      forward. */
  ghost predicate KeepsForward(modifier: Modifier)
  {
    modifier(0) >= 1 && forall n :: n >= 0 ==> modifier(n) >= 0
  }

  /** Both modifiers of the puzzle keep offsets pointing forward. */
  lemma ModifiersKeepForward()
    ensures KeepsForward(Increment) && KeepsForward(Strange)
  {
  }

  /** Every offset is zero or positive. */
  ghost predicate Forward(offsets: seq<int>)
  {
    forall k :: 0 <= k < |offsets| ==> offsets[k] >= 0
  }

  /** One jump for a forward offset, two for a zero one (it stays put once first). */
  function Weight(offset: int): nat
  {
    if offset == 0 then 2 else 1
  }

  /** The jumps a forward walk can still make from `current`: the weights of the offsets from
      `current` on. */
  function Budget(offsets: seq<int>, current: nat): nat
    decreases |offsets| - current
  {
    if current >= |offsets| then 0 else Weight(offsets[current]) + Budget(offsets, current + 1)
  }

  /** The budget is at most two per offset. */
  lemma {:induction false} BudgetBound(offsets: seq<int>, current: nat)
    ensures Budget(offsets, current) <= 2 * |offsets|
    ensures current <= |offsets| ==> Budget(offsets, current) <= 2 * (|offsets| - current)
    decreases |offsets| - current
  {
    if current < |offsets| {
      BudgetBound(offsets, current + 1);
    }
  }

  /** Starting further on leaves no more jumps. */
  lemma {:induction false} BudgetShrinks(offsets: seq<int>, current: nat, later: nat)
    requires current <= later
    ensures Budget(offsets, later) <= Budget(offsets, current)
    decreases later - current
  {
    if current < later {
      BudgetShrinks(offsets, current + 1, later);
    }
  }

  /** Changing an offset before `current` leaves the budget from `current` alone. */
  lemma {:induction false} BudgetFrame(offsets: seq<int>, i: nat, v: int, current: nat)
    requires i < current && i < |offsets|
    ensures Budget(offsets[i := v], current) == Budget(offsets, current)
    decreases |offsets| - current
  {
    if current < |offsets| {
      BudgetFrame(offsets, i, v, current + 1);
    }
  }

  /** A walk over offsets that never point backwards, with a modifier that keeps them so,
      leaves the list past its end within its budget of jumps. */
  lemma {:induction false} ForwardExits(offsets: seq<int>, current: nat, modifier: Modifier, fuel: nat)
    requires Forward(offsets) && KeepsForward(modifier) && Budget(offsets, current) <= fuel
    ensures Run(offsets, current, modifier, fuel).Exited?
    ensures Run(offsets, current, modifier, fuel).steps <= Budget(offsets, current)
    decreases fuel
  {
    if current < |offsets| {
      var o := offsets[current];
      var next := offsets[current := modifier(o)];
      assert Forward(next);
      BudgetFrame(offsets, current, modifier(o), current + 1);
      if o == 0 {
        assert Budget(next, current) == Budget(offsets, current) - 1;
      } else {
        BudgetShrinks(next, current + 1, current + o);
      }
      ForwardExits(next, current + o, modifier, fuel - 1);
    }
  }

  /** From the first offset, a list whose offsets never point backwards is left past its end
      within two jumps per offset, under either modifier of the puzzle. */
  lemma ForwardMazeExits(offsets: seq<int>, modifier: Modifier)
    requires Forward(offsets) && (modifier == Increment || modifier == Strange)
    ensures Run(offsets, 0, modifier, 2 * |offsets|).Exited?
    ensures Run(offsets, 0, modifier, 2 * |offsets|).steps <= 2 * |offsets|
  {
    ModifiersKeepForward();
    BudgetBound(offsets, 0);
    ForwardExits(offsets, 0, modifier, 2 * |offsets|);
  }

  // ---------------------------------------------------------------------------------------
  // The maze

  /** `JumpMaze`: its own copy of the offsets, the position and the number of jumps made. */
  class JumpMaze {
    const offsets: array<int>
    const modifier: Modifier
    var current: int
    var steps: nat

    /** The offsets are copied: the caller's list is never changed. */
    constructor(offsets: array<int>, modifier: Modifier)
      ensures fresh(this.offsets) && this.offsets[..] == offsets[..]
      ensures this.modifier == modifier && current == 0 && steps == 0
    {
      var copy := new int[offsets.Length];
      forall i | 0 <= i < offsets.Length {
        copy[i] := offsets[i];
      }
      this.offsets := copy;
      this.modifier := modifier;
      current := 0;
      steps := 0;
    }

    /** `isExited`: the position is past the last offset. */
    function IsExited(): (r: bool)
      reads this
      ensures r <==> current >= offsets.Length
    {
      current >= offsets.Length
    }

    /** `getSteps`. */
    function GetSteps(): int
      reads this
    {
      steps
    }

    /** `jump`: modify the offset at the position, move by its old value, count the jump. */
    method Jump()
      modifies this, offsets
      requires 0 <= current < offsets.Length
      ensures offsets[..] == old(offsets[..])[old(current) := modifier(old(offsets[current]))]
      ensures current == old(current) + old(offsets[current]) && steps == old(steps) + 1
    {
      var currentOffset := offsets[current];
      offsets[current] := modifier(currentOffset);
      current := current + currentOffset;
      steps := steps + 1;
    }

    /** `traverse`: jump until the position is past the last offset, and report the jumps made
      in all; the walk stops as well when the position falls before the first offset or
      after `fuel` jumps. */
    method Traverse(fuel: nat) returns (r: Outcome)
      modifies this, offsets
      ensures r == Later(Run(old(offsets[..]), old(current), modifier, fuel), old(steps))
      ensures r.Exited? ==> IsExited() && r.steps == steps
    {
      ghost var initial := Run(offsets[..], current, modifier, fuel);
      var used := 0;
      while !IsExited()
        invariant used <= fuel && steps == old(steps) + used
        invariant Later(initial, old(steps)) == Later(Run(offsets[..], current, modifier, fuel - used), steps)
        decreases fuel - used
      {
        if current < 0 {
          return Fell(steps);
        }
        if used == fuel {
          return OutOfFuel;
        }
        JumpRun(offsets[..], current, modifier, fuel - used, steps);
        Jump();
        used := used + 1;
      }
      return Exited(steps);
    }
  }

  /** One part of the puzzle: a new maze over the offsets with the part's modifier, traversed
      from the first offset. */
  method StepsToExit(offsets: array<int>, modifier: Modifier, fuel: nat) returns (r: Outcome)
    ensures r == Run(offsets[..], 0, modifier, fuel)
  {
    var maze := new JumpMaze(offsets, modifier);
    r := maze.Traverse(fuel);
  }
}
