/** The inverse captcha of the TypeScript and JavaScript solutions: the digits of the input
    that are strictly equal to the number at their partner index, added up. */
module CircularSum {
  import opened Common
  import opened Arith
  import InverseCaptcha

  /** A JavaScript number as `parseInt` gives it for one character: a digit, or `NaN`. */
  datatype Number = Num(value: int) | NaN

  /** `parseInt(str, 10)` of a single character. */
  function ParseInt(c: char): (n: Number)
    ensures n.Num? <==> '0' <= c <= '9'
    ensures n.Num? ==> 0 <= n.value < 10 && n.value == c as int - '0' as int
  {
    if '0' <= c <= '9' then Num(c as int - '0' as int) else NaN
  }

  /** `sequence.split('').map(...)`: each character parsed on its own. */
  function Numbers(sequence: string): (r: seq<Number>)
    ensures |r| == |sequence| && forall i :: 0 <= i < |sequence| ==> r[i] == ParseInt(sequence[i])
  {
    seq(|sequence|, i requires 0 <= i < |sequence| => ParseInt(sequence[i]))
  }

  /** The characters all parse exactly when the Rust parser accepts them, and to the same
      digits. */
  lemma NumbersAgreeWithRust(sequence: string)
    ensures (forall i :: 0 <= i < |sequence| ==> Numbers(sequence)[i].Num?) <==> InverseCaptcha.ParseDigits(sequence).Ok?
    ensures InverseCaptcha.ParseDigits(sequence).Ok? ==>
      forall i :: 0 <= i < |sequence| ==> Numbers(sequence)[i] == Num(InverseCaptcha.ParseDigits(sequence).value[i])
  {
    forall i | 0 <= i < |sequence|
      ensures Numbers(sequence)[i].Num? <==> InverseCaptcha.DigitOf(sequence[i]).Ok?
    {
    }
  }

  /** `GetNextIdx`: the partner index of a position, a JavaScript number. */
  type GetNextIdx = (seq<Number>, nat) -> real

  /** The default partner: the next index. */
  function NextIdx(ary: seq<Number>, idx: nat): real
  {
    idx as real + 1.0
  }

  /** Part 2's partner: half the length further on, a fraction when the length is odd. */
  function HalfIdx(ary: seq<Number>, idx: nat): real
  {
    idx as real + |ary| as real / 2.0
  }

  /** `numbers[nextIdx]` once an index at or past the length has had the length taken off
      once: the number there, or `undefined` (`None`) for an index that is not a whole number
      in range. */
  function Next(numbers: seq<Number>, getNextIdx: GetNextIdx, i: nat): Option<Number>
  {
    var nextIdx := getNextIdx(numbers, i);
    var nextIdx := if nextIdx >= |numbers| as real then nextIdx - |numbers| as real else nextIdx;
    if nextIdx == nextIdx.Floor as real && 0 <= nextIdx.Floor < |numbers| then Some(numbers[nextIdx.Floor]) else None
  }

  /** `num === next`: `NaN` and `undefined` equal nothing. */
  function StrictEquals(num: Number, next: Option<Number>): bool
  {
    num.Num? && next == Some(num)
  }

  /** The reduction over the first `k` numbers. */
  function SumUpTo(numbers: seq<Number>, getNextIdx: GetNextIdx, k: nat): int
    requires k <= |numbers|
  {
    if k == 0 then 0
    else
      var sum := SumUpTo(numbers, getNextIdx, k - 1);
      var num := numbers[k - 1];
      if StrictEquals(num, Next(numbers, getNextIdx, k - 1)) then sum + num.value else sum
  }

  /** `sumMatching`: each number added when it is strictly equal to its partner's. */
  function SumMatching(numbers: seq<Number>, getNextIdx: GetNextIdx): int
  {
    SumUpTo(numbers, getNextIdx, |numbers|)
  }

  /** A partner index that is a whole number below twice the length is taken round the
      circle; one at twice the length or beyond is `undefined`, the length being taken off
      only once. */
  lemma WrapOnce(numbers: seq<Number>, getNextIdx: GetNextIdx, i: nat, index: nat)
    requires getNextIdx(numbers, i) == index as real && |numbers| > 0
    ensures index < 2 * |numbers| ==> Next(numbers, getNextIdx, i) == Some(numbers[index % |numbers|])
    ensures index >= 2 * |numbers| ==> Next(numbers, getNextIdx, i) == None
  {
    var n := |numbers|;
    var wrapped: int := if index >= n then index - n else index;
    assert (if index as real >= n as real then index as real - n as real else index as real) == wrapped as real;
    assert (wrapped as real).Floor == wrapped;
    if index < n {
      ModUnique(index, n, 0, index);
    } else if index < 2 * n {
      ModUnique(index, n, 1, index - n);
    }
  }

  /** The digits of the Rust solution as JavaScript numbers. */
  function AsNumbers(digits: seq<nat>): (r: seq<Number>)
    ensures |r| == |digits| && forall i :: 0 <= i < |digits| ==> r[i] == Num(digits[i])
  {
    seq(|digits|, i requires 0 <= i < |digits| => Num(digits[i]))
  }

  /** Over digits, a JavaScript partner that is the Rust partner, below twice the length,
      gives the Rust sum. */
  lemma {:induction false} SumUpToAgrees(digits: seq<nat>, getNextIdx: GetNextIdx, partner: InverseCaptcha.Partner, k: nat)
    requires k <= |digits|
    requires forall i: nat :: i < |digits| ==> getNextIdx(AsNumbers(digits), i) == partner(digits, i) as real
    requires forall i: nat :: i < |digits| ==> partner(digits, i) < 2 * |digits|
    ensures SumUpTo(AsNumbers(digits), getNextIdx, k) == InverseCaptcha.MatchSum(digits, partner, k)
  {
    if k > 0 {
      SumUpToAgrees(digits, getNextIdx, partner, k - 1);
      WrapOnce(AsNumbers(digits), getNextIdx, k - 1, partner(digits, k - 1));
    }
  }

  /** Part 1 is the Rust Part 1 over every list of digits. */
  lemma NextIdxAgrees(digits: seq<nat>)
    ensures SumMatching(AsNumbers(digits), NextIdx) == InverseCaptcha.Captcha(digits, InverseCaptcha.NextOne)
  {
    SumUpToAgrees(digits, NextIdx, InverseCaptcha.NextOne, |digits|);
  }

  /** Part 2 is the Rust Part 2 over every list of digits of even length. */
  lemma HalfIdxAgrees(digits: seq<nat>)
    requires |digits| % 2 == 0
    ensures SumMatching(AsNumbers(digits), HalfIdx) == InverseCaptcha.Captcha(digits, InverseCaptcha.Halfway)
  {
    var n := |digits|;
    assert n as real / 2.0 == (n / 2) as real;
    SumUpToAgrees(digits, HalfIdx, InverseCaptcha.Halfway, n);
  }

  /** Over an odd number of numbers, every Part 2 partner index ends in one half, so nothing
      matches and the sum is 0. */
  lemma {:induction false} HalfIdxOdd(numbers: seq<Number>, k: nat)
    requires |numbers| % 2 == 1 && k <= |numbers|
    ensures SumUpTo(numbers, HalfIdx, k) == 0
  {
    if k > 0 {
      HalfIdxOdd(numbers, k - 1);
      var n := |numbers|;
      var x := HalfIdx(numbers, k - 1);
      assert x == (k - 1 + n / 2) as real + 0.5;
      var y := if x >= n as real then x - n as real else x;
      assert y.Floor as real != y;
    }
  }

  /** A character that is not a digit is `NaN`, never strictly equal to anything, so it adds
      nothing whatever its partner. */
  lemma NaNNeverMatches(numbers: seq<Number>, getNextIdx: GetNextIdx, i: nat)
    requires i < |numbers| && numbers[i] == NaN
    ensures SumUpTo(numbers, getNextIdx, i + 1) == SumUpTo(numbers, getNextIdx, i)
  {
  }
}
