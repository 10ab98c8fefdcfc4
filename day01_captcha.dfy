/** The inverse captcha: the sum of the digits that match the digit a given distance further
    round the circular list. */
module InverseCaptcha {
  import opened Common
  import opened Arith

  /** Where each digit is compared: from the digits and a position, a position that is taken
      round the circle. */
  type Partner = (seq<nat>, nat) -> nat

  /** Part 1: the next digit. */
  function NextOne(digits: seq<nat>, i: nat): nat
  {
    i + 1
  }

  /** Part 2: the digit halfway round. */
  function Halfway(digits: seq<nat>, i: nat): nat
  {
    |digits| / 2 + i
  }

  /** `to_digit(10).unwrap()` on one character. */
  function DigitOf(c: char): (r: Result<nat>)
    ensures r.Ok? <==> '0' <= c <= '9'
    ensures r.Ok? ==> r.value < 10 && r.value == c as int - '0' as int
    ensures r.Err? ==> r.msg == "called `Option::unwrap()` on a `None` value"
  {
    if '0' <= c <= '9' then Ok((c as int - '0' as int) as nat) else Err("called `Option::unwrap()` on a `None` value")
  }

  /** Every character of the input as a digit; any other character aborts. */
  function ParseDigits(input: string): Result<seq<nat>>
  {
    MapAll(input, DigitOf)
  }

  /** All values are digits. */
  ghost predicate Digits(digits: seq<nat>)
  {
    forall i :: 0 <= i < |digits| ==> digits[i] < 10
  }

  /** What the digit at `i` adds to the sum: itself when it equals the digit it is compared
      with, nothing otherwise. */
  function Contribution(digits: seq<nat>, partner: Partner, i: nat): nat
    requires i < |digits|
  {
    if digits[i] == digits[partner(digits, i) % |digits|] then digits[i] else 0
  }

  /** The contributions of the first `k` digits. */
  function MatchSum(digits: seq<nat>, partner: Partner, k: nat): nat
    requires k <= |digits|
  {
    if k == 0 then 0 else MatchSum(digits, partner, k - 1) + Contribution(digits, partner, k - 1)
  }

  /** The captcha: the contributions of all the digits. */
  function Captcha(digits: seq<nat>, partner: Partner): nat
  {
    MatchSum(digits, partner, |digits|)
  }

  /** `while next_index >= len { next_index -= len }`: the partner's position taken round the
      circle, which is its remainder by the length. */
  method Wrap(index: nat, len: nat) returns (wrapped: nat)
    requires len > 0
    ensures wrapped < len && wrapped == index % len
  {
    wrapped := index;
    while wrapped >= len
      invariant wrapped % len == index % len
    {
      ModSub(wrapped, len);
      wrapped := wrapped - len;
    }
  }

  /** `get_sum_matching_index`: the captcha of the input's digits, or the abort of a
      character that is not a digit. */
  method SumMatchingIndex(input: string, partner: Partner) returns (r: Result<nat>)
    ensures ParseDigits(input).Err? ==> r == Err(ParseDigits(input).msg)
    ensures ParseDigits(input).Ok? ==> r == Ok(Captcha(ParseDigits(input).value, partner))
  {
    var parsed := ParseDigits(input);
    if parsed.Err? {
      return Err(parsed.msg);
    }
    var digits := parsed.value;
    var total := 0;
    for i := 0 to |digits|
      invariant total == MatchSum(digits, partner, i)
    {
      var nextIndex := Wrap(partner(digits, i), |digits|);
      if digits[i] == digits[nextIndex] {
        total := total + digits[i];
      }
    }
    return Ok(total);
  }

  /** `get_sum`: Part 1, each digit against the next one. */
  method GetSum(input: string) returns (r: Result<nat>)
    ensures ParseDigits(input).Err? ==> r == Err(ParseDigits(input).msg)
    ensures ParseDigits(input).Ok? ==> r == Ok(Captcha(ParseDigits(input).value, NextOne))
  {
    r := SumMatchingIndex(input, NextOne);
  }

  /** A character string parses exactly when it is all digits, each one's value. */
  lemma ParseDigitsMeaning(input: string)
    ensures ParseDigits(input).Ok? <==> forall i :: 0 <= i < |input| ==> '0' <= input[i] <= '9'
    ensures ParseDigits(input).Ok? ==> Digits(ParseDigits(input).value)
  {
    var r := ParseDigits(input);
    if r.Ok? {
      forall i | 0 <= i < |r.value|
        ensures r.value[i] < 10
      {
        assert DigitOf(input[i]) == Ok(r.value[i]);
      }
    }
  }

  /** The sum is at most nine per digit: the digits' own sum at most. */
  lemma {:induction false} MatchSumBound(digits: seq<nat>, partner: Partner, k: nat)
    requires k <= |digits| && Digits(digits)
    ensures MatchSum(digits, partner, k) <= 9 * k
  {
    if k > 0 {
      MatchSumBound(digits, partner, k - 1);
    }
  }

  /** When all digits are the same, each one matches whatever it is compared with. */
  lemma {:induction false} MatchSumAllSame(digits: seq<nat>, partner: Partner, d: nat, k: nat)
    requires k <= |digits| && forall i :: 0 <= i < |digits| ==> digits[i] == d
    ensures MatchSum(digits, partner, k) == d * k
  {
    if k > 0 {
      MatchSumAllSame(digits, partner, d, k - 1);
    }
  }

  /** For every partner the captcha is at most nine times the number of digits, and a list of
      one repeated digit sums to that digit times the length. */
  lemma CaptchaBounds(digits: seq<nat>, partner: Partner)
    requires Digits(digits)
    ensures Captcha(digits, partner) <= 9 * |digits|
    ensures forall d: nat :: (forall i :: 0 <= i < |digits| ==> digits[i] == d) ==> Captcha(digits, partner) == d * |digits|
  {
    MatchSumBound(digits, partner, |digits|);
    forall d: nat | forall i :: 0 <= i < |digits| ==> digits[i] == d
      ensures Captcha(digits, partner) == d * |digits|
    {
      MatchSumAllSame(digits, partner, d, |digits|);
    }
  }

  /** The matches of the first `k` digits of the first half with the digit halfway round. */
  function HalfMatches(digits: seq<nat>, k: nat): nat
    requires k <= |digits| / 2
  {
    if k == 0 then 0
    else
      var i := k - 1;
      HalfMatches(digits, i) + (if digits[i] == digits[i + |digits| / 2] then digits[i] else 0)
  }

  /** Over the first half, comparing halfway round never wraps. */
  lemma {:induction false} FirstHalf(digits: seq<nat>, k: nat)
    requires k <= |digits| / 2
    ensures MatchSum(digits, Halfway, k) == HalfMatches(digits, k)
  {
    if k > 0 {
      FirstHalf(digits, k - 1);
      var n := |digits|;
      ModUnique(n / 2 + (k - 1), n, 0, n / 2 + (k - 1));
    }
  }

  /** Over the second half of a list of even length, comparing halfway round wraps to the
      first half: each position matches as its partner does. */
  lemma {:induction false} SecondHalf(digits: seq<nat>, k: nat)
    requires |digits| % 2 == 0 && k <= |digits| / 2
    ensures MatchSum(digits, Halfway, |digits| / 2 + k) == MatchSum(digits, Halfway, |digits| / 2) + HalfMatches(digits, k)
  {
    if k > 0 {
      SecondHalf(digits, k - 1);
      var n := |digits|;
      var i := n / 2 + (k - 1);
      ModUnique(n / 2 + i, n, 1, k - 1);
    }
  }

  /** Part 2 on a list of even length counts every match twice: a digit matches the one
      halfway round exactly when that one matches it back. */
  lemma HalfwayTwice(digits: seq<nat>)
    requires |digits| % 2 == 0
    ensures Captcha(digits, Halfway) == 2 * HalfMatches(digits, |digits| / 2)
  {
    FirstHalf(digits, |digits| / 2);
    SecondHalf(digits, |digits| / 2);
  }

  /** The matches of each of the first `k` digits with the digit right after it. */
  function AdjacentMatches(digits: seq<nat>, k: nat): nat
    requires k < |digits|
  {
    if k == 0 then 0
    else
      var i := k - 1;
      AdjacentMatches(digits, i) + (if digits[i] == digits[i + 1] then digits[i] else 0)
  }

  /** Before the last digit, comparing with the next one never wraps. */
  lemma {:induction false} NextOneNoWrap(digits: seq<nat>, k: nat)
    requires k < |digits|
    ensures MatchSum(digits, NextOne, k) == AdjacentMatches(digits, k)
  {
    if k > 0 {
      NextOneNoWrap(digits, k - 1);
      ModUnique(k, |digits|, 0, k);
    }
  }

  /** Part 1 on a non-empty list: the matches of neighbouring digits, and of the last digit
      with the first, since the list is circular. */
  lemma NextOneCircular(digits: seq<nat>)
    requires |digits| >= 1
    ensures var n := |digits|;
      Captcha(digits, NextOne)
      == AdjacentMatches(digits, n - 1) + (if digits[n - 1] == digits[0] then digits[n - 1] else 0)
  {
    var n := |digits|;
    NextOneNoWrap(digits, n - 1);
    ModUnique(n, n, 1, 0);
  }

  /** `test_day01_run`, Part 1: 1122 gives 3, 1111 gives 4 and 1234 gives 0. */
  lemma NextOneSamples()
    ensures Captcha([1, 1, 2, 2], NextOne) == 3
    ensures Captcha([1, 1, 1, 1], NextOne) == 4
    ensures Captcha([1, 2, 3, 4], NextOne) == 0
  {
    NextOneCircular([1, 1, 2, 2]);
    NextOneCircular([1, 1, 1, 1]);
    NextOneCircular([1, 2, 3, 4]);
  }

  /** `test_day01_run`, Part 1: 91212129 gives 9, the last 9 matching the first. */
  lemma NextOneLongSample()
    ensures Captcha([9, 1, 2, 1, 2, 1, 2, 9], NextOne) == 9
  {
    var digits := [9, 1, 2, 1, 2, 1, 2, 9];
    NextOneCircular(digits);
    assert AdjacentMatches(digits, 4) == 0;
    assert AdjacentMatches(digits, 7) == 0;
  }

  /** `test_day01_run`, Part 2: 1212 gives 6, 1221 gives 0, 123425 gives 4 and 123123 gives 12. */
  lemma HalfwaySamples()
    ensures Captcha([1, 2, 1, 2], Halfway) == 6
    ensures Captcha([1, 2, 2, 1], Halfway) == 0
    ensures Captcha([1, 2, 3, 4, 2, 5], Halfway) == 4
    ensures Captcha([1, 2, 3, 1, 2, 3], Halfway) == 12
  {
    HalfwayTwice([1, 2, 1, 2]);
    HalfwayTwice([1, 2, 2, 1]);
    HalfwayTwice([1, 2, 3, 4, 2, 5]);
    HalfwayTwice([1, 2, 3, 1, 2, 3]);
  }

  /** `test_day01_run`, Part 2: 12131415 gives 4. */
  lemma HalfwayLongSample()
    ensures Captcha([1, 2, 1, 3, 1, 4, 1, 5], Halfway) == 4
  {
    HalfwayTwice([1, 2, 1, 3, 1, 4, 1, 5]);
  }

  /** The text 1122 is its digits. */
  lemma ParseShortSample()
    ensures ParseDigits("1122") == Ok([1, 1, 2, 2])
  {
    MapAllOk("1122", DigitOf, [1, 1, 2, 2]);
  }

  /** The text 91212129 is its digits. */
  lemma ParseLongSample()
    ensures ParseDigits("91212129") == Ok([9, 1, 2, 1, 2, 1, 2, 9])
  {
    MapAllOk("91212129", DigitOf, [9, 1, 2, 1, 2, 1, 2, 9]);
  }
}
