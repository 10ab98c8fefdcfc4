/** Absolute values, maxima, and facts about Euclidean division that several puzzles lean on. */
module Arith {
  /** The absolute value. */
  function Abs(x: int): (a: int)
    ensures a >= 0 && (a == x || a == -x)
  {
    if x < 0 then -x else x
  }

  /** Euclidean remainders are unique. */
  lemma ModUnique(x: int, n: int, q: int, r: int)
    requires n > 0 && 0 <= r < n && x == n * q + r
    ensures x % n == r
  {
    var q', r' := x / n, x % n;
    var d := q - q';
    assert n * d == r' - r by {
      assert n * q - n * q' == n * (q - q');
    }
  }

  /** Subtracting the modulus keeps the remainder. */
  lemma ModSub(x: int, n: int)
    requires n > 0
    ensures (x - n) % n == x % n
  {
    ModUnique(x, n, (x - n) / n + 1, (x - n) % n);
  }

  /** Counting up by one moves the remainder on by one, wrapping to zero at the modulus. */
  lemma ModNext(x: int, n: int)
    requires n > 0
    ensures (x + 1) % n == if x % n + 1 == n then 0 else x % n + 1
  {
    if x % n + 1 == n {
      ModUnique(x + 1, n, x / n + 1, 0);
    } else {
      ModUnique(x + 1, n, x / n, x % n + 1);
    }
  }

  /** Reducing one summand first does not change the remainder of a sum. */
  lemma ModAddMod(a: int, b: int, n: int)
    requires n > 0
    ensures (a + b % n) % n == (a + b) % n
  {
    var x := a + b % n;
    assert a + b == n * (b / n + x / n) + x % n by {
      assert b == n * (b / n) + b % n;
      assert x == n * (x / n) + x % n;
    }
    ModUnique(a + b, n, b / n + x / n, x % n);
  }

  /** Quotient and remainder are unique. */
  lemma DivUnique(x: int, n: int, q: int, r: int)
    requires n > 0 && 0 <= r < n && x == n * q + r
    ensures x / n == q && x % n == r
  {
    ModUnique(x, n, q, r);
    assert n * (x / n) == n * q by {
      assert x == n * (x / n) + x % n;
    }
  }

  /** Counting up by one moves the remainder on by one, or wraps it to zero and moves the
      quotient on. */
  lemma DivModNext(x: int, n: int, next: int)
    requires n > 0 && next == x + 1
    ensures x % n + 1 < n ==> next / n == x / n && next % n == x % n + 1
    ensures x % n + 1 == n ==> next / n == x / n + 1 && next % n == 0
  {
    assert x == n * (x / n) + x % n;
    if x % n + 1 < n {
      DivUnique(next, n, x / n, x % n + 1);
    } else {
      assert next == n * (x / n + 1) + 0;
      DivUnique(next, n, x / n + 1, 0);
    }
  }

  /** `x` is a multiple of `2 n` exactly when it is a multiple of `n` an even number of times. */
  lemma DoubleModZero(x: int, n: int)
    requires n > 0
    ensures x % (2 * n) == 0 <==> x % n == 0 && (x / n) % 2 == 0
  {
    var h, o, r := (x / n) / 2, (x / n) % 2, x % n;
    Halves(x, n);
    if o == 0 && r == 0 {
      DivUnique(x, 2 * n, h, 0);
    } else {
      DivUnique(x, 2 * n, h, n * o + r);
    }
  }

  /** `x` split by `2 n`: the pairs of runs of `n` it holds, and what is left over. */
  lemma Halves(x: int, n: int)
    requires n > 0
    ensures x == 2 * n * ((x / n) / 2) + (n * ((x / n) % 2) + x % n)
    ensures (x / n) % 2 == 0 || n * ((x / n) % 2) == n
  {
    var b, r := x / n, x % n;
    var h, o := b / 2, b % 2;
    assert x == n * b + r;
    assert b == 2 * h + o;
    assert n * b == 2 * n * h + n * o by {
      assert n * (2 * h + o) == n * (2 * h) + n * o;
    }
  }

  /** Rust's `%` on integers: truncating remainder, whose sign follows the dividend
      (`-7 % 3` is -1 in Rust, where the Euclidean remainder is 2). */
  function TruncRem(a: int, b: int): (r: int)
    requires b != 0
    ensures -Abs(b) < r < Abs(b)
    ensures a >= 0 ==> r >= 0
    ensures a <= 0 ==> r <= 0
  {
    if a >= 0 then a % Abs(b) else -((-a) % Abs(b))
  }

  /** Rust's `/` on integers: the quotient rounded toward zero. */
  function TruncQuot(a: int, b: int): int
    requires b != 0
  {
    if (a >= 0) == (b > 0) then Abs(a) / Abs(b) else -(Abs(a) / Abs(b))
  }

  /** The truncating quotient and remainder recompose the dividend. */
  lemma TruncDivision(a: int, b: int)
    requires b != 0
    ensures a == TruncQuot(a, b) * b + TruncRem(a, b)
  {
    var q, m := Abs(a) / Abs(b), Abs(b);
    assert Abs(a) == q * m + Abs(a) % m;
    if b > 0 {
      assert m == b;
    } else {
      assert m == -b;
      assert q * b == -(q * m);
    }
  }


  /** The truncating remainder is zero exactly when `b` divides `a`, and the truncating
      quotient is then exact. */
  lemma TruncRemZero(a: int, b: int)
    requires b != 0
    ensures TruncRem(a, b) == 0 <==> a % Abs(b) == 0
    ensures TruncRem(a, b) == 0 ==> TruncQuot(a, b) * b == a
  {
    TruncDivision(a, b);
    var m := Abs(b);
    if a < 0 {
      var k := (-a) / m;
      assert -a == m * k + (-a) % m;
      if (-a) % m == 0 {
        DivUnique(a, m, -k, 0);
      }
      if a % m == 0 {
        var j := a / m;
        assert a == m * j + 0;
        DivUnique(-a, m, -j, 0);
      }
    }
  }

  /** The largest value of a non-empty sequence (a row's maximum of day 2, and
      `Math.max(...banks)` of the JavaScript day 6). */
  function Max(s: seq<int>): (m: int)
    requires s != []
    ensures m in s && forall k :: 0 <= k < |s| ==> s[k] <= m
  {
    if |s| == 1 then s[0]
    else
      var rest := Max(s[1..]);
      assert forall k :: 1 <= k < |s| ==> s[k] == s[1..][k - 1];
      if s[0] >= rest then s[0] else rest
  }
}
