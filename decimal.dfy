/** Decimal integer literals: reading them as Rust's `str::parse` does and writing them back. */
module Decimal {
  import opened Common

  predicate IsDigit(c: char) { '0' <= c <= '9' }

  predicate AllDigits(s: string) { forall i :: 0 <= i < |s| ==> IsDigit(s[i]) }

  function DigitValue(c: char): (d: nat)
    requires IsDigit(c)
    ensures d < 10
  {
    c as int - '0' as int
  }

  function DigitChar(d: nat): (c: char)
    requires d < 10
    ensures IsDigit(c) && DigitValue(c) == d
  {
    ('0' as int + d) as char
  }

  /** The number a string of digits denotes, most significant digit first. */
  function DigitsValue(s: string): nat
    requires AllDigits(s)
  {
    if s == [] then 0 else DigitsValue(s[..|s| - 1]) * 10 + DigitValue(s[|s| - 1])
  }

  /** An unsigned literal: an optional `+`, then one or more digits (Rust's `u32`/`u64` parse,
      without the width check). */
  function ParseUnsigned(s: string): (r: Option<nat>)
    ensures r.Some? ==> |s| > 0
    ensures |s| > 0 && AllDigits(s) ==> r == Some(DigitsValue(s))
  {
    if |s| > 1 && s[0] == '+' && AllDigits(s[1..]) then Some(DigitsValue(s[1..]))
    else if |s| > 0 && AllDigits(s) then Some(DigitsValue(s))
    else None
  }

  /** A signed literal: an optional `+` or `-`, then one or more digits (Rust's `i32`/`i64`
      parse, without the width check). */
  function ParseSigned(s: string): (r: Option<int>)
    ensures |s| > 0 && AllDigits(s) ==> r == Some(DigitsValue(s))
    ensures r.Some? && r.value < 0 ==> |s| > 1 && s[0] == '-'
  {
    if |s| > 1 && s[0] == '-' && AllDigits(s[1..]) then Some(0 - DigitsValue(s[1..]) as int)
    else match ParseUnsigned(s)
      case Some(n) => Some(n)
      case None => None
  }

  /** The shortest decimal spelling of `n`. */
  function ShowNat(n: nat): (s: string)
    ensures |s| > 0 && AllDigits(s)
  {
    (if n < 10 then [] else ShowNat(n / 10)) + [DigitChar(n % 10)]
  }

  /** The decimal spelling of `n`, with a `-` when it is negative. */
  function ShowInt(n: int): (s: string)
    ensures |s| > 0
  {
    if n < 0 then "-" + ShowNat(-n) else ShowNat(n)
  }

  /** Reading back the spelling of a natural number gives the number. */
  lemma {:induction false} DigitsValueShowNat(n: nat)
    ensures DigitsValue(ShowNat(n)) == n
  {
    var s := ShowNat(n);
    if n >= 10 {
      DigitsValueShowNat(n / 10);
      assert s[..|s| - 1] == ShowNat(n / 10);
    } else {
      assert s[..|s| - 1] == [];
    }
  }

  /** Parsing the spelling of a natural number gives the number back. */
  lemma ParseShowNat(n: nat)
    ensures ParseUnsigned(ShowNat(n)) == Some(n)
  {
    var s := ShowNat(n);
    DigitsValueShowNat(n);
    assert IsDigit(s[0]);
  }

  /** Parsing the spelling of an integer gives the integer back. */
  lemma ParseShowInt(n: int)
    ensures ParseSigned(ShowInt(n)) == Some(n)
  {
    if n < 0 {
      ParseShowNegative(n);
    } else {
      ParseShowNat(n);
      assert IsDigit(ShowNat(n)[0]);
    }
  }

  /** A negative integer is spelled as a minus sign and the digits of its absolute value. */
  lemma ParseShowNegative(n: int)
    requires n < 0
    ensures ParseSigned(ShowInt(n)) == Some(n)
  {
    DigitsValueShowNat(-n);
    ParseMinus(ShowInt(n), ShowNat(-n));
  }

  /** A minus sign followed by digits reads as the negated value of the digits. */
  lemma ParseMinus(s: string, t: string)
    requires s == "-" + t && t != [] && AllDigits(t)
    ensures ParseSigned(s) == Some(0 - DigitsValue(t))
  {
    assert s[1..] == t;
  }

  /** A decimal spelling holds only digits and a leading minus sign. */
  lemma ShowIntChars(n: int)
    ensures forall c :: c in ShowInt(n) ==> IsDigit(c) || c == '-'
    ensures IsDigit(ShowInt(n)[0]) || ShowInt(n)[0] == '-'
  {
    if n < 0 {
      assert ShowInt(n) == "-" + ShowNat(-n);
    }
  }

  /** The spellings of a sequence of integers, one by one. */
  function ShowInts(xs: seq<int>): (spellings: seq<string>)
    ensures |spellings| == |xs| && forall i :: 0 <= i < |xs| ==> spellings[i] == ShowInt(xs[i])
  {
    if xs == [] then [] else [ShowInt(xs[0])] + ShowInts(xs[1..])
  }
}
