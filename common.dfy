/** Option and Result values shared by every puzzle module. */
module Common {
  /** A value that may be absent (Rust's `Option`, a JavaScript `undefined`). */
  datatype Option<T> = None | Some(value: T)

  /** A computation that may abort (a Rust `panic!`/`unwrap` failure, a thrown JavaScript `Error`). */
  datatype Result<T> = Ok(value: T) | Err(msg: string)

  /** Applies a fallible conversion to every element, in order, stopping at the first failure
      (Rust's `map(..).collect()` over `unwrap`ping conversions). */
  function MapAll<S, T>(xs: seq<S>, f: S -> Result<T>): (r: Result<seq<T>>)
    ensures r.Ok? <==> forall k :: 0 <= k < |xs| ==> f(xs[k]).Ok?
    ensures r.Ok? ==> |r.value| == |xs| && forall k :: 0 <= k < |xs| ==> f(xs[k]) == Ok(r.value[k])
  {
    if xs == [] then Ok([])
    else match f(xs[0])
      case Err(e) => Err(e)
      case Ok(first) =>
        match MapAll(xs[1..], f)
        case Err(e) => Err(e)
        case Ok(rest) => Ok([first] + rest)
  }

  /** The value a register map holds for `name`, 0 for a register never set (the
      `unwrap_or(0)` lookups of days 8 and 18). */
  function ValueOrZero(registers: map<string, int>, name: string): (v: int)
    ensures name in registers ==> v == registers[name]
    ensures name !in registers ==> v == 0
  {
    if name in registers then registers[name] else 0
  }

  /** When every conversion succeeds, the results are exactly the converted values. */
  lemma MapAllOk<S, T>(xs: seq<S>, f: S -> Result<T>, ys: seq<T>)
    requires |xs| == |ys| && forall k :: 0 <= k < |xs| ==> f(xs[k]) == Ok(ys[k])
    ensures MapAll(xs, f) == Ok(ys)
  {
    var r := MapAll(xs, f);
    assert r.Ok?;
    assert r.value == ys;
  }

  /** When the conversions before `i` succeed and the one at `i` fails, the whole conversion
      fails with the error at `i`. */
  lemma {:induction false} MapAllFirstErr<S, T>(xs: seq<S>, f: S -> Result<T>, i: nat)
    requires i < |xs| && (forall k :: 0 <= k < i ==> f(xs[k]).Ok?) && f(xs[i]).Err?
    ensures MapAll(xs, f) == Err(f(xs[i]).msg)
    decreases i
  {
    if i > 0 {
      forall k | 0 <= k < i - 1
        ensures f(xs[1..][k]).Ok?
      {
        assert xs[1..][k] == xs[k + 1];
      }
      MapAllFirstErr(xs[1..], f, i - 1);
    }
  }

  /** The first `i` elements convert to `ys`: the state of a loop that converts one element
      at a time. */
  ghost predicate PrefixConverted<S, T>(xs: seq<S>, i: nat, ys: seq<T>, f: S -> Result<T>)
  {
    i <= |xs| && |ys| == i && forall k :: 0 <= k < i ==> f(xs[k]) == Ok(ys[k])
  }

  /** Converting one more element extends the converted prefix by it. */
  lemma PrefixConvertedNext<S, T>(xs: seq<S>, i: nat, next: nat, ys: seq<T>, y: T, f: S -> Result<T>)
    requires PrefixConverted(xs, i, ys, f) && next == i + 1 && i < |xs| && f(xs[i]) == Ok(y)
    ensures PrefixConverted(xs, next, ys + [y], f)
  {
    forall k | 0 <= k < next
      ensures f(xs[k]) == Ok((ys + [y])[k])
    {
      if k < i {
        assert (ys + [y])[k] == ys[k];
      }
    }
  }

  /** A loop that converted every element has built exactly the conversion of all of them. */
  lemma PrefixConvertedAll<S, T>(xs: seq<S>, ys: seq<T>, f: S -> Result<T>)
    requires PrefixConverted(xs, |xs|, ys, f)
    ensures MapAll(xs, f) == Ok(ys)
  {
    MapAllOk(xs, f, ys);
  }

  /** A loop that stops at the first failing element fails as the whole conversion does. */
  lemma PrefixConvertedErr<S, T>(xs: seq<S>, i: nat, ys: seq<T>, f: S -> Result<T>)
    requires PrefixConverted(xs, i, ys, f) && i < |xs| && f(xs[i]).Err?
    ensures MapAll(xs, f) == Err(f(xs[i]).msg)
  {
    MapAllFirstErr(xs, f, i);
  }
}
