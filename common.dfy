/** Shared vocabulary of the model: optional values, error results, the
    first-hit search behind every fallback chain of the app, and the
    conversions from real-valued (Double/Float) arithmetic to integers. */
module Common {

  datatype Option<+T> = None | Some(value: T) {
    function GetOr(default: T): T {
      match this
      case Some(v) => v
      case None => default
    }

    /** Kotlin's `a ?: b` on two nullable values. */
    function OrElse(fallback: Option<T>): Option<T> {
      if Some? then this else fallback
    }
  }

  /** A value, or the message of the exception the source throws instead. */
  datatype Result<+T> = Ok(value: T) | Failure(message: string)

  // ---------------------------------------------------------------------
  // First hit of an ordered search
  // ---------------------------------------------------------------------

  /** The result of the first element of `xs` for which `f` yields a value,
      trying the elements in order; None when every element yields None.
      This is the shape of every `for (...) { ... return ... }` fallback loop. */
  function FirstSome<A, B>(f: A -> Option<B>, xs: seq<A>): Option<B>
    decreases |xs|
  {
    if xs == [] then None
    else if f(xs[0]).Some? then f(xs[0])
    else FirstSome(f, xs[1..])
  }

  /** No element of `xs` strictly before index `i` yields a value. */
  predicate NoneBefore<A, B>(f: A -> Option<B>, xs: seq<A>, i: int)
    requires 0 <= i <= |xs|
  {
    forall j :: 0 <= j < i ==> f(xs[j]).None?
  }

  /** The search finds nothing exactly when no element yields a value. */
  lemma {:induction false} FirstSomeNone<A, B>(f: A -> Option<B>, xs: seq<A>)
    ensures FirstSome(f, xs).None? <==> NoneBefore(f, xs, |xs|)
    decreases |xs|
  {
    if xs != [] {
      FirstSomeNone(f, xs[1..]);
      assert forall j :: 1 <= j < |xs| ==> xs[j] == xs[1..][j - 1];
    }
  }

  /** A hit of the search is the value of some element, and every element
      before it yields nothing. */
  lemma {:induction false} FirstSomeWitness<A, B>(f: A -> Option<B>, xs: seq<A>) returns (i: nat)
    requires FirstSome(f, xs).Some?
    ensures i < |xs| && f(xs[i]) == FirstSome(f, xs) && NoneBefore(f, xs, i)
    decreases |xs|
  {
    if f(xs[0]).Some? {
      i := 0;
    } else {
      var j := FirstSomeWitness(f, xs[1..]);
      i := j + 1;
      assert forall m :: 1 <= m <= j ==> xs[m] == xs[1..][m - 1];
    }
  }

  /** Searching a concatenation searches the second part only when the
      first part has no hit. */
  lemma {:induction false} FirstSomeAppend<A, B>(f: A -> Option<B>, xs: seq<A>, ys: seq<A>)
    ensures FirstSome(f, xs + ys) == if FirstSome(f, xs).Some? then FirstSome(f, xs) else FirstSome(f, ys)
    decreases |xs|
  {
    if xs == [] {
      assert xs + ys == ys;
    } else {
      assert (xs + ys)[0] == xs[0];
      assert (xs + ys)[1..] == xs[1..] + ys;
      FirstSomeAppend(f, xs[1..], ys);
    }
  }

  /** One more step of a search loop that has found nothing so far. */
  lemma FirstSomeStep<A, B>(f: A -> Option<B>, xs: seq<A>, i: int)
    requires 0 <= i < |xs|
    requires FirstSome(f, xs[..i]).None?
    ensures FirstSome(f, xs[..i + 1]) == f(xs[i])
  {
    assert xs[..i + 1] == xs[..i] + [xs[i]];
    FirstSomeAppend(f, xs[..i], [xs[i]]);
  }

  /** A search that has found nothing before index `i` and hits at `i`
      returns that hit, whatever follows. */
  lemma FirstSomeHit<A, B>(f: A -> Option<B>, xs: seq<A>, i: int)
    requires 0 <= i < |xs|
    requires FirstSome(f, xs[..i]).None? && f(xs[i]).Some?
    ensures FirstSome(f, xs) == f(xs[i])
  {
    FirstSomeStep(f, xs, i);
    assert xs == xs[..i + 1] + xs[i + 1..];
    FirstSomeAppend(f, xs[..i + 1], xs[i + 1..]);
  }

  // ---------------------------------------------------------------------
  // Integer conversions of real-valued arithmetic
  // ---------------------------------------------------------------------

  /** Kotlin `Double.toInt()` and the Java `(int)` cast: truncation toward zero
      (the saturation at the 32-bit bounds is not modelled). */
  function Trunc(x: real): (r: int)
    ensures 0.0 <= x ==> 0 <= r && r as real <= x < r as real + 1.0
    ensures x < 0.0 ==> r <= 0 && r as real - 1.0 < x <= r as real
  {
    if x >= 0.0 then x.Floor else -((-x).Floor)
  }

  /** Java/Kotlin integer division on `Int`: the quotient truncated toward zero
      (Dafny's `/` floors for negative dividends). */
  function TruncDiv(a: int, b: int): (q: int)
    requires b > 0
    ensures Abs(q) == Abs(a) / b
    ensures (0 <= a ==> 0 <= q) && (a < 0 ==> q <= 0)
  {
    if a >= 0 then a / b else -((-a) / b)
  }

  function Abs(a: int): (r: nat)
    ensures r == a || r == -a
  {
    if a < 0 then -a else a
  }

  /** `String.format("%.0f", x)`: the nearest integer, halves rounded away
      from zero (RoundingMode.HALF_UP). */
  function RoundHalfUp(x: real): (r: int)
    ensures 0.0 <= x ==> x - 0.5 < r as real <= x + 0.5
    ensures x < 0.0 ==> x - 0.5 <= r as real < x + 0.5
    ensures 0.0 <= x ==> 0 <= r
  {
    if x >= 0.0 then (x + 0.5).Floor else -((-x + 0.5).Floor)
  }

  /** The `hours = t.toInt(); minutes = ((t - hours) * 60).toInt()` split every
      discharge formatter performs on a real number of hours `t`. Together the
      two parts are the whole number of minutes in `t`, truncated toward zero. */
  function HoursMinutes(t: real): (hm: (int, int))
    ensures hm.0 == Trunc(t)
    ensures 0.0 <= t ==> 0 <= hm.1 < 60
    ensures t < 0.0 ==> -60 < hm.1 <= 0
    ensures hm.0 * 60 + hm.1 == Trunc(t * 60.0)
  {
    var h := Trunc(t);
    var m := Trunc((t - h as real) * 60.0);
    SplitTotal(t, h, m);
    (h, m)
  }

  lemma SplitTotal(t: real, h: int, m: int)
    requires h == Trunc(t) && m == Trunc((t - h as real) * 60.0)
    ensures 0.0 <= t ==> 0 <= m < 60
    ensures t < 0.0 ==> -60 < m <= 0
    ensures h * 60 + m == Trunc(t * 60.0)
  {
    var f := (t - h as real) * 60.0;
    assert t * 60.0 == (h * 60) as real + f;
    if 0.0 <= t {
      assert 0.0 <= f < 60.0;
      assert (h * 60 + m) as real <= t * 60.0 < (h * 60 + m) as real + 1.0;
    } else {
      assert -60.0 < f <= 0.0;
      assert (h * 60 + m) as real - 1.0 < t * 60.0 <= (h * 60 + m) as real;
    }
  }
}
