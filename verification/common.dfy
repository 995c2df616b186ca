/** Small numeric, optional-value and string-ordering helpers shared by every
    module of the model. Python floats are modelled by mathematical reals;
    the two float-to-number conversions the program relies on, `int(x)` and
    `round(x, n)`, are written out here exactly. */
module Common {

  /** Python's `None` or a present value. */
  datatype Option<T> = None | Some(value: T)

  function Abs(x: real): (r: real)
    ensures r >= 0.0
    ensures r == x || r == -x
  {
    if x < 0.0 then -x else x
  }

  /** Percentage distance of `strike` from a positive `price`:
      `|price - strike| / price * 100`. */
  function DistancePct(price: real, strike: real): (d: real)
    requires price > 0.0
    ensures d >= 0.0
  {
    Abs(price - strike) / price * 100.0
  }

  function Min(a: real, b: real): (r: real)
    ensures r <= a && r <= b
    ensures r == a || r == b
  {
    if a <= b then a else b
  }

  function Max(a: real, b: real): (r: real)
    ensures r >= a && r >= b
    ensures r == a || r == b
  {
    if a >= b then a else b
  }

  function MaxInt(a: int, b: int): (r: int)
    ensures r >= a && r >= b
    ensures r == a || r == b
  {
    if a >= b then a else b
  }

  /** `max(lo, min(hi, x))`: the value of `x` pulled into `[lo, hi]`. */
  function Clamp(x: real, lo: real, hi: real): (r: real)
    requires lo <= hi
    ensures lo <= r <= hi
    ensures lo <= x <= hi ==> r == x
    ensures x < lo ==> r == lo
    ensures x > hi ==> r == hi
  {
    Max(lo, Min(hi, x))
  }

  /** `max(lo, min(hi, x))` on integers. */
  function ClampInt(x: int, lo: int, hi: int): (r: int)
    requires lo <= hi
    ensures lo <= r <= hi
    ensures lo <= x <= hi ==> r == x
    ensures x < lo ==> r == lo
    ensures x > hi ==> r == hi
  {
    if x < lo then lo else if x > hi then hi else x
  }

  lemma MulMonotone(a: real, b: real, s: real)
    requires a <= b && 0.0 <= s
    ensures a * s <= b * s
  {
    assert b * s - a * s == (b - a) * s;
  }

  /** Python's `int(x)` on a float: truncation toward zero. */
  function Trunc(x: real): (n: int)
    ensures 0.0 <= x ==> 0 <= n && n as real <= x < n as real + 1.0
    ensures x <= 0.0 ==> n <= 0 && n as real - 1.0 < x <= n as real
  {
    if x >= 0.0 then x.Floor else -((-x).Floor)
  }

  lemma TruncMonotone(x: real, y: real)
    requires 0.0 <= x <= y
    ensures Trunc(x) <= Trunc(y)
  {
    assert Trunc(x) as real <= x <= y < Trunc(y) as real + 1.0;
  }

  /** The integer nearest to `y`, ties to the even neighbour (Python's rounding rule). */
  function RoundHalfEven(y: real): (k: int)
    ensures y - 0.5 <= k as real <= y + 0.5
    ensures (k as real == y - 0.5 || k as real == y + 0.5) ==> k % 2 == 0
  {
    var f := y.Floor;
    var d := y - f as real;
    if d > 0.5 then f + 1
    else if d < 0.5 then f
    else if f % 2 == 0 then f
    else f + 1
  }

  lemma RoundHalfEvenMonotone(a: real, b: real)
    requires a <= b
    ensures RoundHalfEven(a) <= RoundHalfEven(b)
  {
    var fa, fb := a.Floor, b.Floor;
    assert fa <= fb;
    if fa == fb {
      assert a - fa as real <= b - fb as real;
    } else {
      assert RoundHalfEven(a) <= fa + 1 <= fb <= RoundHalfEven(b);
    }
  }

  lemma RoundHalfEvenOfInt(n: int)
    ensures RoundHalfEven(n as real) == n
  {
    assert (n as real).Floor == n;
  }

  /** Python's `round(x, 3)`: the nearest multiple of 0.001, ties to even. */
  function Round3(x: real): (r: real)
    ensures 0.0 <= x ==> 0.0 <= r
    ensures x <= 0.0 ==> r <= 0.0
    ensures x - 0.0005 <= r <= x + 0.0005
  {
    RoundHalfEven(x * 1000.0) as real / 1000.0
  }

  /** Python's `round(x, 1)`: the nearest multiple of 0.1, ties to even. */
  function Round1(x: real): (r: real)
    ensures 0.0 <= x ==> 0.0 <= r
    ensures x <= 0.0 ==> r <= 0.0
    ensures x - 0.05 <= r <= x + 0.05
  {
    RoundHalfEven(x * 10.0) as real / 10.0
  }

  lemma Round3Monotone(x: real, y: real)
    requires x <= y
    ensures Round3(x) <= Round3(y)
  {
    RoundHalfEvenMonotone(x * 1000.0, y * 1000.0);
  }

  lemma Round1Monotone(x: real, y: real)
    requires x <= y
    ensures Round1(x) <= Round1(y)
  {
    RoundHalfEvenMonotone(x * 10.0, y * 10.0);
  }

  /** Multiples of 0.001 are left unchanged by `round(x, 3)`. */
  lemma Round3Fixed(n: int)
    ensures Round3(n as real / 1000.0) == n as real / 1000.0
  {
    RoundHalfEvenOfInt(n);
  }

  /** Multiples of 0.1 are left unchanged by `round(x, 1)`. */
  lemma Round1Fixed(n: int)
    ensures Round1(n as real / 10.0) == n as real / 10.0
  {
    RoundHalfEvenOfInt(n);
  }

  /** `round(x, 3)` stays inside any interval whose ends are multiples of 0.001. */
  lemma Round3Between(x: real, lo: int, hi: int)
    requires lo as real / 1000.0 <= x <= hi as real / 1000.0
    ensures lo as real / 1000.0 <= Round3(x) <= hi as real / 1000.0
  {
    Round3Monotone(lo as real / 1000.0, x);
    Round3Monotone(x, hi as real / 1000.0);
    Round3Fixed(lo);
    Round3Fixed(hi);
  }

  /** `round(x, 3)` keeps a value of the unit interval inside it. */
  lemma Round3Unit(x: real)
    requires 0.0 <= x <= 1.0
    ensures 0.0 <= Round3(x) <= 1.0
  {
    Round3Between(x, 0, 1000);
  }

  /** A ratio of a non-negative value to a larger positive one lies in [0, 1]. */
  lemma RatioInUnit(a: real, b: real)
    requires 0.0 <= a <= b && 0.0 < b
    ensures 0.0 <= a / b <= 1.0
  {
    var q := a / b;
    assert q * b == a;
  }

  /** Dividing by the same positive value keeps the order. */
  lemma DivMonotone(a: real, b: real, n: real)
    requires a <= b && 0.0 < n
    ensures a / n <= b / n
  {
    assert b / n - a / n == (b - a) / n;
    assert (b - a) / n * n == b - a;
  }

  /** `round(x, 1)` stays inside any interval whose ends are multiples of 0.1. */
  lemma Round1Between(x: real, lo: int, hi: int)
    requires lo as real / 10.0 <= x <= hi as real / 10.0
    ensures lo as real / 10.0 <= Round1(x) <= hi as real / 10.0
  {
    Round1Monotone(lo as real / 10.0, x);
    Round1Monotone(x, hi as real / 10.0);
    Round1Fixed(lo);
    Round1Fixed(hi);
  }

  /** Python's ordering of `str` values: lexicographic by code point. */
  predicate StrLt(a: string, b: string)
    decreases |a|
  {
    if |a| == 0 then |b| > 0
    else if |b| == 0 then false
    else if a[0] != b[0] then a[0] < b[0]
    else StrLt(a[1..], b[1..])
  }

  lemma {:induction false} StrLtIrreflexive(a: string)
    ensures !StrLt(a, a)
    decreases |a|
  {
    if |a| > 0 {
      StrLtIrreflexive(a[1..]);
    }
  }

  lemma {:induction false} StrLtTransitive(a: string, b: string, c: string)
    requires StrLt(a, b) && StrLt(b, c)
    ensures StrLt(a, c)
    decreases |a|
  {
    if |a| > 0 && a[0] == b[0] && b[0] == c[0] {
      StrLtTransitive(a[1..], b[1..], c[1..]);
    }
  }

  lemma {:induction false} StrLtTotal(a: string, b: string)
    ensures a == b || StrLt(a, b) || StrLt(b, a)
    decreases |a|
  {
    if |a| > 0 && |b| > 0 && a[0] == b[0] {
      StrLtTotal(a[1..], b[1..]);
      if a[1..] == b[1..] {
        assert a == [a[0]] + a[1..] && b == [b[0]] + b[1..];
      }
    }
  }

  lemma StrLtAsymmetric(a: string, b: string)
    requires StrLt(a, b)
    ensures !StrLt(b, a)
  {
    if StrLt(b, a) {
      StrLtTransitive(a, b, a);
      StrLtIrreflexive(a);
    }
  }

  /** Strictly increasing in Python's string order (so also duplicate-free). */
  predicate StrictlySorted(ts: seq<string>)
  {
    forall i, j :: 0 <= i < j < |ts| ==> StrLt(ts[i], ts[j])
  }
}
