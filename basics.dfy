/** Small shared vocabulary of the analyser model: optional values, sums of
    amounts and the rounding applied when a figure is emitted. */
module Basics {

  /** A value that may be absent, as Python's `None` marks a missing field. */
  datatype Option<T> = None | Some(value: T)

  /** Sum of a sequence of amounts, folded from the left so that
      `Sum(s[..i + 1]) == Sum(s[..i]) + s[i]` unfolds in one step. */
  function Sum(s: seq<real>): real
  {
    if s == [] then 0.0 else Sum(s[..|s| - 1]) + s[|s| - 1]
  }

  /** Sum of a concatenation is the sum of the parts. */
  lemma {:induction false} SumAppend(a: seq<real>, b: seq<real>)
    ensures Sum(a + b) == Sum(a) + Sum(b)
    decreases |b|
  {
    if b == [] {
      assert a + b == a;
    } else {
      assert (a + b)[..|a + b| - 1] == a + b[..|b| - 1];
      SumAppend(a, b[..|b| - 1]);
    }
  }

  /** Python's `round(x, n)` with `scale == 10^n`: the multiple of `1/scale`
      nearest to `x`, ties going to the even multiple. The value is exact
      here; the binary floating point of the original is not modelled. */
  function Round(x: real, scale: int): (r: real)
    requires scale > 0
    ensures -1.0 / 2.0 <= r * scale as real - x * scale as real <= 1.0 / 2.0
  {
    var y := x * scale as real;
    var f := y.Floor;
    var frac := y - f as real;
    var k := if frac > 0.5 then f + 1
             else if frac < 0.5 then f
             else if f % 2 == 0 then f else f + 1;
    var r := k as real / scale as real;
    assert r * scale as real == k as real;
    r
  }

  /** The two-decimal rounding used for every emitted money figure. */
  function Round2(x: real): (r: real)
    ensures -1.0 / 200.0 <= r - x <= 1.0 / 200.0
  {
    Round(x, 100)
  }

  /** Multiplying by a positive number keeps the sign. */
  lemma SignOfProduct(x: real, y: real)
    requires y > 0.0
    ensures x > 0.0 <==> x * y > 0.0
    ensures x < 0.0 <==> x * y < 0.0
  {
    if x > 0.0 {
      assert x * y > 0.0;
    } else if x < 0.0 {
      assert x * y < 0.0;
    } else {
      assert x * y == 0.0;
    }
  }

  /** A part `w` of a positive whole `n` is a share between 0 and 1, and it
      is 1 exactly when the part is the whole. */
  lemma ShareBounds(w: real, n: real)
    requires 0.0 <= w <= n && n > 0.0
    ensures 0.0 <= w / n <= 1.0
    ensures w / n == 1.0 <==> w == n
  {
    var q := w / n;
    assert q * n == w;
    SignOfProduct(q, n);
    SignOfProduct(q - 1.0, n);
    assert (q - 1.0) * n == w - n;
  }
}
