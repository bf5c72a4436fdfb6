/** The two numeric building blocks shared by the shell schedule and the
    trace resampling: numpy.linspace(0, 1, n) and scipy's piecewise-linear
    interp1d, both over exact reals. */
module Interpolation {
  import opened Common

  /** a / d is monotone in a for a positive divisor. */
  lemma DivMonotone(a: real, b: real, d: real)
    requires a <= b && d > 0.0
    ensures a / d <= b / d
  {
    var p, q := a / d, b / d;
    assert p * d == a && q * d == b;
  }

  /** numpy.linspace(0.0, 1.0, n): n evenly spaced samples from 0 to 1
      inclusive, with the single sample 0 when n is 1. */
  function Linspace01(n: nat): (r: seq<real>)
    ensures |r| == n
    ensures n >= 1 ==> r[0] == 0.0
    ensures n >= 2 ==> r[n - 1] == 1.0
    ensures forall i :: 0 <= i < n ==> 0.0 <= r[i] <= 1.0
  {
    if n <= 1 then seq(n, i => 0.0)
    else
      LinspaceFacts(n - 1);
      seq(n, i requires 0 <= i < n => Fraction(i, n - 1))
  }

  /** The samples of linspace are in increasing order. */
  lemma LinspaceSorted(n: nat)
    ensures Sorted(Linspace01(n))
  {
    if n >= 2 {
      LinspaceFacts(n - 1);
    }
  }

  /** i / d as a real. */
  function Fraction(i: nat, d: nat): real
    requires d > 0
  {
    (i as real) / (d as real)
  }

  /** The fractions i / d for i <= d rise from 0 to 1. */
  lemma LinspaceFacts(d: nat)
    requires d >= 1
    ensures Fraction(0, d) == 0.0 && Fraction(d, d) == 1.0
    ensures forall i :: 0 <= i <= d ==> 0.0 <= Fraction(i, d) <= 1.0
    ensures forall i, j :: 0 <= i <= j <= d ==> Fraction(i, d) <= Fraction(j, d)
  {
    FractionMonotone(0, d, d);
    forall i, j | 0 <= i <= j <= d ensures Fraction(i, d) <= Fraction(j, d) {
      FractionMonotone(i, j, d);
    }
    forall i | 0 <= i <= d ensures 0.0 <= Fraction(i, d) <= 1.0 {
      FractionMonotone(0, i, d);
      FractionMonotone(i, d, d);
    }
  }

  lemma FractionStrict(i: nat, j: nat, d: nat)
    requires i < j && d > 0
    ensures Fraction(i, d) < Fraction(j, d)
  {
    var p, q := Fraction(i, d), Fraction(j, d);
    assert p * (d as real) == i as real && q * (d as real) == j as real;
  }

  lemma FractionMonotone(i: nat, j: nat, d: nat)
    requires i <= j && d > 0
    ensures Fraction(i, d) <= Fraction(j, d)
    ensures Fraction(0, d) == 0.0 && Fraction(d, d) == 1.0
  {
    DivMonotone(i as real, j as real, d as real);
  }

  ghost predicate Sorted(xs: seq<real>)
  {
    forall i, j :: 0 <= i <= j < |xs| ==> xs[i] <= xs[j]
  }

  /** numpy.searchsorted(xs, s, side='left') on sorted knots: the number of
      leading knots below s. */
  function SearchLeft(xs: seq<real>, s: real): (k: nat)
    ensures k <= |xs|
    ensures forall i :: 0 <= i < k ==> xs[i] < s
    ensures k < |xs| ==> s <= xs[k]
  {
    if |xs| == 0 || s <= xs[0] then 0 else 1 + SearchLeft(xs[1..], s)
  }

  /** The conditions under which interp1d gives a number at s: at least two
      sorted knots, s within their range, and a piece of nonzero width at
      the left end when s sits on the first knot. */
  ghost predicate Evaluable(xs: seq<real>, s: real)
  {
    && |xs| >= 2
    && Sorted(xs)
    && xs[0] <= s <= xs[|xs| - 1]
    && (s == xs[0] ==> xs[0] < xs[1])
  }

  /** Index of the right knot of the piece interp1d uses for s. */
  function Upper(xs: seq<real>, s: real): (hi: nat)
    requires Evaluable(xs, s)
    ensures 1 <= hi < |xs|
    ensures xs[hi - 1] < xs[hi]
    ensures xs[hi - 1] <= s <= xs[hi]
    ensures s > xs[0] ==> xs[hi - 1] < s
  {
    var k := SearchLeft(xs, s);
    if k == 0 then 1 else k
  }

  /** One control value per knot, each a vector of the same width. */
  ghost predicate Controls(xs: seq<real>, ys: seq<seq<real>>, m: nat)
  {
    |ys| == |xs| && forall i :: 0 <= i < |ys| ==> |ys[i]| == m
  }

  /** Linear interpolation between a at 0 and b at w, evaluated at d. */
  function Lerp(a: real, b: real, w: real, d: real): real
    requires w != 0.0
  {
    (b - a) / w * d + a
  }

  /** interp1d(xs, ys, kind='linear')(s), component by component. */
  function Interp(xs: seq<real>, ys: seq<seq<real>>, m: nat, s: real): (r: seq<real>)
    requires Evaluable(xs, s) && Controls(xs, ys, m)
    ensures |r| == m
  {
    var hi := Upper(xs, s);
    seq(m, c requires 0 <= c < m => Lerp(ys[hi - 1][c], ys[hi][c], xs[hi] - xs[hi - 1], s - xs[hi - 1]))
  }

  lemma LerpEnds(a: real, b: real, w: real)
    requires w != 0.0
    ensures Lerp(a, b, w, 0.0) == a
    ensures Lerp(a, b, w, w) == b
  {
    var q := (b - a) / w;
    assert q * w == b - a;
  }

  /** The interpolated value stays between the two controls of its piece. */
  lemma LerpBetween(a: real, b: real, w: real, d: real)
    requires 0.0 <= d <= w && w > 0.0
    ensures a <= b ==> a <= Lerp(a, b, w, d) <= b
    ensures b <= a ==> b <= Lerp(a, b, w, d) <= a
  {
    var q := (b - a) / w;
    assert q * w == b - a;
    if a <= b {
      assert q >= 0.0;
      assert q * d <= q * w;
    } else {
      assert q <= 0.0;
      assert q * d >= q * w;
    }
  }

  /** At a knot that ends a piece of nonzero width (or at the first knot when
      the first piece has nonzero width) interp1d returns that knot's
      control exactly. */
  lemma {:induction false} InterpAtKnot(xs: seq<real>, ys: seq<seq<real>>, m: nat, i: nat)
    requires |xs| >= 2 && Sorted(xs) && Controls(xs, ys, m) && i < |xs|
    requires i == 0 ==> xs[0] < xs[1]
    requires i > 0 ==> xs[i - 1] < xs[i]
    ensures Evaluable(xs, xs[i])
    ensures Interp(xs, ys, m, xs[i]) == ys[i]
  {
    var s := xs[i];
    var hi := Upper(xs, s);
    if i == 0 {
      assert hi == 1;
    } else {
      assert hi == i;
    }
    var r := Interp(xs, ys, m, s);
    forall c | 0 <= c < m ensures r[c] == ys[i][c] {
      LerpEnds(ys[hi - 1][c], ys[hi][c], xs[hi] - xs[hi - 1]);
    }
  }

  /** Every component of an interpolated vector lies between the two
      controls of the piece that holds s. */
  lemma InterpBetween(xs: seq<real>, ys: seq<seq<real>>, m: nat, s: real, c: nat)
    requires Evaluable(xs, s) && Controls(xs, ys, m) && c < m
    ensures var hi := Upper(xs, s);
      (ys[hi - 1][c] <= ys[hi][c] ==> ys[hi - 1][c] <= Interp(xs, ys, m, s)[c] <= ys[hi][c]) &&
      (ys[hi][c] <= ys[hi - 1][c] ==> ys[hi][c] <= Interp(xs, ys, m, s)[c] <= ys[hi - 1][c])
  {
    var hi := Upper(xs, s);
    LerpBetween(ys[hi - 1][c], ys[hi][c], xs[hi] - xs[hi - 1], s - xs[hi - 1]);
  }
}
