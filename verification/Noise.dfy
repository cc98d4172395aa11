/** Lattice noise over the reals: two-dimensional value, gradient and gradient-value noise. */
module Noise {
  import opened LittleEndian

  /** The hash of a lattice point, of which only its range is known. */
  type Hash = (int, int) -> byte

  datatype Interpolation = NoInterpolation | Linear | Cubic | Quintic

  /** `(Int32)t`. */
  function Truncate(t: real): int {
    if t >= 0.0 then t.Floor else -((-t).Floor)
  }

  /** `FastFloor`: below the floor at zero and at negative whole numbers. */
  function FastFloor(t: real): int {
    if t > 0.0 then Truncate(t) else Truncate(t) - 1
  }

  function Blend(i: Interpolation, t: real): real {
    match i
    case NoInterpolation => 0.0
    case Linear => t
    case Cubic => t * t * (3.0 - 2.0 * t)
    case Quintic => t * t * t * (t * (t * 6.0 - 15.0) + 10.0)
  }

  function Lerp(s: real, a: real, b: real): real {
    a + s * (b - a)
  }

  function Abs(v: real): real {
    if v < 0.0 then -v else v
  }

  /** The table of 2D gradients: unit vectors along the axes, four by four. */
  function Gradient(h: byte): (real, real) {
    if h % 4 == 0 then (0.0, 1.0) else if h % 4 == 1 then (0.0, -1.0)
    else if h % 4 == 2 then (1.0, 0.0) else (-1.0, 0.0)
  }

  function ValueAt(hash: Hash, ix: int, iy: int): real {
    var h: int := hash(ix, iy);
    h as real / 255.0 * 2.0 - 1.0
  }

  function GradientAt(hash: Hash, x: real, y: real, ix: int, iy: int): real {
    var (gx, gy) := Gradient(hash(ix, iy));
    (x - ix as real) * gx + (y - iy as real) * gy
  }

  /** Interpolation over the four corners of a lattice cell. */
  function Corners(xs: real, ys: real, v00: real, v10: real, v01: real, v11: real): real {
    Lerp(ys, Lerp(xs, v00, v10), Lerp(xs, v01, v11))
  }

  function ValueNoise(hash: Hash, i: Interpolation, x: real, y: real): real {
    var x0, y0 := FastFloor(x), FastFloor(y);
    Corners(Blend(i, x - x0 as real), Blend(i, y - y0 as real),
            ValueAt(hash, x0, y0), ValueAt(hash, x0 + 1, y0), ValueAt(hash, x0, y0 + 1), ValueAt(hash, x0 + 1, y0 + 1))
  }

  function GradientNoise(hash: Hash, i: Interpolation, x: real, y: real): real {
    var x0, y0 := FastFloor(x), FastFloor(y);
    Corners(Blend(i, x - x0 as real), Blend(i, y - y0 as real),
            GradientAt(hash, x, y, x0, y0), GradientAt(hash, x, y, x0 + 1, y0),
            GradientAt(hash, x, y, x0, y0 + 1), GradientAt(hash, x, y, x0 + 1, y0 + 1))
  }

  function GradientValueNoise(hash: Hash, i: Interpolation, x: real, y: real): real {
    ValueNoise(hash, i, x, y) + GradientNoise(hash, i, x, y)
  }

  // ---------------------------------------------------------------- ranges

  predicate Bounded(v: real, m: real) {
    -m <= v <= m
  }

  /** The fraction left over lies in (0, 1] up to zero and in [0, 1) beyond. */
  lemma FractionInUnit(t: real)
    ensures 0.0 <= t - FastFloor(t) as real <= 1.0
    ensures t <= 0.0 ==> t - FastFloor(t) as real > 0.0
    ensures t > 0.0 ==> t - FastFloor(t) as real < 1.0
  {
  }

  lemma BlendInUnit(i: Interpolation, t: real)
    requires 0.0 <= t <= 1.0
    ensures 0.0 <= Blend(i, t) <= 1.0
  {
    match i
    case NoInterpolation =>
    case Linear =>
    case Cubic => CubicInUnit(t);
    case Quintic => QuinticInUnit(t);
  }

  lemma Product(a: real, b: real)
    requires 0.0 <= a && 0.0 <= b
    ensures 0.0 <= a * b
  {
  }

  lemma CubicInUnit(t: real)
    requires 0.0 <= t <= 1.0
    ensures 0.0 <= t * t * (3.0 - 2.0 * t) <= 1.0
  {
    var u := 1.0 - t;
    Product(t, t);
    Product(t * t, 3.0 - 2.0 * t);
    Product(u, u);
    Product(u * u, 1.0 + 2.0 * t);
    assert u * u * (1.0 + 2.0 * t) == 1.0 - t * t * (3.0 - 2.0 * t);
  }

  /** Both ends of the quintic: t cubed times a positive quadratic, and one less (1 - t) cubed times
      another. */
  lemma QuinticInUnit(t: real)
    requires 0.0 <= t <= 1.0
    ensures 0.0 <= t * t * t * (t * (t * 6.0 - 15.0) + 10.0) <= 1.0
  {
    var u := 1.0 - t;
    var t2, u2 := t * t, u * u;
    Product(t, t);
    Product(t2, t);
    var a := t * (t * 6.0 - 15.0) + 10.0;
    assert a == 6.0 * u2 + 3.0 * u + 1.0 by {
      assert t == 1.0 - u;
      assert t * t == 1.0 - 2.0 * u + u * u;
    }
    Product(u, u);
    Product(t2 * t, a);
    Product(u2, u);
    var b := 6.0 * t2 + 3.0 * t + 1.0;
    Product(u2 * u, b);
    QuinticMirror(t);
  }

  lemma QuinticMirror(t: real)
    ensures (1.0 - t) * (1.0 - t) * (1.0 - t) * (6.0 * (t * t) + 3.0 * t + 1.0)
         == 1.0 - t * t * t * (t * (t * 6.0 - 15.0) + 10.0)
  {
    var t2 := t * t;
    var t3 := t2 * t;
    var t4 := t3 * t;
    var t5 := t4 * t;
    assert (1.0 - t) * (1.0 - t) == 1.0 - 2.0 * t + t2;
    assert (1.0 - 2.0 * t + t2) * (1.0 - t) == 1.0 - 3.0 * t + 3.0 * t2 - t3;
    var c := 1.0 - 3.0 * t + 3.0 * t2 - t3;
    assert c * t2 == t2 - 3.0 * t3 + 3.0 * t4 - t5;
    assert c * t == t - 3.0 * t2 + 3.0 * t3 - t4;
    assert c * (6.0 * t2 + 3.0 * t + 1.0) == 6.0 * (c * t2) + 3.0 * (c * t) + c;
    assert t3 * (t * (t * 6.0 - 15.0) + 10.0) == 6.0 * t5 - 15.0 * t4 + 10.0 * t3 by {
      assert t * (t * 6.0 - 15.0) == 6.0 * t2 - 15.0 * t;
      assert t3 * t2 == t5;
    }
  }

  lemma LerpBetween(s: real, a: real, b: real, m: real)
    requires 0.0 <= s <= 1.0 && Bounded(a, m) && Bounded(b, m)
    ensures Bounded(Lerp(s, a, b), m)
  {
    Product(s, m - b);
    Product(s, b + m);
    Product(1.0 - s, m - a);
    Product(1.0 - s, a + m);
    assert Lerp(s, a, b) == (1.0 - s) * a + s * b;
    assert (1.0 - s) * (m - a) + s * (m - b) == m - ((1.0 - s) * a + s * b);
    assert (1.0 - s) * (a + m) + s * (b + m) == m + ((1.0 - s) * a + s * b);
  }

  lemma CornersBetween(xs: real, ys: real, v00: real, v10: real, v01: real, v11: real, m: real)
    requires 0.0 <= xs <= 1.0 && 0.0 <= ys <= 1.0
    requires Bounded(v00, m) && Bounded(v10, m) && Bounded(v01, m) && Bounded(v11, m)
    ensures Bounded(Corners(xs, ys, v00, v10, v01, v11), m)
  {
    LerpBetween(xs, v00, v10, m);
    LerpBetween(xs, v01, v11, m);
    LerpBetween(ys, Lerp(xs, v00, v10), Lerp(xs, v01, v11), m);
  }

  lemma ValueAtBounded(hash: Hash, ix: int, iy: int)
    ensures Bounded(ValueAt(hash, ix, iy), 1.0)
  {
    var h: int := hash(ix, iy);
    assert 0.0 <= h as real / 255.0 <= 1.0;
  }

  lemma GradientAtBounded(hash: Hash, x: real, y: real, ix: int, iy: int)
    requires Bounded(x - ix as real, 1.0) && Bounded(y - iy as real, 1.0)
    ensures Bounded(GradientAt(hash, x, y, ix, iy), 1.0)
  {
  }

  /** Value noise stays in [-1, 1], gradient noise too, and their sum in [-2, 2], everywhere and for
      every interpolation. */
  lemma NoiseBounded(hash: Hash, i: Interpolation, x: real, y: real)
    ensures Bounded(ValueNoise(hash, i, x, y), 1.0)
    ensures Bounded(GradientNoise(hash, i, x, y), 1.0)
    ensures Bounded(GradientValueNoise(hash, i, x, y), 2.0)
  {
    var x0, y0 := FastFloor(x), FastFloor(y);
    FractionInUnit(x);
    FractionInUnit(y);
    BlendInUnit(i, x - x0 as real);
    BlendInUnit(i, y - y0 as real);
    ValueAtBounded(hash, x0, y0);
    ValueAtBounded(hash, x0 + 1, y0);
    ValueAtBounded(hash, x0, y0 + 1);
    ValueAtBounded(hash, x0 + 1, y0 + 1);
    CornersBetween(Blend(i, x - x0 as real), Blend(i, y - y0 as real), ValueAt(hash, x0, y0), ValueAt(hash, x0 + 1, y0),
                   ValueAt(hash, x0, y0 + 1), ValueAt(hash, x0 + 1, y0 + 1), 1.0);
    GradientAtBounded(hash, x, y, x0, y0);
    GradientAtBounded(hash, x, y, x0 + 1, y0);
    GradientAtBounded(hash, x, y, x0, y0 + 1);
    GradientAtBounded(hash, x, y, x0 + 1, y0 + 1);
    CornersBetween(Blend(i, x - x0 as real), Blend(i, y - y0 as real),
                   GradientAt(hash, x, y, x0, y0), GradientAt(hash, x, y, x0 + 1, y0),
                   GradientAt(hash, x, y, x0, y0 + 1), GradientAt(hash, x, y, x0 + 1, y0 + 1), 1.0);
  }

  // ---------------------------------------------------------------- how far noise really goes

  /** Every interpolation but the missing one is on the side of the half its argument is on. */
  lemma HalfWay(i: Interpolation, t: real)
    requires !i.NoInterpolation? && 0.0 <= t <= 1.0
    ensures (1.0 - 2.0 * t) * (0.5 - Blend(i, t)) >= 0.0
  {
    var s := t * (1.0 - t);
    Product(t, 1.0 - t);
    match i
    case Linear => Square(1.0 - 2.0 * t);
    case Cubic =>
      CubicHalf(t);
      Square(1.0 - 2.0 * t);
      Product((1.0 - 2.0 * t) * (1.0 - 2.0 * t), 1.0 + 2.0 * s);
    case Quintic =>
      QuinticHalf(t);
      Square(1.0 - 2.0 * t);
      Product(s, s);
      Product((1.0 - 2.0 * t) * (1.0 - 2.0 * t), 1.0 + 2.0 * s + 6.0 * (s * s));
  }

  lemma Square(a: real)
    ensures a * a >= 0.0
  {
  }

  lemma CubicHalf(t: real)
    ensures var s := t * (1.0 - t);
            2.0 * ((1.0 - 2.0 * t) * (0.5 - t * t * (3.0 - 2.0 * t)))
            == (1.0 - 2.0 * t) * (1.0 - 2.0 * t) * (1.0 + 2.0 * s)
  {
    var s, d := t * (1.0 - t), 1.0 - 2.0 * t;
    var t2 := t * t;
    assert s == t - t2;
    assert d * (1.0 + 2.0 * s) == 1.0 - 6.0 * t2 + 4.0 * (t2 * t) by {
      assert t * t2 == t2 * t;
    }
    assert 2.0 * (0.5 - t2 * (3.0 - 2.0 * t)) == 1.0 - 6.0 * t2 + 4.0 * (t2 * t);
    assert d * d * (1.0 + 2.0 * s) == d * (d * (1.0 + 2.0 * s));
  }

  lemma QuinticHalf(t: real)
    ensures var s := t * (1.0 - t);
            2.0 * ((1.0 - 2.0 * t) * (0.5 - t * t * t * (t * (t * 6.0 - 15.0) + 10.0)))
            == (1.0 - 2.0 * t) * (1.0 - 2.0 * t) * (1.0 + 2.0 * s + 6.0 * (s * s))
  {
    var s, d := t * (1.0 - t), 1.0 - 2.0 * t;
    var t2 := t * t;
    var t3 := t2 * t;
    var t4 := t3 * t;
    var t5 := t4 * t;
    assert s == t - t2;
    assert s * s == t2 - 2.0 * t3 + t4 by {
      assert t2 * t2 == t4;
    }
    var c := 1.0 + 2.0 * s + 6.0 * (s * s);
    assert c == 1.0 + 2.0 * t + 4.0 * t2 - 12.0 * t3 + 6.0 * t4;
    assert c * t == t + 2.0 * t2 + 4.0 * t3 - 12.0 * t4 + 6.0 * t5;
    assert d * c == c - 2.0 * (c * t);
    assert t3 * (t * (t * 6.0 - 15.0) + 10.0) == 6.0 * t5 - 15.0 * t4 + 10.0 * t3 by {
      assert t * (t * 6.0 - 15.0) == 6.0 * t2 - 15.0 * t;
      assert t3 * t2 == t5;
    }
    assert d * d * c == d * (d * c);
  }

  /** The larger of two fractions is no more than what either leaves of the other. */
  function Either(a: real, b: real): real {
    a + b - a * b
  }

  /** A gradient gives one of the two distances, or its opposite. */
  lemma GradientOne(hash: Hash, x: real, y: real, ix: int, iy: int)
    ensures Abs(GradientAt(hash, x, y, ix, iy)) == Abs(x - ix as real)
            || Abs(GradientAt(hash, x, y, ix, iy)) == Abs(y - iy as real)
  {
  }

  lemma GradientEither(hash: Hash, x: real, y: real, ix: int, iy: int, a: real, b: real)
    requires a == Abs(x - ix as real) <= 1.0 && b == Abs(y - iy as real) <= 1.0
    ensures Bounded(GradientAt(hash, x, y, ix, iy), Either(a, b))
  {
    hide GradientAt;
    GradientOne(hash, x, y, ix, iy);
    Product(a, 1.0 - b);
    Product(b, 1.0 - a);
    assert Either(a, b) == a + b * (1.0 - a) == b + a * (1.0 - b);
  }

  lemma LerpMonotone(s: real, a: real, b: real, c: real, d: real)
    requires 0.0 <= s <= 1.0 && Bounded(a, c) && Bounded(b, d)
    ensures Bounded(Lerp(s, a, b), Lerp(s, c, d))
  {
    Product(1.0 - s, c - a);
    Product(1.0 - s, c + a);
    Product(s, d - b);
    Product(s, d + b);
    assert Lerp(s, a, b) == (1.0 - s) * a + s * b && Lerp(s, c, d) == (1.0 - s) * c + s * d;
    assert (1.0 - s) * (c - a) == (1.0 - s) * c - (1.0 - s) * a && (1.0 - s) * (c + a) == (1.0 - s) * c + (1.0 - s) * a;
    assert s * (d - b) == s * d - s * b && s * (d + b) == s * d + s * b;
  }

  lemma LerpEither(s: real, a: real, b: real, c: real)
    ensures Lerp(s, Either(a, c), Either(b, c)) == Either(Lerp(s, a, b), c)
    ensures Lerp(s, Either(c, a), Either(c, b)) == Either(c, Lerp(s, a, b))
  {
    var e := s * (b - a);
    assert Either(b, c) - Either(a, c) == (b - a) * (1.0 - c) by {
      assert (b - a) * c == b * c - a * c;
    }
    assert s * ((b - a) * (1.0 - c)) == e * (1.0 - c);
    assert e * (1.0 - c) == e - e * c && (a + e) * c == a * c + e * c;
  }

  /** A blend of the two distances to the ends of a unit is no more than a half of it. */
  lemma Midway(i: Interpolation, t: real)
    requires !i.NoInterpolation? && 0.0 <= t <= 1.0
    ensures 0.0 <= Lerp(Blend(i, t), t, 1.0 - t) <= 0.5
  {
    var p := Blend(i, t);
    BlendInUnit(i, t);
    HalfWay(i, t);
    Product(1.0 - p, t);
    Product(p, 1.0 - t);
    assert Lerp(p, t, 1.0 - t) == (1.0 - p) * t + p * (1.0 - t);
    assert (1.0 - 2.0 * t) * (0.5 - p) == 0.5 - t - p * (1.0 - 2.0 * t);
    assert Lerp(p, t, 1.0 - t) == t + p * (1.0 - 2.0 * t);
  }

  /** Interpolated gradient noise stays within three quarters. */
  lemma GradientSharp(hash: Hash, i: Interpolation, x: real, y: real)
    requires !i.NoInterpolation?
    ensures Bounded(GradientNoise(hash, i, x, y), 0.75)
  {
    hide Blend, FastFloor, GradientAt, Either;
    var x0, y0 := FastFloor(x), FastFloor(y);
    var t, u := x - x0 as real, y - y0 as real;
    var p, q := Blend(i, t), Blend(i, u);
    FractionInUnit(x);
    FractionInUnit(y);
    BlendInUnit(i, t);
    BlendInUnit(i, u);
    GradientEither(hash, x, y, x0, y0, t, u);
    GradientEither(hash, x, y, x0 + 1, y0, 1.0 - t, u);
    GradientEither(hash, x, y, x0, y0 + 1, t, 1.0 - u);
    GradientEither(hash, x, y, x0 + 1, y0 + 1, 1.0 - t, 1.0 - u);
    var v00, v10 := GradientAt(hash, x, y, x0, y0), GradientAt(hash, x, y, x0 + 1, y0);
    var v01, v11 := GradientAt(hash, x, y, x0, y0 + 1), GradientAt(hash, x, y, x0 + 1, y0 + 1);
    LerpMonotone(p, v00, v10, Either(t, u), Either(1.0 - t, u));
    LerpMonotone(p, v01, v11, Either(t, 1.0 - u), Either(1.0 - t, 1.0 - u));
    var a, b := Lerp(p, t, 1.0 - t), Lerp(q, u, 1.0 - u);
    LerpEither(p, t, 1.0 - t, u);
    LerpEither(p, t, 1.0 - t, 1.0 - u);
    LerpMonotone(q, Lerp(p, v00, v10), Lerp(p, v01, v11), Either(a, u), Either(a, 1.0 - u));
    LerpEither(q, u, 1.0 - u, a);
    Midway(i, t);
    Midway(i, u);
    HalfEither(a, b);
  }

  lemma HalfEither(a: real, b: real)
    requires 0.0 <= a <= 0.5 && 0.0 <= b <= 0.5
    ensures Either(a, b) <= 0.75
  {
    Product(0.5 - a, 0.5 - b);
    assert (0.5 - a) * (0.5 - b) == 0.25 - 0.5 * a - 0.5 * b + a * b;
  }

  /** The most that gradient-value noise reaches. */
  const PEAK: real := 508.0 / 255.0

  /** At one corner: 255 points away from what lies beyond it, 254 does not. */
  lemma CornerSharp(hash: Hash, x: real, y: real, ix: int, iy: int)
    requires 0.0 <= x - ix as real <= 1.0 && 0.0 <= y - iy as real <= 1.0
    ensures Bounded(ValueAt(hash, ix, iy) + GradientAt(hash, x, y, ix, iy), PEAK)
  {
    var h: int := hash(ix, iy);
    assert ValueAt(hash, ix, iy) == (2 * h - 255) as real / 255.0;
    if h == 255 || h == 0 {
      assert h % 4 == 3 || h % 4 == 0;
    }
  }

  /** Gradient-value noise stays within the peak. */
  lemma NoiseSharp(hash: Hash, i: Interpolation, x: real, y: real)
    ensures Bounded(GradientValueNoise(hash, i, x, y), PEAK)
  {
    if i.NoInterpolation? {
      FractionInUnit(x);
      FractionInUnit(y);
      CornerSharp(hash, x, y, FastFloor(x), FastFloor(y));
    } else {
      NoiseBounded(hash, i, x, y);
      GradientSharp(hash, i, x, y);
    }
  }

  // ---------------------------------------------------------------- as a basis

  /** A noise function that stays in [-2, 2]. */
  type Basis = f: (real, real) -> real | forall x, y :: Bounded(f(x, y), 2.0) witness (x, y) => 0.0

  function Sample(b: Basis, x: real, y: real): (v: real)
    ensures Bounded(v, 2.0)
  {
    b(x, y)
  }

  /** Gradient-value noise is one, for every hash and every interpolation. */
  function GradientValueBasis(hash: Hash, i: Interpolation): (b: Basis)
    ensures forall x, y :: Sample(b, x, y) == GradientValueNoise(hash, i, x, y)
  {
    AllBounded(hash, i);
    (x, y) => GradientValueNoise(hash, i, x, y)
  }

  lemma AllBounded(hash: Hash, i: Interpolation)
    ensures forall x, y :: Bounded(GradientValueNoise(hash, i, x, y), 2.0)
  {
    forall x, y
      ensures Bounded(GradientValueNoise(hash, i, x, y), 2.0)
    {
      NoiseBounded(hash, i, x, y);
    }
  }
}
