/** Fractal sums of that noise, with the weights and corrections the constructor computes. */
module Fractal {
  import opened Noise

  const MAX_SOURCES := 20

  /** One source: its own noise and its own rotation of the plane. */
  datatype Source = Source(basis: Basis, cos: real, sin: real)

  /** The coordinates after the rotation. */
  function TurnedX(cos: real, sin: real, x: real, y: real): real {
    x * cos - y * sin
  }

  function TurnedY(cos: real, sin: real, x: real, y: real): real {
    y * cos + x * sin
  }

  function Signal(s: Source, x: real, y: real): (v: real)
    ensures Bounded(v, 2.0)
  {
    Sample(s.basis, TurnedX(s.cos, s.sin, x, y), TurnedY(s.cos, s.sin, x, y))
  }

  function Clamp(v: real, low: real, high: real): real {
    if v < low then low else if v > high then high else v
  }

  function WeightSum(w: seq<real>, n: nat): real
    requires n <= |w|
  {
    if n == 0 then 0.0 else WeightSum(w, n - 1) + w[n - 1]
  }

  /** A signal as the ridged sum takes it. */
  function Ridge(signal: real): real {
    (1.0 - Abs(signal)) * (1.0 - Abs(signal))
  }

  /** The signals of the first n octaves, each at its own scale. None leaves [-2, 2]. */
  function Signals(sources: seq<Source>, lacunarity: real, x: real, y: real, n: nat): (r: seq<real>)
    requires n <= |sources|
    ensures |r| == n && forall k :: 0 <= k < n ==> Bounded(r[k], 2.0)
    decreases n
  {
    if n == 0 then []
    else
      [Signal(sources[0], x, y)] + Signals(sources[1..], lacunarity, x * lacunarity, y * lacunarity, n - 1)
  }

  /** The weighted sum of the ridges of n signals. */
  function RidgeSum(signals: seq<real>, w: seq<real>, n: nat): real
    requires n <= |signals| && n <= |w|
  {
    if n == 0 then 0.0 else RidgeSum(signals, w, n - 1) + Ridge(signals[n - 1]) * w[n - 1]
  }

  /** A weighted sum as a share of the total weight, scaled from [0, 1] onto [-1, 1]. */
  function Normalized(sum: real, total: real): real {
    if total == 0.0 then 0.0 else sum * (2.0 / total) - 1.0
  }

  /** The value of the ridged fractal of n octaves. */
  function Ridged(sources: seq<Source>, w: seq<real>, frequency: real, lacunarity: real, n: nat,
                  x: real, y: real): real
    requires n <= |sources| && n <= |w|
  {
    var signals := Signals(sources, lacunarity, x * frequency, y * frequency, n);
    Normalized(RidgeSum(signals, w, n), WeightSum(w, n))
  }

  /** At (x, y) the sources from the i-th on give the signals from the i-th on. */
  ghost predicate Remaining(sources: seq<Source>, signals: seq<real>, lacunarity: real, x: real, y: real, i: nat) {
    && i <= |signals| <= |sources|
    && Signals(sources[i..], lacunarity, x, y, |signals| - i) == signals[i..]
  }

  lemma AllRemain(sources: seq<Source>, lacunarity: real, x: real, y: real, n: nat)
    requires n <= |sources|
    ensures Remaining(sources, Signals(sources, lacunarity, x, y, n), lacunarity, x, y, 0)
  {
    assert sources[0..] == sources;
  }

  lemma NextRemain(sources: seq<Source>, signals: seq<real>, lacunarity: real, x: real, y: real, i: nat)
    requires i < |signals| && Remaining(sources, signals, lacunarity, x, y, i)
    ensures Signal(sources[i], x, y) == signals[i]
    ensures Remaining(sources, signals, lacunarity, x * lacunarity, y * lacunarity, i + 1)
  {
    hide Signal;
    assert sources[i..][1..] == sources[i + 1..] && signals[i..][1..] == signals[i + 1..];
    assert signals[i..][0] == signals[i];
  }

  lemma NextRidge(signals: seq<real>, w: seq<real>, i: nat)
    requires i < |signals| && i < |w|
    ensures RidgeSum(signals, w, i + 1)
         == RidgeSum(signals, w, i) + (1.0 - Abs(signals[i])) * (1.0 - Abs(signals[i])) * w[i]
  {
  }

  lemma SquareInUnit(d: real)
    requires -1.0 <= d <= 1.0
    ensures 0.0 <= d * d <= 1.0
  {
    var e := Abs(d);
    Product(e, e);
    Product(e, 1.0 - e);
    assert e * (1.0 - e) == e - e * e && e * e == d * d;
  }

  lemma RidgeInUnit(signal: real)
    requires Bounded(signal, 2.0)
    ensures 0.0 <= Ridge(signal) <= 1.0
  {
    SquareInUnit(1.0 - Abs(signal));
  }

  lemma {:induction false} RidgeSumBounded(signals: seq<real>, w: seq<real>, n: nat)
    requires n <= |signals| && n <= |w|
    requires forall k :: 0 <= k < |signals| ==> Bounded(signals[k], 2.0)
    requires forall k :: 0 <= k < |w| ==> w[k] > 0.0
    ensures 0.0 <= RidgeSum(signals, w, n) <= WeightSum(w, n)
  {
    if n > 0 {
      var r := Ridge(signals[n - 1]);
      RidgeInUnit(signals[n - 1]);
      Product(r, w[n - 1]);
      Product(1.0 - r, w[n - 1]);
      assert (1.0 - r) * w[n - 1] == w[n - 1] - r * w[n - 1];
      RidgeSumBounded(signals, w, n - 1);
    }
  }

  lemma {:induction false} WeightSumPositive(w: seq<real>, n: nat)
    requires 0 < n <= |w| && forall k :: 0 <= k < |w| ==> w[k] > 0.0
    ensures WeightSum(w, n) > 0.0
  {
    if n > 1 {
      WeightSumPositive(w, n - 1);
    }
  }

  /** Scaling a share of a positive total onto [-1, 1]. */
  lemma ShareScaled(share: real, total: real)
    requires 0.0 <= share <= total && total > 0.0
    ensures -1.0 <= Normalized(share, total) <= 1.0
  {
    var scale := 2.0 / total;
    assert scale > 0.0;
    Product(share, scale);
    Product(total - share, scale);
    assert total * scale == 2.0;
    assert (total - share) * scale == total * scale - share * scale;
  }

  /** Scale and bias that normalise a sum of n weights. */
  ghost predicate Corrected(w: seq<real>, n: nat, scale: real, bias: real) {
    n <= |w| && WeightSum(w, n) > 0.0 && scale == 2.0 / WeightSum(w, n) && bias == -1.0
  }

  lemma CorrectedShare(w: seq<real>, n: nat, scale: real, bias: real, sum: real)
    requires Corrected(w, n, scale, bias) && 0.0 <= sum <= WeightSum(w, n)
    ensures sum * scale + bias == Normalized(sum, WeightSum(w, n))
    ensures -1.0 <= sum * scale + bias <= 1.0
  {
    ShareScaled(sum, WeightSum(w, n));
  }

  class RidgedMulti {
    const sources: seq<Source>
    const expArray: array<real>
    const scale: array<real>
    const bias: array<real>
    var octaves: int
    var frequency: real
    var lacunarity: real

    ghost predicate Valid()
      reads this, expArray, scale, bias
    {
      && |sources| == MAX_SOURCES
      && expArray.Length == scale.Length == bias.Length == MAX_SOURCES
      && scale != bias && scale != expArray && bias != expArray
      && (forall i :: 0 <= i < MAX_SOURCES ==> expArray[i] > 0.0)
      && (forall i :: 0 <= i < MAX_SOURCES ==> Corrected(expArray[..], i + 1, scale[i], bias[i]))
      && octaves < MAX_SOURCES
    }

    /** Construction with `RidgedMulti_CalculateWeights`. `weight` is the power of the lacunarity an
        octave gets. */
    constructor (sources: seq<Source>, weight: nat -> real)
      requires |sources| == MAX_SOURCES && forall i :: weight(i) > 0.0
      ensures Valid() && octaves == 8 && frequency == 1.0 && lacunarity == 2.0
      ensures this.sources == sources
      ensures forall i :: 0 <= i < MAX_SOURCES ==> expArray[i] == weight(i)
    {
      this.sources := sources;
      octaves, frequency, lacunarity := 8, 1.0, 2.0;
      var w := new real[MAX_SOURCES](i => weight(i));
      var s := new real[MAX_SOURCES];
      var b := new real[MAX_SOURCES];
      var offset := 1.0;
      var minValue, maxValue := 0.0, 0.0;
      for i := 0 to MAX_SOURCES
        invariant forall k :: 0 <= k < MAX_SOURCES ==> w[k] == weight(k)
        invariant minValue == 0.0 && maxValue == WeightSum(w[..], i)
        invariant forall k :: 0 <= k < i ==> Corrected(w[..], k + 1, s[k], b[k])
      {
        minValue := minValue + (offset - 1.0) * (offset - 1.0) * w[i];
        maxValue := maxValue + offset * offset * w[i];
        WeightSumPositive(w[..], i + 1);
        s[i] := (1.0 - -1.0) / (maxValue - minValue);
        b[i] := -1.0 - minValue * s[i];
      }
      expArray, scale, bias := w, s, b;
    }

    /** `Octaves`: counts beyond the sources are cut off. */
    method SetOctaves(value: int)
      requires Valid()
      modifies this
      ensures Valid() && octaves == if value >= 20 then 19 else value
      ensures frequency == old(frequency) && lacunarity == old(lacunarity)
    {
      octaves := if value >= MAX_SOURCES then MAX_SOURCES - 1 else value;
    }

    /** The value of the fractal at a point. */
    ghost function Value(x: real, y: real): real
      reads this, expArray, scale, bias
      requires Valid() && octaves >= 1
    {
      Ridged(sources, expArray[..], frequency, lacunarity, octaves, x, y)
    }

    /** `RidgedMulti_Get`: the sum of ridges, as a share of the total weight, scaled onto [-1, 1]. */
    method RidgedGet(x0: real, y0: real) returns (r: real)
      requires Valid() && octaves >= 1
      ensures r == Value(x0, y0)
      ensures -1.0 <= r <= 1.0
    {
      hide Normalized, Signal, Signals, WeightSum, Ridge, Remaining;
      var result, x, y, step := 0.0, x0 * frequency, y0 * frequency, lacunarity;
      ghost var w := expArray[..];
      ghost var signals := Signals(sources, step, x, y, octaves);
      assert Value(x0, y0) == Normalized(RidgeSum(signals, w, octaves), WeightSum(w, octaves));
      AllRemain(sources, step, x, y, octaves);
      for i := 0 to octaves
        invariant Remaining(sources, signals, step, x, y, i)
        invariant result == RidgeSum(signals, w, i)
      {
        NextRemain(sources, signals, step, x, y, i);
        NextRidge(signals, w, i);
        var signal := Signal(sources[i], x, y);
        signal := 1.0 - Abs(signal);
        signal := signal * signal;
        result := result + signal * expArray[i];
        x, y := x * step, y * step;
      }
      r := result * scale[octaves - 1] + bias[octaves - 1];
      RidgeSumBounded(signals, w, octaves);
      assert Corrected(w, octaves - 1 + 1, scale[octaves - 1], bias[octaves - 1]);
      CorrectedShare(w, octaves, scale[octaves - 1], bias[octaves - 1], result);
    }

    /** `Get`: the final clamp has nothing to do. */
    method Get(x: real, y: real) returns (r: real)
      requires Valid() && octaves >= 1
      ensures r == Value(x, y)
    {
      var v := RidgedGet(x, y);
      r := Clamp(v, -1.0, 1.0);
    }
  }

  // ---------------------------------------------------------------- fractional Brownian motion

  /** The weighted sum of the signals themselves, which nothing normalises. */
  function BrownianSum(signals: seq<real>, w: seq<real>, n: nat): real
    requires n <= |signals| && n <= |w|
  {
    if n == 0 then 0.0 else BrownianSum(signals, w, n - 1) + signals[n - 1] * w[n - 1]
  }

  function Brownian(sources: seq<Source>, w: seq<real>, frequency: real, lacunarity: real, n: nat,
                    x: real, y: real): real
    requires n <= |sources| && n <= |w|
  {
    BrownianSum(Signals(sources, lacunarity, x * frequency, y * frequency, n), w, n)
  }

  lemma {:induction false} BrownianBounded(signals: seq<real>, w: seq<real>, n: nat, m: real)
    requires n <= |signals| && n <= |w|
    requires forall k :: 0 <= k < n ==> Bounded(signals[k], m)
    requires forall k :: 0 <= k < |w| ==> w[k] > 0.0
    ensures Bounded(BrownianSum(signals, w, n), m * WeightSum(w, n))
  {
    if n > 0 {
      var s, v, total := signals[n - 1], w[n - 1], WeightSum(w, n - 1);
      Product(m - s, v);
      Product(m + s, v);
      assert (m - s) * v == m * v - s * v && (m + s) * v == m * v + s * v;
      assert m * (total + v) == m * total + m * v;
      BrownianBounded(signals, w, n - 1, m);
    }
  }

  /** `FractionalBrownianMotion_Get` with the clamp of `Get` behind it. */
  method BrownianGet(sources: seq<Source>, expArray: array<real>, frequency: real, lacunarity: real, octaves: nat,
                     x0: real, y0: real)
    returns (value: real, r: real)
    requires octaves <= |sources| && octaves <= expArray.Length
    requires forall k :: 0 <= k < expArray.Length ==> expArray[k] > 0.0
    ensures value == Brownian(sources, expArray[..], frequency, lacunarity, octaves, x0, y0)
    ensures Bounded(value, 2.0 * WeightSum(expArray[..], octaves))
    ensures r == Clamp(value, -1.0, 1.0)
  {
    var x, y := x0 * frequency, y0 * frequency;
    value := 0.0;
    ghost var w, signals := expArray[..], Signals(sources, lacunarity, x, y, octaves);
    AllRemain(sources, lacunarity, x, y, octaves);
    for i := 0 to octaves
      invariant Remaining(sources, signals, lacunarity, x, y, i)
      invariant value == BrownianSum(signals, w, i)
    {
      NextRemain(sources, signals, lacunarity, x, y, i);
      var signal := Signal(sources[i], x, y);
      value := value + signal * expArray[i];
      x, y := x * lacunarity, y * lacunarity;
    }
    BrownianBounded(signals, w, octaves, 2.0);
    r := Clamp(value, -1.0, 1.0);
  }

  // ---------------------------------------------------------------- when the clamp matters

  /** An octave of gradient-value noise: its hash and its rotation. */
  datatype Octave = Octave(hash: Hash, cos: real, sin: real)

  function NoiseSources(octaves: seq<Octave>, i: Interpolation): (s: seq<Source>)
    ensures |s| == |octaves|
  {
    if octaves == [] then []
    else
      [Source(GradientValueBasis(octaves[0].hash, i), octaves[0].cos, octaves[0].sin)] + NoiseSources(octaves[1..], i)
  }

  /** The sum of n octaves of noise at a point. */
  function NoiseSum(octaves: seq<Octave>, i: Interpolation, w: seq<real>, frequency: real, lacunarity: real, n: nat,
                    x: real, y: real): real
    requires n <= |octaves| && n <= |w|
  {
    Brownian(NoiseSources(octaves, i), w, frequency, lacunarity, n, x, y)
  }

  /** The noise of an octave at a point. */
  function OctaveNoise(o: Octave, i: Interpolation, x: real, y: real): real {
    GradientValueNoise(o.hash, i, TurnedX(o.cos, o.sin, x, y), TurnedY(o.cos, o.sin, x, y))
  }

  lemma OctaveSignal(o: Octave, i: Interpolation, x: real, y: real)
    ensures Signal(Source(GradientValueBasis(o.hash, i), o.cos, o.sin), x, y) == OctaveNoise(o, i, x, y)
  {
    hide GradientValueNoise, TurnedX, TurnedY;
  }

  /** The first signal is the noise of the first octave, the others are those of the other octaves. */
  lemma NoiseSignals(octaves: seq<Octave>, i: Interpolation, lacunarity: real, x: real, y: real, n: nat)
    requires 0 < n <= |octaves|
    ensures Signals(NoiseSources(octaves, i), lacunarity, x, y, n)
            == [OctaveNoise(octaves[0], i, x, y)]
               + Signals(NoiseSources(octaves[1..], i), lacunarity, x * lacunarity, y * lacunarity, n - 1)
  {
    hide GradientValueNoise;
    var sources, o := NoiseSources(octaves, i), octaves[0];
    assert sources[0] == Source(GradientValueBasis(o.hash, i), o.cos, o.sin);
    assert sources[1..] == NoiseSources(octaves[1..], i);
    OctaveSignal(o, i, x, y);
    assert Signals(sources, lacunarity, x, y, n)
        == [Signal(sources[0], x, y)] + Signals(sources[1..], lacunarity, x * lacunarity, y * lacunarity, n - 1);
  }

  lemma {:induction false} NoiseWithinPeak(octaves: seq<Octave>, i: Interpolation, lacunarity: real, x: real, y: real,
                                           n: nat)
    requires n <= |octaves|
    ensures var s := Signals(NoiseSources(octaves, i), lacunarity, x, y, n);
            forall k :: 0 <= k < n ==> Bounded(s[k], PEAK)
    decreases n
  {
    hide GradientValueNoise;
    if n > 0 {
      var o := octaves[0];
      NoiseSignals(octaves, i, lacunarity, x, y, n);
      NoiseSharp(o.hash, i, TurnedX(o.cos, o.sin, x, y), TurnedY(o.cos, o.sin, x, y));
      NoiseWithinPeak(octaves[1..], i, lacunarity, x * lacunarity, y * lacunarity, n - 1);
    }
  }

  /** Hashes that are the same everywhere, or everywhere but in one column. */
  const NEAR: Hash := (ix, iy) => 254
  const FLAT: Hash := (ix, iy) => 255
  const STEEP: Hash := (ix, iy) => if ix == 0 then 254 else 255

  /** The same octave n times over, not rotated. */
  function Repeated(hash: Hash, n: nat): (octaves: seq<Octave>)
    ensures |octaves| == n
  {
    if n == 0 then [] else [Octave(hash, 1.0, 0.0)] + Repeated(hash, n - 1)
  }

  predicate Constantly(s: seq<real>, v: real) {
    forall k :: 0 <= k < |s| ==> s[k] == v
  }

  /** At the origin every octave has the same value, whatever the scales. */
  lemma {:induction false} OriginSignals(hash: Hash, i: Interpolation, m: nat, lacunarity: real, n: nat)
    requires n <= m
    ensures Constantly(Signals(NoiseSources(Repeated(hash, m), i), lacunarity, 0.0, 0.0, n),
                       GradientValueNoise(hash, i, 0.0, 0.0))
    decreases n
  {
    hide GradientValueNoise;
    if n > 0 {
      NoiseSignals(Repeated(hash, m), i, lacunarity, 0.0, 0.0, n);
      assert Repeated(hash, m)[1..] == Repeated(hash, m - 1);
      OriginSignals(hash, i, m - 1, lacunarity, n - 1);
    }
  }

  lemma {:induction false} ConstantSum(signals: seq<real>, w: seq<real>, n: nat, v: real)
    requires n <= |signals| && n <= |w| && Constantly(signals, v)
    ensures BrownianSum(signals, w, n) == v * WeightSum(w, n)
  {
    if n > 0 {
      ConstantSum(signals, w, n - 1, v);
      assert v * (WeightSum(w, n - 1) + w[n - 1]) == v * WeightSum(w, n - 1) + v * w[n - 1];
    }
  }

  lemma OriginSum(hash: Hash, i: Interpolation, w: seq<real>, frequency: real, lacunarity: real, n: nat)
    requires n <= |w|
    ensures NoiseSum(Repeated(hash, |w|), i, w, frequency, lacunarity, n, 0.0, 0.0)
         == GradientValueNoise(hash, i, 0.0, 0.0) * WeightSum(w, n)
  {
    hide GradientValueNoise;
    OriginSignals(hash, i, |w|, lacunarity, n);
    ConstantSum(Signals(NoiseSources(Repeated(hash, |w|), i), lacunarity, 0.0, 0.0, n), w, n,
                GradientValueNoise(hash, i, 0.0, 0.0));
  }

  lemma PeakAtOrigin()
    ensures GradientValueNoise(NEAR, NoInterpolation, 0.0, 0.0) == PEAK
  {
    assert FastFloor(0.0) == -1;
  }

  /** The clamp leaves every sum of gradient-value noise as it is, whatever the hashes, the interpolation
      and the point, if and only if the weights add up to no more than 255/508. */
  lemma ClampIdleExactly(w: seq<real>, n: nat, frequency: real, lacunarity: real)
    requires n <= |w| && forall k :: 0 <= k < |w| ==> w[k] > 0.0
    ensures (forall octaves: seq<Octave>, i, x, y :: |octaves| == |w| ==>
              var v := NoiseSum(octaves, i, w, frequency, lacunarity, n, x, y); Clamp(v, -1.0, 1.0) == v)
       <==> PEAK * WeightSum(w, n) <= 1.0
  {
    hide GradientValueNoise;
    if PEAK * WeightSum(w, n) <= 1.0 {
      forall octaves: seq<Octave>, i, x, y | |octaves| == |w|
        ensures var v := NoiseSum(octaves, i, w, frequency, lacunarity, n, x, y); Clamp(v, -1.0, 1.0) == v
      {
        NoiseWithinPeak(octaves, i, lacunarity, x * frequency, y * frequency, n);
        assert |Signals(NoiseSources(octaves, i), lacunarity, x * frequency, y * frequency, n)| == n;
        BrownianBounded(Signals(NoiseSources(octaves, i), lacunarity, x * frequency, y * frequency, n), w, n, PEAK);
      }
    } else {
      PeakAtOrigin();
      OriginSum(NEAR, NoInterpolation, w, frequency, lacunarity, n);
    }
  }

  // ---------------------------------------------------------------- for every interpolation

  lemma SameRows(p: real, q: real, a: real, b: real)
    ensures Corners(p, q, a, b, a, b) == Lerp(p, a, b)
  {
  }

  lemma PointingAt(hash: Hash, x: real, y: real, ix: int, iy: int)
    ensures hash(ix, iy) == 254 ==>
              ValueAt(hash, ix, iy) == 253.0 / 255.0 && GradientAt(hash, x, y, ix, iy) == x - ix as real
    ensures hash(ix, iy) == 255 ==> ValueAt(hash, ix, iy) == 1.0 && GradientAt(hash, x, y, ix, iy) == ix as real - x
  {
  }

  /** Noise that points away from every lattice point is nowhere negative. */
  lemma FlatNotNegative(i: Interpolation, x: real, y: real)
    ensures GradientValueNoise(FLAT, i, x, y) >= 0.0
  {
    hide FastFloor, Blend, ValueAt, GradientAt, Corners;
    var x0, y0 := FastFloor(x), FastFloor(y);
    var t, p, q := x - x0 as real, Blend(i, x - x0 as real), Blend(i, y - y0 as real);
    FractionInUnit(x);
    BlendInUnit(i, t);
    PointingAt(FLAT, x, y, x0, y0);
    PointingAt(FLAT, x, y, x0 + 1, y0);
    PointingAt(FLAT, x, y, x0, y0 + 1);
    PointingAt(FLAT, x, y, x0 + 1, y0 + 1);
    SameRows(p, q, 1.0, 1.0);
    SameRows(p, q, -t, 1.0 - t);
  }

  /** Half way between points that all point at it. */
  lemma SteepBeyondOne(i: Interpolation, y: real)
    ensures GradientValueNoise(STEEP, i, 0.5, y) > 1.0
  {
    assert FastFloor(0.5) == 0;
    hide FastFloor, Blend, ValueAt, GradientAt, Corners;
    var y0 := FastFloor(y);
    var p, q := Blend(i, 0.5), Blend(i, y - y0 as real);
    BlendInUnit(i, 0.5);
    PointingAt(STEEP, 0.5, y, 0, y0);
    PointingAt(STEEP, 0.5, y, 1, y0);
    PointingAt(STEEP, 0.5, y, 0, y0 + 1);
    PointingAt(STEEP, 0.5, y, 1, y0 + 1);
    SameRows(p, q, 253.0 / 255.0, 1.0);
    SameRows(p, q, 0.5, 0.5);
  }

  /** At the origin an interpolation that is one is on the lattice, where gradients vanish. */
  lemma OriginOnLattice(hash: Hash, i: Interpolation)
    requires !i.NoInterpolation?
    ensures GradientValueNoise(hash, i, 0.0, 0.0) == ValueAt(hash, 0, 0)
  {
    assert FastFloor(0.0) == -1 && Blend(i, 1.0) == 1.0;
  }

  lemma {:induction false} SumAtLeastFirst(signals: seq<real>, w: seq<real>, n: nat)
    requires 0 < n <= |signals| && n <= |w| && w[0] == 1.0 && forall k :: 0 <= k < |w| ==> w[k] > 0.0
    requires NotNegative(signals[1..])
    ensures BrownianSum(signals, w, n) >= signals[0]
  {
    if n > 1 {
      assert signals[n - 1] == signals[1..][n - 2];
      Product(signals[n - 1], w[n - 1]);
      SumAtLeastFirst(signals, w, n - 1);
    } else {
      assert BrownianSum(signals, w, 0) == 0.0 && signals[0] * w[0] == signals[0];
    }
  }

  predicate NotNegative(s: seq<real>) {
    forall k :: 0 <= k < |s| ==> s[k] >= 0.0
  }

  lemma {:induction false} FlatSignals(i: Interpolation, m: nat, lacunarity: real, x: real, y: real, n: nat)
    requires n <= m
    ensures NotNegative(Signals(NoiseSources(Repeated(FLAT, m), i), lacunarity, x, y, n))
    decreases n
  {
    hide GradientValueNoise;
    if n > 0 {
      var o := Octave(FLAT, 1.0, 0.0);
      NoiseSignals(Repeated(FLAT, m), i, lacunarity, x, y, n);
      FlatNotNegative(i, TurnedX(o.cos, o.sin, x, y), TurnedY(o.cos, o.sin, x, y));
      assert Repeated(FLAT, m)[1..] == Repeated(FLAT, m - 1);
      FlatSignals(i, m - 1, lacunarity, x * lacunarity, y * lacunarity, n - 1);
    }
  }

  /** A steep octave and flat ones behind it. */
  function Peaked(n: nat): (octaves: seq<Octave>)
    ensures |octaves| == n + 1
  {
    [Octave(STEEP, 1.0, 0.0)] + Repeated(FLAT, n)
  }

  lemma PeakedSum(w: seq<real>, n: nat, lacunarity: real, i: Interpolation)
    requires 0 < n <= |w| && w[0] == 1.0 && forall k :: 0 <= k < |w| ==> w[k] > 0.0
    ensures BrownianSum(Signals(NoiseSources(Peaked(|w| - 1), i), lacunarity, 0.5, 0.0, n), w, n) > 1.0
  {
    hide GradientValueNoise;
    var octaves := Peaked(|w| - 1);
    var s := Signals(NoiseSources(octaves, i), lacunarity, 0.5, 0.0, n);
    NoiseSignals(octaves, i, lacunarity, 0.5, 0.0, n);
    SteepBeyondOne(i, 0.0);
    assert octaves[1..] == Repeated(FLAT, |w| - 1);
    FlatSignals(i, |w| - 1, lacunarity, 0.5 * lacunarity, 0.0 * lacunarity, n - 1);
    assert s[1..] == Signals(NoiseSources(octaves[1..], i), lacunarity, 0.5 * lacunarity, 0.0 * lacunarity, n - 1);
    SumAtLeastFirst(s, w, n);
  }

  /** A sum beyond one, off the origin. */
  lemma SteepSum(w: seq<real>, n: nat, frequency: real, lacunarity: real, i: Interpolation, x: real)
    requires 0 < n <= |w| && w[0] == 1.0 && (forall k :: 0 <= k < |w| ==> w[k] > 0.0) && x * frequency == 0.5
    ensures NoiseSum(Peaked(|w| - 1), i, w, frequency, lacunarity, n, x, 0.0) > 1.0
  {
    hide Signals, BrownianSum;
    PeakedSum(w, n, lacunarity, i);
  }

  lemma {:induction false} WeightSumAtLeast(w: seq<real>, n: nat)
    requires 0 < n <= |w| && forall k :: 0 <= k < |w| ==> w[k] > 0.0
    ensures WeightSum(w, n) >= w[0] && (n > 1 ==> WeightSum(w, n) > w[0])
  {
    if n > 1 {
      WeightSumAtLeast(w, n - 1);
    }
  }

  /** One octave at frequency zero is its value at the origin everywhere. */
  lemma SingleAtOrigin(octaves: seq<Octave>, i: Interpolation, w: seq<real>, lacunarity: real, x: real, y: real)
    requires |octaves| == |w| > 0 && w[0] == 1.0 && !i.NoInterpolation?
    ensures Bounded(NoiseSum(octaves, i, w, 0.0, lacunarity, 1, x, y), 1.0)
  {
    hide GradientValueNoise;
    NoiseSignals(octaves, i, lacunarity, 0.0, 0.0, 1);
    OriginOnLattice(octaves[0].hash, i);
    ValueAtBounded(octaves[0].hash, 0, 0);
    var s := Signals(NoiseSources(octaves, i), lacunarity, 0.0, 0.0, 1);
    assert x * 0.0 == 0.0 && y * 0.0 == 0.0;
    assert BrownianSum(s, w, 1) == BrownianSum(s, w, 0) + s[0] * w[0] == s[0];
  }

  /** The first octave has weight one. With any interpolation the clamp then has something to do for some
      hashes at some point, if and only if there is a frequency, a second octave or no interpolation. */
  lemma BrownianNeedsClamp(w: seq<real>, n: nat, frequency: real, lacunarity: real, i: Interpolation)
    requires 0 < n <= |w| && w[0] == 1.0 && forall k :: 0 <= k < |w| ==> w[k] > 0.0
    ensures (exists octaves: seq<Octave>, x, y ::
              |octaves| == |w|
              && var v := NoiseSum(octaves, i, w, frequency, lacunarity, n, x, y); Clamp(v, -1.0, 1.0) != v)
       <==> frequency != 0.0 || n > 1 || i.NoInterpolation?
  {
    hide GradientValueNoise, NoiseSum;
    WeightSumAtLeast(w, n);
    if frequency != 0.0 {
      var x := 0.5 / frequency;
      assert x * frequency == 0.5;
      SteepSum(w, n, frequency, lacunarity, i, x);
    } else if i.NoInterpolation? {
      PeakAtOrigin();
      OriginSum(NEAR, i, w, frequency, lacunarity, n);
    } else if n > 1 {
      OriginOnLattice(FLAT, i);
      OriginSum(FLAT, i, w, frequency, lacunarity, n);
    } else {
      forall octaves: seq<Octave>, x, y | |octaves| == |w|
        ensures var v := NoiseSum(octaves, i, w, frequency, lacunarity, n, x, y); Clamp(v, -1.0, 1.0) == v
      {
        SingleAtOrigin(octaves, i, w, lacunarity, x, y);
      }
    }
  }
}
