/** The noise as a formula: which lattice points count at a place and how much, and what the octaves of the
    fractals add up to. */
module NoiseLaws {
  import opened LittleEndian
  import opened Noise
  import opened Fractal

  /** The lattice cell of a coordinate: whole numbers beyond zero are on its lower side, others on its upper. */
  lemma FloorExactly(t: real, n: int)
    ensures FastFloor(t) == n <==>
            if t > 0.0 then n as real <= t < n as real + 1.0 else n as real < t <= n as real + 1.0
  {
  }

  /** The blends as polynomials. */
  lemma BlendExactly(t: real)
    ensures Blend(NoInterpolation, t) == 0.0 && Blend(Linear, t) == t
    ensures var t2 := t * t;
            && Blend(Cubic, t) == 3.0 * t2 - 2.0 * (t2 * t)
            && Blend(Quintic, t) == 6.0 * (t2 * t2 * t) - 15.0 * (t2 * t2) + 10.0 * (t2 * t)
  {
    var t2 := t * t;
    assert t2 * (3.0 - 2.0 * t) == 3.0 * t2 - 2.0 * (t2 * t);
    var t3 := t2 * t;
    assert t * (t * 6.0 - 15.0) == 6.0 * t2 - 15.0 * t;
    assert t3 * (6.0 * t2 - 15.0 * t + 10.0) == 6.0 * (t3 * t2) - 15.0 * (t3 * t) + 10.0 * t3;
    assert t3 * t2 == t2 * t2 * t && t3 * t == t2 * t2;
  }

  /** What the corners of a lattice cell come to, by their shares. */
  ghost predicate Shared(p: real, q: real, v00: real, v10: real, v01: real, v11: real, v: real) {
    v == (1.0 - q) * ((1.0 - p) * v00) + (1.0 - q) * (p * v10) + q * ((1.0 - p) * v01) + q * (p * v11)
  }

  /** The share of each corner: the nearer in both directions the larger. */
  lemma CornersExactly(p: real, q: real, v00: real, v10: real, v01: real, v11: real)
    ensures Shared(p, q, v00, v10, v01, v11, Corners(p, q, v00, v10, v01, v11))
  {
    var a, b := Lerp(p, v00, v10), Lerp(p, v01, v11);
    assert a == (1.0 - p) * v00 + p * v10 && b == (1.0 - p) * v01 + p * v11;
    assert Lerp(q, a, b) == (1.0 - q) * a + q * b;
    assert (1.0 - q) * ((1.0 - p) * v00 + p * v10) == (1.0 - q) * ((1.0 - p) * v00) + (1.0 - q) * (p * v10);
    assert q * ((1.0 - p) * v01 + p * v11) == q * ((1.0 - p) * v01) + q * (p * v11);
  }

  /** The value of a lattice point: its hash from 0 to 255 spread over [-1, 1]. */
  lemma ValueAtExactly(hash: Hash, ix: int, iy: int)
    ensures var h: int := hash(ix, iy); 255.0 * ValueAt(hash, ix, iy) == (2 * h - 255) as real
  {
    var h: int := hash(ix, iy);
    assert 255.0 * (h as real / 255.0 * 2.0 - 1.0) == 2.0 * h as real - 255.0;
  }

  /** The slope of a lattice point: along one of the axes, one way or the other, by its hash. */
  lemma GradientAtExactly(hash: Hash, x: real, y: real, ix: int, iy: int)
    ensures GradientAt(hash, x, y, ix, iy) ==
            if hash(ix, iy) % 4 == 0 then y - iy as real
            else if hash(ix, iy) % 4 == 1 then iy as real - y
            else if hash(ix, iy) % 4 == 2 then x - ix as real
            else ix as real - x
  {
  }

  /** Gradient-value noise at a place is the value and the slope of the four lattice points around it, by
      their shares. */
  lemma NoiseExactly(hash: Hash, i: Interpolation, x: real, y: real, ix: int, iy: int)
    requires ix == FastFloor(x) && iy == FastFloor(y)
    ensures var p, q := Blend(i, x - ix as real), Blend(i, y - iy as real);
            && Shared(p, q, ValueAt(hash, ix, iy), ValueAt(hash, ix + 1, iy), ValueAt(hash, ix, iy + 1),
                      ValueAt(hash, ix + 1, iy + 1), ValueNoise(hash, i, x, y))
            && Shared(p, q, GradientAt(hash, x, y, ix, iy), GradientAt(hash, x, y, ix + 1, iy),
                      GradientAt(hash, x, y, ix, iy + 1), GradientAt(hash, x, y, ix + 1, iy + 1),
                      GradientNoise(hash, i, x, y))
            && GradientValueNoise(hash, i, x, y) == ValueNoise(hash, i, x, y) + GradientNoise(hash, i, x, y)
  {
    hide Blend, FastFloor, ValueAt, GradientAt, Corners, Shared;
    var p, q := Blend(i, x - ix as real), Blend(i, y - iy as real);
    CornersExactly(p, q, ValueAt(hash, ix, iy), ValueAt(hash, ix + 1, iy), ValueAt(hash, ix, iy + 1),
                   ValueAt(hash, ix + 1, iy + 1));
    CornersExactly(p, q, GradientAt(hash, x, y, ix, iy), GradientAt(hash, x, y, ix + 1, iy),
                   GradientAt(hash, x, y, ix, iy + 1), GradientAt(hash, x, y, ix + 1, iy + 1));
  }

  // ---------------------------------------------------------------- octaves

  /** A coordinate after k scalings. */
  function Scaled(v: real, lacunarity: real, k: nat): real {
    if k == 0 then v else Scaled(v, lacunarity, k - 1) * lacunarity
  }

  lemma {:induction false} ScaledFirst(v: real, lacunarity: real, k: nat)
    ensures Scaled(v * lacunarity, lacunarity, k) == Scaled(v, lacunarity, k + 1)
  {
    if k > 0 {
      ScaledFirst(v, lacunarity, k - 1);
    }
  }

  /** The noise of a source at a place turned by its angle. */
  ghost predicate TurnedNoise(s: Source, a: real, b: real, v: real) {
    v == s.basis(a * s.cos - b * s.sin, b * s.cos + a * s.sin)
  }

  lemma SignalTurned(s: Source, a: real, b: real)
    ensures TurnedNoise(s, a, b, Signal(s, a, b))
  {
    var u, v := TurnedX(s.cos, s.sin, a, b), TurnedY(s.cos, s.sin, a, b);
    assert u == a * s.cos - b * s.sin && v == b * s.cos + a * s.sin;
    assert Signal(s, a, b) == s.basis(u, v);
  }

  /** The k-th octave takes the k-th source, at the place scaled k times. */
  lemma {:induction false} SignalExactly(sources: seq<Source>, lacunarity: real, x: real, y: real, n: nat, k: nat)
    requires k < n <= |sources|
    ensures TurnedNoise(sources[k], Scaled(x, lacunarity, k), Scaled(y, lacunarity, k),
                        Signals(sources, lacunarity, x, y, n)[k])
    decreases k
  {
    hide TurnedNoise, Signal;
    if k == 0 {
      SignalTurned(sources[0], x, y);
    } else {
      SignalExactly(sources[1..], lacunarity, x * lacunarity, y * lacunarity, n - 1, k - 1);
      ScaledFirst(x, lacunarity, k - 1);
      ScaledFirst(y, lacunarity, k - 1);
    }
  }

  lemma AllTurned(sources: seq<Source>, lacunarity: real, x: real, y: real, n: nat)
    requires n <= |sources|
    ensures forall k :: 0 <= k < n ==>
              TurnedNoise(sources[k], Scaled(x, lacunarity, k), Scaled(y, lacunarity, k),
                          Signals(sources, lacunarity, x, y, n)[k])
  {
    hide TurnedNoise, Scaled, Signals;
    forall k | 0 <= k < n
      ensures TurnedNoise(sources[k], Scaled(x, lacunarity, k), Scaled(y, lacunarity, k),
                          Signals(sources, lacunarity, x, y, n)[k])
    {
      SignalExactly(sources, lacunarity, x, y, n, k);
    }
  }

  function Sum(terms: seq<real>): real {
    if terms == [] then 0.0 else Sum(terms[..|terms| - 1]) + terms[|terms| - 1]
  }

  /** The term of an octave: the square of what its noise leaves of one, by its weight. */
  function Term(signal: real, weight: real): real {
    var left := if signal < 0.0 then 1.0 + signal else 1.0 - signal;
    left * left * weight
  }

  lemma TermExactly(signal: real, weight: real)
    ensures Ridge(signal) * weight == Term(signal, weight)
  {
  }

  ghost predicate Terms(signals: seq<real>, w: seq<real>, terms: seq<real>) {
    |terms| == |signals| <= |w| && forall k :: 0 <= k < |terms| ==> terms[k] == Term(signals[k], w[k])
  }

  lemma {:induction false} RidgeSumExactly(signals: seq<real>, w: seq<real>, n: nat) returns (terms: seq<real>)
    requires n <= |signals| && n <= |w|
    ensures Terms(signals[..n], w, terms) && Sum(terms) == RidgeSum(signals, w, n)
  {
    hide Term, Ridge;
    if n == 0 {
      terms := [];
    } else {
      var front := RidgeSumExactly(signals, w, n - 1);
      TermExactly(signals[n - 1], w[n - 1]);
      terms := front + [Term(signals[n - 1], w[n - 1])];
      assert terms[..n - 1] == front;
      assert signals[..n] == signals[..n - 1] + [signals[n - 1]];
    }
  }

  lemma {:induction false} WeightSumExactly(w: seq<real>, n: nat)
    requires n <= |w|
    ensures WeightSum(w, n) == Sum(w[..n])
  {
    if n > 0 {
      WeightSumExactly(w, n - 1);
      assert w[..n][..n - 1] == w[..n - 1];
    }
  }

  /** The value of the ridged fractal: twice the share its terms have of all the weight, less one. */
  lemma RidgedExactly(sources: seq<Source>, w: seq<real>, frequency: real, lacunarity: real, n: nat, x: real, y: real)
    returns (signals: seq<real>, terms: seq<real>)
    requires n <= |sources| && n <= |w| && WeightSum(w, n) > 0.0
    ensures |signals| == n && Terms(signals, w, terms)
    ensures forall k :: 0 <= k < n ==>
              TurnedNoise(sources[k], Scaled(x * frequency, lacunarity, k), Scaled(y * frequency, lacunarity, k),
                          signals[k])
    ensures (Ridged(sources, w, frequency, lacunarity, n, x, y) + 1.0) * Sum(w[..n]) == 2.0 * Sum(terms)
  {
    hide Terms, TurnedNoise, Scaled, Normalized, Ridge, Signal;
    signals := Signals(sources, lacunarity, x * frequency, y * frequency, n);
    AllTurned(sources, lacunarity, x * frequency, y * frequency, n);
    terms := RidgeSumExactly(signals, w, n);
    assert signals[..n] == signals;
    WeightSumExactly(w, n);
    TwiceShare(RidgeSum(signals, w, n), WeightSum(w, n));
  }

  lemma TwiceShare(share: real, total: real)
    requires total > 0.0
    ensures (Normalized(share, total) + 1.0) * total == 2.0 * share
  {
    var scale := 2.0 / total;
    assert scale * total == 2.0;
    assert share * scale * total == share * (scale * total);
  }

  /** The signals of a fractional Brownian sum, each by its weight. */
  ghost predicate Weighted(signals: seq<real>, w: seq<real>, terms: seq<real>) {
    |terms| == |signals| <= |w| && forall k :: 0 <= k < |terms| ==> terms[k] == Times(signals[k], w[k])
  }

  function Times(signal: real, weight: real): real {
    signal * weight
  }

  lemma {:induction false} BrownianSumExactly(signals: seq<real>, w: seq<real>, n: nat) returns (terms: seq<real>)
    requires n <= |signals| && n <= |w|
    ensures Weighted(signals[..n], w, terms) && Sum(terms) == BrownianSum(signals, w, n)
  {
    if n == 0 {
      terms := [];
    } else {
      assert BrownianSum(signals, w, n) == BrownianSum(signals, w, n - 1) + Times(signals[n - 1], w[n - 1]);
      hide Times, BrownianSum;
      var front := BrownianSumExactly(signals, w, n - 1);
      terms := front + [Times(signals[n - 1], w[n - 1])];
      assert terms[..n - 1] == front;
      assert signals[..n] == signals[..n - 1] + [signals[n - 1]];
    }
  }

  /** The value of fractional Brownian motion, before its clamp: the sum of its terms. */
  lemma BrownianExactly(sources: seq<Source>, w: seq<real>, frequency: real, lacunarity: real, n: nat, x: real, y: real)
    returns (signals: seq<real>, terms: seq<real>)
    requires n <= |sources| && n <= |w|
    ensures |signals| == n && Weighted(signals, w, terms)
    ensures forall k :: 0 <= k < n ==>
              TurnedNoise(sources[k], Scaled(x * frequency, lacunarity, k), Scaled(y * frequency, lacunarity, k),
                          signals[k])
    ensures Brownian(sources, w, frequency, lacunarity, n, x, y) == Sum(terms)
  {
    hide Weighted, TurnedNoise, Scaled, Signal;
    signals := Signals(sources, lacunarity, x * frequency, y * frequency, n);
    AllTurned(sources, lacunarity, x * frequency, y * frequency, n);
    terms := BrownianSumExactly(signals, w, n);
    assert signals[..n] == signals;
  }
}
