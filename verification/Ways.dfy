/** Ways over a plane as words of four letters, one a direction, and their order: shorter ones first, equally
    long ones by their first different letter. */
module Ways {

  type Coord = (int, int)

  type Way = w: seq<nat> | forall i :: 0 <= i < |w| ==> w[i] < 4

  /** One step: up, right, left or down the second coordinate. */
  function Step(c: Coord, k: nat): Coord {
    if k == 0 then (c.0, c.1 + 1) else if k == 1 then (c.0 + 1, c.1) else if k == 2 then (c.0 - 1, c.1)
    else (c.0, c.1 - 1)
  }

  function End(start: Coord, w: Way): Coord {
    if w == [] then start else Step(End(start, w[..|w| - 1]), w[|w| - 1])
  }

  /** The way goes from start to c, every step onto a valid cell. */
  ghost predicate Leads(valid: Coord -> bool, start: Coord, w: Way, c: Coord) {
    End(start, w) == c && forall i :: 0 < i <= |w| ==> valid(End(start, w[..i]))
  }

  predicate Earlier(v: Way, w: Way) {
    |v| < |w| || (|v| == |w| && exists i :: 0 <= i < |v| && v[..i] == w[..i] && v[i] < w[i])
  }

  /** The place of a way in this order, with gaps. */
  function Rank(w: Way): nat {
    if w == [] then 0 else 5 * Rank(w[..|w| - 1]) + w[|w| - 1] + 1
  }

  function Power(n: nat): nat {
    if n == 0 then 1 else 5 * Power(n - 1)
  }

  lemma {:induction false} PowerGrows(m: nat, n: nat)
    requires m <= n
    ensures 1 <= Power(m) <= Power(n)
    decreases n
  {
    if m < n {
      PowerGrows(m, n - 1);
    } else if n > 0 {
      PowerGrows(n - 1, n - 1);
    }
  }

  lemma {:induction false} RankBounds(w: Way)
    ensures Power(|w|) <= 4 * Rank(w) + 1 && Rank(w) + 1 <= Power(|w|)
  {
    if w != [] {
      RankBounds(w[..|w| - 1]);
    }
  }

  lemma ShorterFirst(v: Way, w: Way)
    requires |v| < |w|
    ensures Rank(v) < Rank(w)
  {
    RankBounds(v);
    RankBounds(w);
    PowerGrows(|v| + 1, |w|);
  }

  lemma EarlierAppend(a: Way, b: Way, x: nat, y: nat)
    requires |a| == |b| && x < 4 && y < 4
    ensures Earlier(a + [x], b + [y]) <==> Earlier(a, b) || (a == b && x < y)
  {
    var v, w := a + [x], b + [y];
    assert v[..|a|] == a && w[..|a|] == b;
    assert forall i :: 0 <= i <= |a| ==> v[..i] == a[..i] && w[..i] == b[..i];
    if Earlier(a, b) {
      var i :| 0 <= i < |a| && a[..i] == b[..i] && a[i] < b[i];
      assert v[..i] == w[..i] && v[i] < w[i];
    }
    if Earlier(v, w) {
      var i :| 0 <= i < |v| && v[..i] == w[..i] && v[i] < w[i];
      assert i == |a| || (a[..i] == b[..i] && a[i] < b[i]);
    }
  }

  lemma {:induction false} EqualLengths(v: Way, w: Way)
    requires |v| == |w|
    ensures Rank(v) < Rank(w) <==> Earlier(v, w)
    ensures Rank(v) == Rank(w) <==> v == w
  {
    if v != [] {
      var n := |v| - 1;
      var a: Way, b: Way := v[..n], w[..n];
      hide Earlier;
      EqualLengths(a, b);
      EarlierAppend(a, b, v[n], w[n]);
      assert v == a + [v[n]] && w == b + [w[n]];
    }
  }

  /** Ranks and ways have the same order. */
  lemma RankExactly(v: Way, w: Way)
    ensures Rank(v) < Rank(w) <==> Earlier(v, w)
    ensures Rank(v) == Rank(w) <==> v == w
  {
    if |v| < |w| {
      ShorterFirst(v, w);
    } else if |w| < |v| {
      ShorterFirst(w, v);
    } else {
      EqualLengths(v, w);
    }
  }

  /** A way and one more step. */
  lemma OneMoreStep(valid: Coord -> bool, start: Coord, w: Way, c: Coord, k: nat)
    requires k < 4
    ensures End(start, w + [k]) == Step(End(start, w), k) && Rank(w + [k]) == 5 * Rank(w) + k + 1
    ensures Leads(valid, start, w, c) && valid(Step(c, k)) ==> Leads(valid, start, w + [k], Step(c, k))
    ensures Leads(valid, start, w + [k], c) ==> Leads(valid, start, w, End(start, w)) && valid(c)
  {
    var more: Way := w + [k];
    assert more[..|w|] == w;
    assert forall i :: 0 <= i <= |w| ==> more[..i] == w[..i];
    assert more[..|more|] == more;
  }
}
