/** Sums over the rows of a table. */
module Totals {

  ghost function Some<T>(s: set<T>): (x: T)
    requires s != {}
    ensures x in s
  {
    var x :| x in s;
    x
  }

  ghost function Sum(m: map<int, int>): int {
    if m.Keys == {} then 0
    else
      var k := Some(m.Keys);
      m[k] + Sum(m - {k})
  }

  /** Any row may be taken out first. */
  lemma {:induction false} SumWithout(m: map<int, int>, k: int)
    requires k in m
    ensures Sum(m) == m[k] + Sum(m - {k})
    decreases |m|
  {
    var j := Some(m.Keys);
    if j != k {
      var rest := m - {j};
      assert |rest| < |m|;
      SumWithout(rest, k);
      var other := m - {k};
      assert other - {j} == rest - {k};
      assert |other| < |m|;
      SumWithout(other, j);
    }
  }

  function At(m: map<int, int>, k: int): int {
    if k in m then m[k] else 0
  }

  /** Changing one row changes the sum by as much. */
  lemma SumUpdate(m: map<int, int>, k: int, v: int)
    ensures Sum(m[k := v]) == Sum(m) - At(m, k) + v
  {
    var n := m[k := v];
    SumWithout(n, k);
    assert n - {k} == m - {k};
    if k in m {
      SumWithout(m, k);
    } else {
      assert m - {k} == m;
    }
  }

  lemma SumRemove(m: map<int, int>, k: int)
    ensures Sum(m - {k}) == Sum(m) - At(m, k)
  {
    if k in m {
      SumWithout(m, k);
    } else {
      assert m - {k} == m;
    }
  }

  /** The sum of what is not negative is not negative, and no more than nothing only if all is nothing. */
  lemma {:induction false} SumOfNats(m: map<int, int>)
    requires forall k :: k in m ==> m[k] >= 0
    ensures Sum(m) >= 0
    ensures Sum(m) == 0 ==> forall k :: k in m ==> m[k] == 0
    decreases |m|
  {
    if m.Keys != {} {
      var k := Some(m.Keys);
      assert |m - {k}| < |m|;
      SumOfNats(m - {k});
      SumWithout(m, k);
      forall j | j in m && Sum(m) == 0
        ensures m[j] == 0
      {
        assert j == k || j in m - {k};
      }
    }
  }

  lemma {:induction false} SumOfZeros(m: map<int, int>)
    requires forall k :: k in m ==> m[k] == 0
    ensures Sum(m) == 0
    decreases |m|
  {
    if m.Keys != {} {
      var k := Some(m.Keys);
      assert |m - {k}| < |m|;
      SumOfZeros(m - {k});
      SumWithout(m, k);
    }
  }
}
