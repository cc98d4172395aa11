/** Facts about sequences without repetition that several components share. */
module Sequences {

  predicate NoDup<T(==)>(s: seq<T>) {
    forall i, j :: 0 <= i < j < |s| ==> s[i] != s[j]
  }

  /** Pigeonhole: a list without repetition is no longer than a set that holds it. */
  lemma {:induction false} NoDupFits<T>(s: seq<T>, S: set<T>)
    requires NoDup(s)
    requires forall x :: x in s ==> x in S
    ensures |s| <= |S|
  {
    if s == [] {
    } else {
      var x := s[|s| - 1];
      var rest := s[..|s| - 1];
      forall y | y in rest
        ensures y in S - {x}
      {
        assert y in s;
      }
      assert x in s;
      NoDupFits(rest, S - {x});
    }
  }

  /** A set whose elements all occur in a sequence is no larger than it. */
  lemma {:induction false} SetFits<T>(S: set<T>, s: seq<T>)
    requires forall x :: x in S ==> x in s
    ensures |S| <= |s|
  {
    if s == [] {
      assert S == {};
    } else {
      SetFits(S - {s[0]}, s[1..]);
    }
  }

  /** The first n natural numbers, as a set. */
  function Below(n: nat): (S: set<nat>)
    ensures forall i: nat :: i in S <==> i < n
    ensures |S| == n
  {
    if n == 0 then {} else Below(n - 1) + {n - 1}
  }

  lemma NoDupAppend<T>(s: seq<T>, x: T)
    requires NoDup(s) && x !in s
    ensures NoDup(s + [x])
  {
    forall i, j | 0 <= i < j < |s + [x]|
      ensures (s + [x])[i] != (s + [x])[j]
    {
      assert s[i] in s;
    }
  }

  /** What has no repetition has none in its parts, and none between them. */
  lemma NoDupParts<T>(a: seq<T>, b: seq<T>)
    requires NoDup(a + b)
    ensures NoDup(a) && NoDup(b)
    ensures forall x :: x in a ==> x !in b
  {
    assert forall i :: 0 <= i < |a| ==> (a + b)[i] == a[i];
    assert forall i :: 0 <= i < |b| ==> (a + b)[|a| + i] == b[i];
  }

  /** A slice of a slice. */
  lemma SliceOfSlice<T>(s: seq<T>, lo: nat, hi: nat, i: nat, j: nat)
    requires i <= j && lo + j <= hi <= |s|
    ensures s[lo..hi][i..j] == s[lo + i..lo + j]
  {
    forall k | 0 <= k < j - i
      ensures s[lo..hi][i..j][k] == s[lo + i..lo + j][k]
    {
      assert s[lo..hi][i + k] == s[lo + i + k];
    }
  }

  lemma ConcatAssociates<T>(a: seq<T>, b: seq<T>, c: seq<T>)
    ensures a + b + c == a + (b + c)
  {
  }

  /** Cutting a sequence beyond its head is cutting its tail. */
  lemma CutTail<T>(s: seq<T>, k: nat)
    requires k < |s|
    ensures s[..k + 1] == [s[0]] + s[1..][..k] && s[k + 1..] == s[1..][k..]
    ensures s[..0] == [] && s[0..] == s && s == [s[0]] + s[1..]
  {
  }

  lemma InConcat<T>(a: seq<T>, b: seq<T>, x: T)
    ensures x in a + b <==> x in a || x in b
  {
  }
}
