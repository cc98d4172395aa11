/** When the order of the markup is kept, exactly: as long as no two evaluations are the same, it is kept
    only if nothing is evaluated before its turn. */
module GuiOrderExact {
  import opened Sequences
  import opened GuiDocument
  import opened GuiExpressions
  import opened GuiMarkup
  import opened GuiOrder

  // ---------------------------------------------------------------- sequences without repetition

  lemma FirstOf<T>(a: seq<T>, b: seq<T>)
    requires a != []
    ensures (a + b)[0] == a[0] && a[0] in a
  {
  }

  /** Two ways of cutting one sequence whose first pieces are equally long. */
  lemma SameCut<T>(a: seq<T>, b: seq<T>, c: seq<T>, d: seq<T>)
    requires a + b == c + d && |a| == |c|
    ensures a == c && b == d
  {
    assert a == (a + b)[..|a|] && c == (c + d)[..|c|];
    assert b == (a + b)[|a|..] && d == (c + d)[|c|..];
  }

  lemma SameMembers<T>(a: seq<T>, b: seq<T>)
    requires multiset(a) == multiset(b)
    ensures |a| == |b| && forall x :: x in a <==> x in b
  {
    assert |multiset(a)| == |a| && |multiset(b)| == |b|;
    assert forall x :: x in a <==> x in multiset(a);
    assert forall x :: x in b <==> x in multiset(b);
  }

  /** A block that holds the members of the first piece is that piece, if nothing is repeated. */
  lemma BlockFirst<T>(front: seq<T>, block: seq<T>, back: seq<T>, first: seq<T>, rest: seq<T>)
    requires front + block + back == first + rest && NoDup(first + rest)
    requires multiset(block) == multiset(first)
    ensures block == first && front + back == rest
  {
    SameMembers(block, first);
    if block == [] {
      assert front + back == front + block + back && first + rest == rest;
    } else {
      assert front + block + back == front + (block + back);
      if front != [] {
        FirstOf(front, block + back);
        FirstOf(first, rest);
        NoDupParts(front, block + back);
        InConcat(block, back, front[0]);
        assert false;
      }
      assert front + (block + back) == block + back;
      SameCut(block, back, first, rest);
      assert front + back == back;
    }
  }

  // ---------------------------------------------------------------- what came before stays together

  /** Whatever is put before or after it, the trace of the builder stays in one piece. */
  ghost predicate Holds(whole: seq<Observation>, block: seq<Observation>) {
    exists front, back :: whole == front + block + back
  }

  lemma HoldsBy(whole: seq<Observation>, front: seq<Observation>, block: seq<Observation>, back: seq<Observation>)
    requires whole == front + block + back
    ensures Holds(whole, block)
  {
  }

  lemma HoldsInside(a: seq<Observation>, b: seq<Observation>, c: seq<Observation>)
    requires Holds(a, b) && Holds(b, c)
    ensures Holds(a, c)
  {
    var f1, k1 :| a == f1 + b + k1;
    var f2, k2 :| b == f2 + c + k2;
    HoldsBy(a, f1 + f2, c, k2 + k1);
  }

  lemma {:induction false} FollowHolds(node: Node, env: Env, host: Host, b: Outcome)
    ensures Holds(Follow(node, env, host, b).trace, b.trace)
    decreases node, 1
  {
    hide PaintElement, Eval, Seen, Holds;
    if node.Element? && node.tag.ForTag? {
      var each := AttributeOr(node.attrs, Each, List([]));
      var all := FollowEach(node.children, ItemName(node.attrs), Eval(each, env, host).AsList(), env, host, b.h);
      assert Follow(node, env, host, b) == FollowFor(node.attrs, node.children, env, host, b);
      HoldsBy(Follow(node, env, host, b).trace, Seen(each, env, host), b.trace, all.trace);
    } else if node.Element? && node.tag.IfTag? {
      var condition := AttributeOr(node.attrs, Condition, Flag(false));
      var branch := if Eval(condition, env, host).AsBool() then FollowAll(node.children, env, host, b) else b;
      if Eval(condition, env, host).AsBool() {
        FollowAllHolds(node.children, env, host, b);
      } else {
        HoldsItself(b.trace);
      }
      var whole := Seen(condition, env, host) + branch.trace;
      assert whole == Seen(condition, env, host) + branch.trace + [];
      HoldsBy(whole, Seen(condition, env, host), branch.trace, []);
      HoldsInside(whole, branch.trace, b.trace);
      assert Follow(node, env, host, b) == FollowIf(node.attrs, node.children, env, host, b);
    } else {
      var d := DrawLeaf(node, env, host, b.h);
      assert b.trace + d.trace == [] + b.trace + d.trace;
      HoldsBy(b.trace + d.trace, [], b.trace, d.trace);
      assert Follow(node, env, host, b) == Outcome(d.h, b.trace + d.trace);
    }
  }

  lemma HoldsItself(s: seq<Observation>)
    ensures Holds(s, s)
  {
    assert s == [] + s + [];
    HoldsBy(s, [], s, []);
  }

  lemma {:induction false} FollowAllHolds(nodes: seq<Node>, env: Env, host: Host, b: Outcome)
    ensures Holds(FollowAll(nodes, env, host, b).trace, b.trace)
    decreases nodes, 0
  {
    hide Follow, Holds;
    if nodes == [] {
      HoldsItself(b.trace);
    } else {
      var next := Follow(nodes[0], env, host, b);
      FollowHolds(nodes[0], env, host, b);
      FollowAllHolds(nodes[1..], env, host, next);
      HoldsInside(FollowAll(nodes, env, host, b).trace, next.trace, b.trace);
    }
  }

  // ---------------------------------------------------------------- the converse

  /** An evaluation put before others, although it comes after them, is put before nothing. */
  lemma NothingBefore(o: Observation, before: seq<Observation>, all: seq<Observation>, rest: seq<Observation>)
    requires NoDup(before + ([o] + rest)) && [o] + all == before + ([o] + rest)
    ensures before == [] && all == rest
  {
    if before != [] {
      FirstOf(before, [o] + rest);
      NoDupParts(before, [o] + rest);
      FirstOf([o], rest);
      assert false;
    }
    assert before + ([o] + rest) == [o] + rest;
    SameCut([o], all, [o], rest);
  }

  /** All evaluations are different ones. */
  ghost predicate Distinct(b: Outcome, d: Outcome) {
    NoDup(b.trace + d.trace)
  }

  lemma {:induction false} OrderForced(node: Node, env: Env, host: Host, b: Outcome)
    requires Distinct(b, Draw(node, env, host, b.h))
    requires Continues(Follow(node, env, host, b), b, Draw(node, env, host, b.h))
    ensures InOrder(node, env, host, b)
    decreases node, 1
  {
    hide PaintElement, Eval;
    if node.Element? && node.tag.ForTag? {
      ForForced(node.attrs, node.children, env, host, b);
    } else if node.Element? && node.tag.IfTag? {
      IfForced(node.attrs, node.children, env, host, b);
    }
  }

  lemma {:induction false} ForForced(attrs: seq<Attr>, children: seq<Node>, env: Env, host: Host, b: Outcome)
    requires Distinct(b, DrawFor(attrs, children, env, host, b.h))
    requires Continues(FollowFor(attrs, children, env, host, b), b, DrawFor(attrs, children, env, host, b.h))
    ensures var each := AttributeOr(attrs, Each, List([]));
            && (each.Lit? || b.trace == [])
            && EachInOrder(children, ItemName(attrs), Eval(each, env, host).AsList(), env, host, b.h)
    decreases children, 3
  {
    hide Eval, FollowEach, DrawEach, EachInOrder;
    var each := AttributeOr(attrs, Each, List([]));
    var item, xs := ItemName(attrs), Eval(each, env, host).AsList();
    var r := FollowEach(children, item, xs, env, host, b.h).trace;
    var d := DrawEach(children, item, xs, env, host, b.h).trace;
    if each.Lit? {
      assert [] + b.trace + r == b.trace + r && b.trace + ([] + d) == b.trace + d;
      SameCut(b.trace, r, b.trace, d);
    } else {
      var o := Observation(each, Eval(each, env, host));
      assert [o] + b.trace + r == [o] + (b.trace + r);
      NothingBefore(o, b.trace, b.trace + r, d);
      assert [] + r == r && [] + ([o] + d) == [o] + d;
      NoDupParts([o], d);
    }
    NoDupParts(b.trace, Seen(each, env, host) + d);
    NoDupParts(Seen(each, env, host), d);
    EachOrderForced(children, item, xs, env, host, b.h);
  }

  lemma {:induction false} IfForced(attrs: seq<Attr>, children: seq<Node>, env: Env, host: Host, b: Outcome)
    requires Distinct(b, DrawIf(attrs, children, env, host, b.h))
    requires Continues(FollowIf(attrs, children, env, host, b), b, DrawIf(attrs, children, env, host, b.h))
    ensures var condition := AttributeOr(attrs, Condition, Flag(false));
            && (condition.Lit? || b.trace == [])
            && (Eval(condition, env, host).AsBool() ==> AllInOrder(children, env, host, b))
    decreases children, 3
  {
    hide Eval, FollowAll, DrawAll, AllInOrder;
    var condition := AttributeOr(attrs, Condition, Flag(false));
    var taken := Eval(condition, env, host).AsBool();
    var r := if taken then FollowAll(children, env, host, b).trace else b.trace;
    var d := if taken then DrawAll(children, env, host, b.h).trace else [];
    assert Seen(condition, env, host) + [] == Seen(condition, env, host);
    assert DrawIf(attrs, children, env, host, b.h).trace == Seen(condition, env, host) + d;
    assert FollowIf(attrs, children, env, host, b).trace == Seen(condition, env, host) + r;
    if condition.Lit? {
      assert [] + r == r && [] + d == d;
    } else {
      var o := Observation(condition, Eval(condition, env, host));
      NothingBefore(o, b.trace, r, d);
      assert [] + ([o] + d) == [o] + d;
      NoDupParts([o], d);
      assert b.trace + d == d;
    }
    if taken {
      AllOrderForced(children, env, host, b);
    }
  }

  lemma {:induction false} AllOrderForced(nodes: seq<Node>, env: Env, host: Host, b: Outcome)
    requires Distinct(b, DrawAll(nodes, env, host, b.h))
    requires Continues(FollowAll(nodes, env, host, b), b, DrawAll(nodes, env, host, b.h))
    ensures AllInOrder(nodes, env, host, b)
    decreases nodes, 0
  {
    hide Follow, Draw, InOrder;
    if nodes != [] {
      var next, d0 := Follow(nodes[0], env, host, b), Draw(nodes[0], env, host, b.h);
      var r, d1 := FollowAll(nodes[1..], env, host, next), DrawAll(nodes[1..], env, host, next.h);
      FollowDraws(nodes[0], env, host, b);
      FollowAllHolds(nodes[1..], env, host, next);
      var front, back :| r.trace == front + next.trace + back;
      ConcatAssociates(b.trace, d0.trace, d1.trace);
      Together(b.trace, d0.trace);
      BlockFirst(front, next.trace, back, b.trace + d0.trace, d1.trace);
      NoDupParts(b.trace + d0.trace, d1.trace);
      OrderForced(nodes[0], env, host, b);
      AllOrderForced(nodes[1..], env, host, next);
    }
  }

  lemma Together<T>(a: seq<T>, b: seq<T>)
    ensures multiset(a + b) == multiset(a) + multiset(b)
  {
  }

  lemma {:induction false} EachOrderForced(nodes: seq<Node>, item: string, xs: seq<Value>, env: Env,
                                           host: Host, h: Horb)
    requires NoDup(DrawEach(nodes, item, xs, env, host, h).trace)
    requires FollowEach(nodes, item, xs, env, host, h).trace == DrawEach(nodes, item, xs, env, host, h).trace
    ensures EachInOrder(nodes, item, xs, env, host, h)
    decreases nodes, 1, |xs|
  {
    hide FollowAll, DrawAll, AllInOrder;
    if xs != [] {
      var start, inner := Outcome(h, []), env[item := xs[0]];
      var r0, d0 := FollowAll(nodes, inner, host, start), DrawAll(nodes, inner, host, h);
      var r1, d1 := FollowEach(nodes, item, xs[1..], env, host, r0.h), DrawEach(nodes, item, xs[1..], env, host, d0.h);
      FollowAllDraws(nodes, inner, host, start);
      assert [] + d0.trace == d0.trace;
      SameMembers(r0.trace, d0.trace);
      SameCut(r0.trace, r1.trace, d0.trace, d1.trace);
      NoDupParts(d0.trace, d1.trace);
      AllOrderForced(nodes, inner, host, start);
      EachOrderForced(nodes, item, xs[1..], env, host, d0.h);
    }
  }

  /** The order of the markup is kept if and only if every condition and every list of a loop that is not
      a literal comes before all other evaluations, at whatever depth. */
  lemma OrderExactly(nodes: seq<Node>, env: Env, host: Host, b: Outcome)
    requires Distinct(b, DrawAll(nodes, env, host, b.h))
    ensures Continues(FollowAll(nodes, env, host, b), b, DrawAll(nodes, env, host, b.h))
       <==> AllInOrder(nodes, env, host, b)
  {
    if AllInOrder(nodes, env, host, b) {
      AllOrderKept(nodes, env, host, b);
    } else if Continues(FollowAll(nodes, env, host, b), b, DrawAll(nodes, env, host, b.h)) {
      AllOrderForced(nodes, env, host, b);
    }
  }

  /** A list or a condition that is not a literal. */
  predicate Controls(node: Node) {
    && node.Element?
    && ((node.tag.ForTag? && !AttributeOr(node.attrs, Each, List([])).Lit?)
        || (node.tag.IfTag? && !AttributeOr(node.attrs, Condition, Flag(false)).Lit?))
  }

  /** So each of them that comes after an evaluation changes the order, whatever stands inside. */
  lemma ControlJumpsAhead(node: Node, env: Env, host: Host, b: Outcome)
    requires Controls(node) && b.trace != [] && Distinct(b, Draw(node, env, host, b.h))
    ensures !Continues(Follow(node, env, host, b), b, Draw(node, env, host, b.h))
  {
    hide Draw, Follow, Distinct, Continues;
    assert !InOrder(node, env, host, b);
    if Continues(Follow(node, env, host, b), b, Draw(node, env, host, b.h)) {
      OrderForced(node, env, host, b);
    }
  }
}
