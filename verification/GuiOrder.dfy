/** The order in which a generated expression evaluates attributes: what a loop runs over, and what a
    condition says, comes before everything the window was built from so far. */
module GuiOrder {
  import opened Sequences
  import opened GuiDocument
  import opened GuiExpressions
  import opened GuiMarkup
  import opened GuiNames

  // ---------------------------------------------------------------- the order

  /** `b` is the window so far and the evaluations behind it. */
  function FollowIf(attrs: seq<Attr>, children: seq<Node>, env: Env, host: Host, b: Outcome): Outcome
    decreases children, 2
  {
    var condition := AttributeOr(attrs, Condition, Flag(false));
    var branch := if Eval(condition, env, host).AsBool() then FollowAll(children, env, host, b) else b;
    Outcome(branch.h, Seen(condition, env, host) + branch.trace)
  }

  function FollowFor(attrs: seq<Attr>, children: seq<Node>, env: Env, host: Host, b: Outcome): Outcome
    decreases children, 2
  {
    var each := AttributeOr(attrs, Each, List([]));
    var all := FollowEach(children, ItemName(attrs), Eval(each, env, host).AsList(), env, host, b.h);
    Outcome(all.h, Seen(each, env, host) + b.trace + all.trace)
  }

  function Follow(node: Node, env: Env, host: Host, b: Outcome): Outcome
    decreases node, 3
  {
    if node.Element? && node.tag.ForTag? then FollowFor(node.attrs, node.children, env, host, b)
    else if node.Element? && node.tag.IfTag? then FollowIf(node.attrs, node.children, env, host, b)
    else
      var d := DrawLeaf(node, env, host, b.h);
      Outcome(d.h, b.trace + d.trace)
  }

  function FollowAll(nodes: seq<Node>, env: Env, host: Host, b: Outcome): Outcome
    decreases nodes, 0
  {
    if nodes == [] then b else FollowAll(nodes[1..], env, host, Follow(nodes[0], env, host, b))
  }

  /** Each round of a loop starts from the window alone. */
  function FollowEach(nodes: seq<Node>, item: string, xs: seq<Value>, env: Env, host: Host, h: Horb): Outcome
    decreases nodes, 1, |xs|
  {
    if xs == [] then Outcome(h, [])
    else
      var first := FollowAll(nodes, env[item := xs[0]], host, Outcome(h, []));
      var rest := FollowEach(nodes, item, xs[1..], env, host, first.h);
      Outcome(rest.h, first.trace + rest.trace)
  }

  function FollowWindow(attrs: seq<Attr>, children: seq<Node>, env: Env, host: Host): Outcome {
    var title, style := AttributeOr(attrs, Title, Str("")), Attribute(attrs, Style);
    var blank := NewHorb(Show(Eval(title, env, host)));
    var start := if style.None? then blank else blank.(css := Show(Eval(style.value, env, host)));
    FollowAll(children, env, host,
              Outcome(start, Seen(title, env, host) + if style.None? then [] else Seen(style.value, env, host)))
  }

  // ---------------------------------------------------------------- names

  lemma {:induction false} FollowSame(node: Node, env: Env, env': Env, name: string, host: Host, b: Outcome)
    requires NodeAvoids(node, name) && AgreeExcept(env, env', name)
    ensures Follow(node, env, host, b) == Follow(node, env', host, b)
    decreases node, 3
  {
    hide PaintElement;
    if node.Element? && node.tag.ForTag? {
      var each := AttributeOr(node.attrs, Each, List([]));
      AttributeSame(node.attrs, Each, List([]), env, env', name, host);
      FollowEachSame(node.children, ItemName(node.attrs), Eval(each, env, host).AsList(), env, env', name, host, b.h);
    } else if node.Element? && node.tag.IfTag? {
      AttributeSame(node.attrs, Condition, Flag(false), env, env', name, host);
      FollowAllSame(node.children, env, env', name, host, b);
    } else {
      DrawSame(node, env, env', name, host, b.h);
    }
  }

  /** A name that the nodes do not use makes no difference, to the order either. */
  lemma {:induction false} FollowAllSame(nodes: seq<Node>, env: Env, env': Env, name: string, host: Host, b: Outcome)
    requires NodesAvoid(nodes, name) && AgreeExcept(env, env', name)
    ensures FollowAll(nodes, env, host, b) == FollowAll(nodes, env', host, b)
    decreases nodes, 0
  {
    if nodes != [] {
      FollowSame(nodes[0], env, env', name, host, b);
      FollowAllSame(nodes[1..], env, env', name, host, Follow(nodes[0], env, host, b));
    }
  }

  lemma {:induction false} FollowEachSame(nodes: seq<Node>, item: string, xs: seq<Value>, env: Env, env': Env,
                                          name: string, host: Host, h: Horb)
    requires NodesAvoid(nodes, name) && AgreeExcept(env, env', name)
    ensures FollowEach(nodes, item, xs, env, host, h) == FollowEach(nodes, item, xs, env', host, h)
    decreases nodes, 1, |xs|
  {
    if xs != [] {
      var start := Outcome(h, []);
      FollowAllSame(nodes, env[item := xs[0]], env'[item := xs[0]], name, host, start);
      FollowEachSame(nodes, item, xs[1..], env, env', name, host, FollowAll(nodes, env[item := xs[0]], host, start).h);
    }
  }

  // ---------------------------------------------------------------- the same window, the same evaluations

  /** Same window, and the same evaluations the same number of times. */
  ghost predicate Means(r: Outcome, base: Outcome, d: Outcome) {
    r.h == d.h && multiset(r.trace) == multiset(base.trace) + multiset(d.trace)
  }

  lemma {:induction false} FollowDraws(node: Node, env: Env, host: Host, b: Outcome)
    ensures Means(Follow(node, env, host, b), b, Draw(node, env, host, b.h))
    decreases node, 3
  {
    hide PaintElement, FollowAll, FollowEach, DrawAll, DrawEach, Seen, Eval, AttributeOr, ItemName;
    if node.Element? && node.tag.ForTag? {
      var each := AttributeOr(node.attrs, Each, List([]));
      var item, xs := ItemName(node.attrs), Eval(each, env, host).AsList();
      FollowEachDraws(node.children, item, xs, env, host, b.h);
      Moved(Seen(each, env, host), b.trace, FollowEach(node.children, item, xs, env, host, b.h).trace,
            DrawEach(node.children, item, xs, env, host, b.h).trace);
    } else if node.Element? && node.tag.IfTag? {
      var condition := AttributeOr(node.attrs, Condition, Flag(false));
      FollowAllDraws(node.children, env, host, b);
      MovedAll(Seen(condition, env, host), b.trace, FollowAll(node.children, env, host, b).trace,
               DrawAll(node.children, env, host, b.h).trace);
    }
  }

  lemma Moved<T>(a: seq<T>, b: seq<T>, c: seq<T>, d: seq<T>)
    requires multiset(c) == multiset(d)
    ensures multiset(a + b + c) == multiset(b) + multiset(a + d)
  {
  }

  lemma MovedAll<T>(a: seq<T>, b: seq<T>, c: seq<T>, d: seq<T>)
    requires multiset(c) == multiset(b) + multiset(d)
    ensures multiset(a + c) == multiset(b) + multiset(a + d)
    ensures multiset(a + b) == multiset(b) + multiset(a)
  {
  }

  lemma {:induction false} FollowAllDraws(nodes: seq<Node>, env: Env, host: Host, b: Outcome)
    ensures Means(FollowAll(nodes, env, host, b), b, DrawAll(nodes, env, host, b.h))
    decreases nodes, 0
  {
    if nodes != [] {
      FollowDraws(nodes[0], env, host, b);
      FollowAllDraws(nodes[1..], env, host, Follow(nodes[0], env, host, b));
    }
  }

  lemma {:induction false} FollowEachDraws(nodes: seq<Node>, item: string, xs: seq<Value>, env: Env,
                                           host: Host, h: Horb)
    ensures Means(FollowEach(nodes, item, xs, env, host, h), Outcome(h, []), DrawEach(nodes, item, xs, env, host, h))
    decreases nodes, 1, |xs|
  {
    if xs != [] {
      FollowAllDraws(nodes, env[item := xs[0]], host, Outcome(h, []));
      FollowEachDraws(nodes, item, xs[1..], env, host, DrawAll(nodes, env[item := xs[0]], host, h).h);
    }
  }

  // ---------------------------------------------------------------- when order is kept

  /** Nothing is evaluated before its turn: what a loop runs over, and what a condition says, is a literal
      or follows no evaluation. */
  ghost predicate InOrder(node: Node, env: Env, host: Host, b: Outcome)
    decreases node, 3
  {
    if node.Element? && node.tag.ForTag? then
      var each := AttributeOr(node.attrs, Each, List([]));
      && (each.Lit? || b.trace == [])
      && EachInOrder(node.children, ItemName(node.attrs), Eval(each, env, host).AsList(), env, host, b.h)
    else if node.Element? && node.tag.IfTag? then
      var condition := AttributeOr(node.attrs, Condition, Flag(false));
      && (condition.Lit? || b.trace == [])
      && (Eval(condition, env, host).AsBool() ==> AllInOrder(node.children, env, host, b))
    else true
  }

  ghost predicate AllInOrder(nodes: seq<Node>, env: Env, host: Host, b: Outcome)
    decreases nodes, 0
  {
    nodes == []
    || (InOrder(nodes[0], env, host, b) && AllInOrder(nodes[1..], env, host, Follow(nodes[0], env, host, b)))
  }

  ghost predicate EachInOrder(nodes: seq<Node>, item: string, xs: seq<Value>, env: Env, host: Host, h: Horb)
    decreases nodes, 1, |xs|
  {
    xs == []
    || (var start := Outcome(h, []);
        && AllInOrder(nodes, env[item := xs[0]], host, start)
        && EachInOrder(nodes, item, xs[1..], env, host, FollowAll(nodes, env[item := xs[0]], host, start).h))
  }

  /** Same window, and the same evaluations in the order of the markup. */
  ghost predicate Continues(r: Outcome, base: Outcome, d: Outcome) {
    r == Outcome(d.h, base.trace + d.trace)
  }

  lemma {:induction false} OrderKept(node: Node, env: Env, host: Host, b: Outcome)
    requires InOrder(node, env, host, b)
    ensures Continues(Follow(node, env, host, b), b, Draw(node, env, host, b.h))
    decreases node, 3
  {
    hide PaintElement;
    if node.Element? && node.tag.ForTag? {
      var each := AttributeOr(node.attrs, Each, List([]));
      var xs, item := Eval(each, env, host).AsList(), ItemName(node.attrs);
      EachOrderKept(node.children, item, xs, env, host, b.h);
      Early(Seen(each, env, host), b.trace, DrawEach(node.children, item, xs, env, host, b.h).trace);
    } else if node.Element? && node.tag.IfTag? {
      var condition := AttributeOr(node.attrs, Condition, Flag(false));
      if Eval(condition, env, host).AsBool() {
        AllOrderKept(node.children, env, host, b);
        Early(Seen(condition, env, host), b.trace, DrawAll(node.children, env, host, b.h).trace);
      } else {
        Early(Seen(condition, env, host), b.trace, []);
      }
    }
  }

  /** Putting one evaluation before others that there are none of. */
  lemma Early<T>(a: seq<T>, b: seq<T>, c: seq<T>)
    requires a == [] || b == []
    ensures a + (b + c) == b + (a + c) && a + b + c == b + (a + c) && a + b == b + a
  {
  }

  lemma {:induction false} AllOrderKept(nodes: seq<Node>, env: Env, host: Host, b: Outcome)
    requires AllInOrder(nodes, env, host, b)
    ensures Continues(FollowAll(nodes, env, host, b), b, DrawAll(nodes, env, host, b.h))
    decreases nodes, 0
  {
    if nodes == [] {
      assert b.trace + [] == b.trace;
    } else {
      var next := Follow(nodes[0], env, host, b);
      OrderKept(nodes[0], env, host, b);
      AllOrderKept(nodes[1..], env, host, next);
      ConcatAssociates(b.trace, Draw(nodes[0], env, host, b.h).trace, DrawAll(nodes[1..], env, host, next.h).trace);
    }
  }

  lemma {:induction false} EachOrderKept(nodes: seq<Node>, item: string, xs: seq<Value>, env: Env, host: Host, h: Horb)
    requires EachInOrder(nodes, item, xs, env, host, h)
    ensures FollowEach(nodes, item, xs, env, host, h) == DrawEach(nodes, item, xs, env, host, h)
    decreases nodes, 1, |xs|
  {
    if xs != [] {
      var start := Outcome(h, []);
      AllOrderKept(nodes, env[item := xs[0]], host, start);
      var d := DrawAll(nodes, env[item := xs[0]], host, h);
      assert [] + d.trace == d.trace;
      EachOrderKept(nodes, item, xs[1..], env, host, d.h);
    }
  }

  /** Loops over literals, and conditions that are literals. */
  predicate LiteralControl(node: Node)
    decreases node, 1
  {
    match node
    case Element(ForTag, attrs, children) => AttributeOr(attrs, Each, List([])).Lit? && LiteralControls(children)
    case Element(IfTag, attrs, children) => AttributeOr(attrs, Condition, Flag(false)).Lit? && LiteralControls(children)
    case _ => true
  }

  predicate LiteralControls(nodes: seq<Node>)
    decreases nodes, 0
  {
    nodes == [] || (LiteralControl(nodes[0]) && LiteralControls(nodes[1..]))
  }

  /** Such a tree is in order whatever stands before it and around it. */
  lemma {:induction false} LiteralInOrder(node: Node, env: Env, host: Host, b: Outcome)
    requires LiteralControl(node)
    ensures InOrder(node, env, host, b)
    decreases node, 3
  {
    if node.Element? && node.tag.ForTag? {
      var each := AttributeOr(node.attrs, Each, List([]));
      LiteralEachInOrder(node.children, ItemName(node.attrs), Eval(each, env, host).AsList(), env, host, b.h);
    } else if node.Element? && node.tag.IfTag? {
      LiteralAllInOrder(node.children, env, host, b);
    }
  }

  lemma {:induction false} LiteralAllInOrder(nodes: seq<Node>, env: Env, host: Host, b: Outcome)
    requires LiteralControls(nodes)
    ensures AllInOrder(nodes, env, host, b)
    decreases nodes, 0
  {
    if nodes != [] {
      LiteralInOrder(nodes[0], env, host, b);
      LiteralAllInOrder(nodes[1..], env, host, Follow(nodes[0], env, host, b));
    }
  }

  lemma {:induction false} LiteralEachInOrder(nodes: seq<Node>, item: string, xs: seq<Value>, env: Env,
                                              host: Host, h: Horb)
    requires LiteralControls(nodes)
    ensures EachInOrder(nodes, item, xs, env, host, h)
    decreases nodes, 1, |xs|
  {
    if xs != [] {
      var start := Outcome(h, []);
      LiteralAllInOrder(nodes, env[item := xs[0]], host, start);
      LiteralEachInOrder(nodes, item, xs[1..], env, host, FollowAll(nodes, env[item := xs[0]], host, start).h);
    }
  }

  /** An `<if>` without children after other evaluations, repeated ones too: the order is the markup's if
      and only if all of them are the evaluation of the condition. */
  lemma JumpsAhead(attrs: seq<Attr>, env: Env, host: Host, b: Outcome)
    requires !AttributeOr(attrs, Condition, Flag(false)).Lit?
    ensures Continues(FollowIf(attrs, [], env, host, b), b, DrawIf(attrs, [], env, host, b.h))
       <==> forall i :: 0 <= i < |b.trace| ==>
              b.trace[i] == Seen(AttributeOr(attrs, Condition, Flag(false)), env, host)[0]
  {
    var o := Seen(AttributeOr(attrs, Condition, Flag(false)), env, host)[0];
    assert [o] + [] == [o];
    Rotates(o, b.trace);
  }

  lemma {:induction false} Rotates<T>(o: T, s: seq<T>)
    ensures [o] + s == s + [o] <==> forall i :: 0 <= i < |s| ==> s[i] == o
  {
    if s != [] {
      Rotates(o, s[1..]);
      var t := s[1..];
      assert [o] + s == [o] + ([s[0]] + t) && s + [o] == [s[0]] + (t + [o]);
      assert ([o] + s)[0] == o && (s + [o])[0] == s[0];
      assert s[0] == o ==> [o] + s == [o] + ([o] + t);
      assert ([o] + ([o] + t))[1..] == [o] + t && ([o] + (t + [o]))[1..] == t + [o];
      forall i | 0 <= i < |t|
        ensures t[i] == s[i + 1]
      {
      }
    }
  }
}
