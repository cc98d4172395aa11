/** The macro preserves meaning: the expression it writes builds the window the markup says, and
    evaluates every attribute as often as the markup says. */
module GuiCorrectness {
  import opened Wrappers
  import opened GuiDocument
  import opened GuiExpressions
  import opened GuiMarkup
  import opened GuiCompiler
  import opened GuiNames
  import opened GuiOrder
  import opened GuiOrderExact
  import opened Sequences

  // ---------------------------------------------------------------- chains of calls

  function Calls(calls: seq<Call>, env: Env, host: Host, h: Horb): Outcome {
    if calls == [] then Outcome(h, [])
    else
      var rest := Calls(calls[1..], env, host, Invoke(calls[0], env, host, h));
      Outcome(rest.h, CallSeen(calls[0], env, host) + rest.trace)
  }

  lemma {:induction false} RunChain(builder: Target, calls: seq<Call>, env: Env, host: Host)
    ensures var b := Run(builder, env, host);
            var c := Calls(calls, env, host, b.h);
            Run(Chain(builder, calls), env, host) == Outcome(c.h, b.trace + c.trace)
    decreases calls
  {
    hide Invoke, CallSeen;
    var b := Run(builder, env, host);
    if calls == [] {
      assert b.trace + [] == b.trace;
    } else {
      RunChain(Method(builder, calls[0]), calls[1..], env, host);
      var rest := Calls(calls[1..], env, host, Invoke(calls[0], env, host, b.h));
      var seen := CallSeen(calls[0], env, host);
      assert b.trace + (seen + rest.trace) == b.trace + seen + rest.trace;
    }
  }

  lemma {:induction false} CallsConcat(a: seq<Call>, b: seq<Call>, env: Env, host: Host, h: Horb)
    ensures var first := Calls(a, env, host, h);
            var second := Calls(b, env, host, first.h);
            Calls(a + b, env, host, h) == Outcome(second.h, first.trace + second.trace)
    decreases a
  {
    hide Invoke, CallSeen;
    if a == [] {
      assert a + b == b;
      assert [] + Calls(b, env, host, h).trace == Calls(b, env, host, h).trace;
    } else {
      assert (a + b)[1..] == a[1..] + b;
      var h1 := Invoke(a[0], env, host, h);
      CallsConcat(a[1..], b, env, host, h1);
      var first := Calls(a[1..], env, host, h1);
      var second := Calls(b, env, host, first.h);
      assert CallSeen(a[0], env, host) + (first.trace + second.trace)
          == CallSeen(a[0], env, host) + first.trace + second.trace;
    }
  }

  lemma CallsOne(c: Call, env: Env, host: Host, h: Horb)
    ensures Calls([c], env, host, h) == Outcome(Invoke(c, env, host, h), CallSeen(c, env, host))
  {
    assert [c][1..] == [];
    assert CallSeen(c, env, host) + [] == CallSeen(c, env, host);
  }

  /** The calls are one call, and it does what the outcome says. */
  ghost predicate OneCall(calls: seq<Call>, env: Env, host: Host, h: Horb, o: Outcome) {
    |calls| == 1 && Outcome(Invoke(calls[0], env, host, h), CallSeen(calls[0], env, host)) == o
  }

  // ---------------------------------------------------------------- dropdown options

  lemma {:induction false} LiteralSeen(es: seq<Expr>, env: Env, host: Host)
    requires forall i :: 0 <= i < |es| ==> es[i].Lit?
    ensures SeenAll(es, env, host) == []
  {
    if es != [] {
      LiteralSeen(es[1..], env, host);
    }
  }

  /** Printing literal options at compile time gives the string `format!` would give at run time,
      and evaluates as little. */
  lemma {:induction false} PrintedOptions(pairs: seq<(Expr, Expr)>, env: Env, host: Host)
    requires AllLiteral(pairs)
    ensures JoinLiterals(pairs) + (if pairs == [] then "" else "#") == PairsText(pairs, env, host)
    ensures pairs != [] ==> JoinLiterals(pairs) != ""
    ensures PairsSeen(pairs, env, host) == []
  {
    if pairs != [] {
      var first := LiteralText(pairs[0].0).value + ":" + LiteralText(pairs[0].1).value;
      PrintedOptions(pairs[1..], env, host);
      LiteralSeen([pairs[0].0, pairs[0].1], env, host);
      if |pairs| > 1 {
        assert first + "#" + JoinLiterals(pairs[1..]) + "#" == first + "#" + (JoinLiterals(pairs[1..]) + "#");
      } else {
        assert PairsText(pairs[1..], env, host) == "";
      }
    }
  }

  /** Whichever way the macro chose, the dropdown gets the same options and evaluations. */
  lemma OptionsMean(pairs: seq<(Expr, Expr)>, env: Env, host: Host)
    ensures OptionsString(ExpandOptions(pairs), env, host) == PairsText(pairs, env, host)
    ensures (if ExpandOptions(pairs).FormatPairs? then PairsSeen(pairs, env, host) else [])
         == PairsSeen(pairs, env, host)
  {
    if AllLiteral(pairs) {
      PrintedOptions(pairs, env, host);
    }
  }

  lemma {:induction false} OptionPairsMean(children: seq<Node>, env: Env, host: Host)
    requires OptionPairs(children).Success?
    ensures PairsText(OptionPairs(children).value, env, host) == OptionsText(children, env, host)
    ensures PairsSeen(OptionPairs(children).value, env, host) == OptionsSeen(children, env, host)
  {
    if children != [] {
      OptionPairsMean(children[1..], env, host);
      if children[0].Element? {
        var pairs := OptionPairs(children).value;
        assert pairs[1..] == OptionPairs(children[1..]).value;
      }
    }
  }

  // ---------------------------------------------------------------- leaf elements

  lemma TextRowMeans(node: Node, env: Env, host: Host, h: Horb)
    requires node.Element? && node.tag == TextRowTag && ExpandFormRow(node).Success?
    ensures OneCall(ExpandFormRow(node).value, env, host, h, PaintFormRow(node, env, host, h))
  {
  }

  lemma ToggleRowMeans(node: Node, env: Env, host: Host, h: Horb)
    requires node.Element? && node.tag == ToggleRowTag && ExpandFormRow(node).Success?
    ensures OneCall(ExpandFormRow(node).value, env, host, h, PaintFormRow(node, env, host, h))
  {
    hide Eval, EvalAll, Show, SeenAll;
  }

  lemma UintRowMeans(node: Node, env: Env, host: Host, h: Horb)
    requires node.Element? && node.tag == UintRowTag && ExpandFormRow(node).Success?
    ensures OneCall(ExpandFormRow(node).value, env, host, h, PaintFormRow(node, env, host, h))
  {
    hide Eval, EvalAll, Show, SeenAll;
  }

  lemma ButtonRowMeans(node: Node, env: Env, host: Host, h: Horb)
    requires node.Element? && node.tag == ButtonRowTag && ExpandFormRow(node).Success?
    ensures OneCall(ExpandFormRow(node).value, env, host, h, PaintFormRow(node, env, host, h))
  {
    hide Eval, EvalAll, Show, SeenAll, Check, CheckLeaf;
  }

  lemma PlainRowMeans(node: Node, env: Env, host: Host, h: Horb)
    requires node.Element? && !node.tag.DropdownRowTag? && ExpandFormRow(node).Success?
    ensures OneCall(ExpandFormRow(node).value, env, host, h, PaintFormRow(node, env, host, h))
  {
    match node.tag
    case TextRowTag => TextRowMeans(node, env, host, h);
    case ToggleRowTag => ToggleRowMeans(node, env, host, h);
    case UintRowTag => UintRowMeans(node, env, host, h);
    case ButtonRowTag => ButtonRowMeans(node, env, host, h);
  }

  lemma DropdownMeans(node: Node, env: Env, host: Host, h: Horb)
    requires node.Element? && node.tag.DropdownRowTag? && ExpandDropdownRow(node).Success?
    ensures OneCall(ExpandDropdownRow(node).value, env, host, h, PaintFormRow(node, env, host, h))
  {
    var pairs := OptionPairs(node.children).value;
    OptionsMean(pairs, env, host);
    OptionPairsMean(node.children, env, host);
  }

  lemma SimplePartMeans(parent: Tag, node: Node, env: Env, host: Host, h: Horb)
    requires node.Element? && !parent.FormTag? && ExpandPart(parent, node).Success?
    ensures OneCall(ExpandPart(parent, node).value, env, host, h, PaintPart(parent, node, env, host, h))
  {
    match parent
    case TabsTag => TabMeans(node, env, host, h);
    case ButtonsTag => ButtonMeans(node, env, host, h);
    case ListTag => ListRowMeans(node, env, host, h);
    case _ => ShapeMeans(node, env, host, h);
  }

  lemma ButtonMeans(node: Node, env: Env, host: Host, h: Horb)
    requires node.Element? && ExpandButton(node).Success?
    ensures OneCall(ExpandButton(node).value, env, host, h, PaintPart(ButtonsTag, node, env, host, h))
  {
    hide Eval, EvalAll, Show, SeenAll;
  }

  lemma ListRowMeans(node: Node, env: Env, host: Host, h: Horb)
    requires node.Element? && ExpandListRow(node).Success?
    ensures OneCall(ExpandListRow(node).value, env, host, h, PaintPart(ListTag, node, env, host, h))
  {
    hide Eval, EvalAll, Show, SeenAll;
  }

  lemma TabMeans(node: Node, env: Env, host: Host, h: Horb)
    requires node.Element? && ExpandTab(node).Success?
    ensures OneCall(ExpandTab(node).value, env, host, h, PaintTab(node.attrs, env, host, h))
  {
  }

  lemma RectMeans(node: Node, env: Env, host: Host, h: Horb)
    requires node.Element? && node.tag == RectTag && ExpandShape(node).Success?
    ensures OneCall(ExpandShape(node).value, env, host, h, PaintShape(node, env, host, h))
  {
    hide Eval, EvalAll, Show, SeenAll;
  }

  lemma ShapeMeans(node: Node, env: Env, host: Host, h: Horb)
    requires node.Element? && ExpandShape(node).Success?
    ensures OneCall(ExpandShape(node).value, env, host, h, PaintShape(node, env, host, h))
  {
    if node.tag.RectTag? {
      RectMeans(node, env, host, h);
    } else {
      TeleportMeans(node, env, host, h);
    }
  }

  lemma TeleportMeans(node: Node, env: Env, host: Host, h: Horb)
    requires node.Element? && node.tag != RectTag && ExpandShape(node).Success?
    ensures OneCall(ExpandShape(node).value, env, host, h, PaintShape(node, env, host, h))
  {
    hide Eval, EvalAll, Show, SeenAll;
  }

  lemma PartMeans(parent: Tag, node: Node, env: Env, host: Host, h: Horb)
    requires node.Element? && ExpandPart(parent, node).Success?
    ensures Calls(ExpandPart(parent, node).value, env, host, h) == PaintPart(parent, node, env, host, h)
  {
    var calls := ExpandPart(parent, node).value;
    if !parent.FormTag? {
      SimplePartMeans(parent, node, env, host, h);
    } else if node.tag.DropdownRowTag? {
      DropdownMeans(node, env, host, h);
    } else {
      PlainRowMeans(node, env, host, h);
    }
    assert calls == [calls[0]];
    CallsOne(calls[0], env, host, h);
  }

  lemma {:induction false} PartsMean(parent: Tag, children: seq<Node>, env: Env, host: Host, h: Horb)
    requires ExpandParts(parent, children).Success?
    ensures Calls(ExpandParts(parent, children).value, env, host, h) == PaintParts(parent, children, env, host, h)
    decreases children
  {
    if children != [] {
      if children[0].Element? {
        PartMeans(parent, children[0], env, host, h);
        var first := ExpandPart(parent, children[0]).value;
        var rest := ExpandParts(parent, children[1..]).value;
        CallsConcat(first, rest, env, host, h);
        PartsMean(parent, children[1..], env, host, PaintPart(parent, children[0], env, host, h).h);
      } else {
        PartsMean(parent, children[1..], env, host, h);
      }
    }
  }

  lemma TextMeans(children: seq<Node>, env: Env, host: Host, h: Horb)
    requires TextContent(children).Success?
    ensures var pieces := Pieces(children);
            Calls([SetText(TextContent(children).value)], env, host, h)
            == Outcome(h.(text := ShowPieces(pieces, env, host)), SeenAll(pieces, env, host))
  {
    var pieces, c := Pieces(children), TextContent(children).value;
    CallsOne(SetText(c), env, host, h);
    if |children| == 1 {
      assert Pieces(children[1..]) == [];
      if children[0].TextNode? || children[0].BlockNode? {
        assert pieces == [c.e] + [] == [c.e];
        assert EvalAll([c.e], env, host) == [Eval(c.e, env, host)];
        var shown := ShowAll([Eval(c.e, env, host)]);
        assert shown == [Show(Eval(c.e, env, host))];
        assert Concat(shown) == shown[0] + Concat(shown[1..]) && shown[1..] == [];
        assert SeenAll([c.e], env, host) == Seen(c.e, env, host) + SeenAll([c.e][1..], env, host);
      }
    }
  }

  predicate IsContainer(tag: Tag) {
    tag.TabsTag? || tag.ButtonsTag? || tag.ListTag? || tag.FormTag?
  }

  lemma ContainerMeans(tag: Tag, attrs: seq<Attr>, children: seq<Node>, env: Env, host: Host, h: Horb)
    requires IsContainer(tag) && ExpandNode(Element(tag, attrs, children)).Success?
    ensures Calls(ExpandNode(Element(tag, attrs, children)).value, env, host, h)
         == PaintElement(tag, attrs, children, env, host, h)
  {
    assert ExpandNode(Element(tag, attrs, children)) == ExpandParts(tag, children);
    PartsMean(tag, children, env, host, h);
  }

  lemma CanvasMeans(attrs: seq<Attr>, children: seq<Node>, env: Env, host: Host, h: Horb)
    requires ExpandNode(Element(CanvasTag, attrs, children)).Success?
    ensures Calls(ExpandNode(Element(CanvasTag, attrs, children)).value, env, host, h)
         == PaintElement(CanvasTag, attrs, children, env, host, h)
  {
    hide ExpandParts, PaintParts, Calls, Seen, Eval, Show;
    var style, parts := Attribute(attrs, Style), ExpandParts(CanvasTag, children).value;
    if style.Some? {
      var h1 := Invoke(Css(style.value), env, host, h);
      CallsConcat([Css(style.value)], parts, env, host, h);
      CallsOne(Css(style.value), env, host, h);
      PartsMean(CanvasTag, children, env, host, h1);
    } else {
      assert [] + parts == parts;
      PartsMean(CanvasTag, children, env, host, h);
    }
  }

  lemma InputMeans(attrs: seq<Attr>, children: seq<Node>, env: Env, host: Host, h: Horb)
    requires ExpandNode(Element(InputTag, attrs, children)).Success?
    ensures OneCall(ExpandNode(Element(InputTag, attrs, children)).value, env, host, h,
                    PaintElement(InputTag, attrs, children, env, host, h))
  {
    hide Eval, EvalAll, Show, SeenAll;
  }

  lemma CardMeans(attrs: seq<Attr>, children: seq<Node>, env: Env, host: Host, h: Horb)
    requires ExpandNode(Element(CardTag, attrs, children)).Success?
    ensures OneCall(ExpandNode(Element(CardTag, attrs, children)).value, env, host, h,
                    PaintElement(CardTag, attrs, children, env, host, h))
  {
  }

  lemma InventoryMeans(attrs: seq<Attr>, children: seq<Node>, env: Env, host: Host, h: Horb)
    requires ExpandNode(Element(InventoryTag, attrs, children)).Success?
    ensures OneCall(ExpandNode(Element(InventoryTag, attrs, children)).value, env, host, h,
                    PaintElement(InventoryTag, attrs, children, env, host, h))
  {
  }

  lemma AdminMeans(attrs: seq<Attr>, children: seq<Node>, env: Env, host: Host, h: Horb)
    requires ExpandNode(Element(AdminTag, attrs, children)).Success?
    ensures OneCall(ExpandNode(Element(AdminTag, attrs, children)).value, env, host, h,
                    PaintElement(AdminTag, attrs, children, env, host, h))
  {
  }

  lemma CrystalsExpansion(attrs: seq<Attr>, children: seq<Node>)
    requires ExpandNode(Element(CrystalsTag, attrs, children)).Success?
    ensures ExpandNode(Element(CrystalsTag, attrs, children)).value
         == [SetCrystals(AttributeOr(attrs, Left, Str("")), AttributeOr(attrs, Right, Str("")),
                         AttributeOr(attrs, Buy, Flag(false)), AttributeOr(attrs, Lines, List([])))]
  {
  }

  lemma CrystalsMeans(attrs: seq<Attr>, children: seq<Node>, env: Env, host: Host, h: Horb)
    requires ExpandNode(Element(CrystalsTag, attrs, children)).Success?
    ensures OneCall(ExpandNode(Element(CrystalsTag, attrs, children)).value, env, host, h,
                    PaintElement(CrystalsTag, attrs, children, env, host, h))
  {
    hide Eval, EvalAll, Show, SeenAll, ExpandNode, AttributeOr;
    CrystalsExpansion(attrs, children);
  }

  lemma CloseButtonMeans(attrs: seq<Attr>, children: seq<Node>, env: Env, host: Host, h: Horb)
    requires ExpandNode(Element(CloseButtonTag, attrs, children)).Success?
    ensures OneCall(ExpandNode(Element(CloseButtonTag, attrs, children)).value, env, host, h,
                    PaintElement(CloseButtonTag, attrs, children, env, host, h))
  {
  }

  lemma MinimapExpansion(attrs: seq<Attr>, children: seq<Node>)
    requires ExpandNode(Element(MinimapTag, attrs, children)).Success?
    ensures ExpandNode(Element(MinimapTag, attrs, children)).value == [DrawMinimap(MinimapArguments(attrs))]
  {
  }

  lemma MinimapMeans(attrs: seq<Attr>, children: seq<Node>, env: Env, host: Host, h: Horb)
    requires ExpandNode(Element(MinimapTag, attrs, children)).Success?
    ensures OneCall(ExpandNode(Element(MinimapTag, attrs, children)).value, env, host, h,
                    PaintElement(MinimapTag, attrs, children, env, host, h))
  {
    hide Eval, EvalAll, Show, SeenAll, ExpandNode, MinimapArguments;
    MinimapExpansion(attrs, children);
  }

  lemma SettingMeans(tag: Tag, attrs: seq<Attr>, children: seq<Node>, env: Env, host: Host, h: Horb)
    requires !IsContainer(tag) && !tag.CanvasTag? && !tag.TextTag?
    requires ExpandNode(Element(tag, attrs, children)).Success?
    ensures OneCall(ExpandNode(Element(tag, attrs, children)).value, env, host, h,
                    PaintElement(tag, attrs, children, env, host, h))
  {
    match tag
    case InputTag => InputMeans(attrs, children, env, host, h);
    case CardTag => CardMeans(attrs, children, env, host, h);
    case InventoryTag => InventoryMeans(attrs, children, env, host, h);
    case AdminTag => AdminMeans(attrs, children, env, host, h);
    case CrystalsTag => CrystalsMeans(attrs, children, env, host, h);
    case CloseButtonTag => CloseButtonMeans(attrs, children, env, host, h);
    case MinimapTag => MinimapMeans(attrs, children, env, host, h);
  }

  /** Every leaf node: the calls the macro writes do what the node says. */
  lemma NodeMeans(node: Node, env: Env, host: Host, h: Horb)
    requires ExpandNode(node).Success?
    ensures Calls(ExpandNode(node).value, env, host, h) == DrawLeaf(node, env, host, h)
  {
    match node
    case OtherNode =>
    case TextNode(s) => CallsOne(SetText(One(Lit(Str(s), true))), env, host, h);
    case BlockNode(e) => CallsOne(SetText(One(e)), env, host, h);
    case Element(tag, attrs, children) =>
      if IsContainer(tag) {
        ContainerMeans(tag, attrs, children, env, host, h);
      } else if tag.CanvasTag? {
        CanvasMeans(attrs, children, env, host, h);
      } else if tag.TextTag? {
        TextMeans(children, env, host, h);
      } else {
        SettingMeans(tag, attrs, children, env, host, h);
        var calls := ExpandNode(node).value;
        assert calls == [calls[0]];
        CallsOne(calls[0], env, host, h);
      }
  }

  // ---------------------------------------------------------------- trees

  /** What a list of nodes expands to, placed after any builder, builds the window that the list draws on
      the one the builder makes, and evaluates in the order that `FollowAll` tells. The builder is
      evaluated exactly once, though its text may occur many times. */
  lemma {:induction false} SeqMeans(nodes: seq<Node>, builder: Target, env: Env, host: Host)
    requires ExpandSeq(nodes, builder).Success? && AllLoopsAvoid(nodes, CURRENT)
    ensures Run(ExpandSeq(nodes, builder).value, env, host) == FollowAll(nodes, env, host, Run(builder, env, host))
    decreases nodes, 0
  {
    if nodes != [] {
      ChildMeans(nodes[0], builder, env, host);
      SeqMeans(nodes[1..], ExpandChild(nodes[0], builder).value, env, host);
    }
  }

  lemma {:induction false} ChildMeans(node: Node, builder: Target, env: Env, host: Host)
    requires ExpandChild(node, builder).Success? && LoopsAvoid(node, CURRENT)
    ensures Run(ExpandChild(node, builder).value, env, host) == Follow(node, env, host, Run(builder, env, host))
    decreases node, 3
  {
    if node.Element? && node.tag.ForTag? {
      ForMeans(node.attrs, node.children, builder, env, host);
    } else if node.Element? && node.tag.IfTag? {
      IfMeans(node.attrs, node.children, builder, env, host);
    } else {
      NodeMeans(node, env, host, Run(builder, env, host).h);
      RunChain(builder, ExpandNode(node).value, env, host);
    }
  }

  lemma {:induction false} IfMeans(attrs: seq<Attr>, children: seq<Node>, builder: Target, env: Env, host: Host)
    requires ExpandIf(attrs, children, builder).Success? && AllLoopsAvoid(children, CURRENT)
    ensures Run(ExpandIf(attrs, children, builder).value, env, host)
         == FollowIf(attrs, children, env, host, Run(builder, env, host))
    decreases children, 2
  {
    SeqMeans(children, builder, env, host);
    var condition, body := Required(attrs, Condition).value, ExpandSeq(children, builder).value;
    hide ExpandSeq, FollowAll;
    ChoiceMeans(condition, body, builder, env, host);
  }

  lemma ChoiceMeans(condition: Expr, body: Target, builder: Target, env: Env, host: Host)
    ensures var branch := if Eval(condition, env, host).AsBool() then Run(body, env, host) else Run(builder, env, host);
            Run(IfElse(condition, Block(body), Block(builder)), env, host)
            == Outcome(branch.h, Seen(condition, env, host) + branch.trace)
  {
  }

  lemma {:induction false} ForMeans(attrs: seq<Attr>, children: seq<Node>, builder: Target, env: Env, host: Host)
    requires ExpandFor(attrs, children, builder).Success?
    requires ItemName(attrs) != CURRENT && NodesAvoid(children, CURRENT)
    ensures Run(ExpandFor(attrs, children, builder).value, env, host)
         == FollowFor(attrs, children, env, host, Run(builder, env, host))
    decreases children, 2
  {
    var each, body := Required(attrs, Each).value, ExpandChildren(children, Current).value;
    FoldMeans(children, body, ItemName(attrs), Eval(each, env, host).AsList(), env, host, Run(builder, env, host).h);
    hide ExpandChildren, FollowEach, RunFold;
    LoopMeans(each, builder, ItemName(attrs), body, env, host);
  }

  lemma LoopMeans(each: Expr, builder: Target, item: string, body: Target, env: Env, host: Host)
    ensures var b := Run(builder, env, host);
            var all := RunFold(body, item, Eval(each, env, host).AsList(), env, host, b.h);
            Run(Fold(each, builder, item, body), env, host)
            == Outcome(all.h, Seen(each, env, host) + b.trace + all.trace)
  {
  }

  /** The closure of a loop: its builder parameter is the window drawn so far at this level and at
      no other, whatever loops enclose it or are nested in it. */
  lemma {:induction false} FoldMeans(children: seq<Node>, body: Target, item: string, xs: seq<Value>, env: Env,
                                     host: Host, h: Horb)
    requires ExpandChildren(children, Current) == Success(body) && NodesAvoid(children, CURRENT)
    requires item != CURRENT
    ensures RunFold(body, item, xs, env, host, h) == FollowEach(children, item, xs, env, host, h)
    decreases children, 1, |xs|
  {
    hide Invoke, CallSeen, ExpandNode, PaintElement;
    if xs != [] {
      var inner := env[CURRENT := Window(h)][item := xs[0]];
      AllAvoidInLoops(children, CURRENT);
      SeqMeans(children, Current, inner, host);
      FollowAllSame(children, inner, env[item := xs[0]], CURRENT, host, Outcome(h, []));
      FoldMeans(children, body, item, xs[1..], env, host,
                FollowAll(children, env[item := xs[0]], host, Outcome(h, [])).h);
    }
  }

  lemma StartMeans(title: Expr, style: Option<Expr>, env: Env, host: Host)
    ensures var builder := if style.None? then New(title) else Method(New(title), Css(style.value));
            var blank := NewHorb(Show(Eval(title, env, host)));
            Run(builder, env, host)
            == Outcome(if style.None? then blank else blank.(css := Show(Eval(style.value, env, host))),
                       Seen(title, env, host) + if style.None? then [] else Seen(style.value, env, host))
  {
    assert Seen(title, env, host) + [] == Seen(title, env, host);
  }

  /** The macro as a whole, exactly: for every tree it accepts, every program around it and every pure
      attribute, the generated expression builds the window and makes the evaluations, one by one, that
      `FollowWindow` tells. The macro's own name may be used anywhere but inside a loop. */
  lemma ExpansionFollows(root: Node, env: Env, host: Host)
    requires ExpandRoot(root).Success? && AllLoopsAvoid(root.children, CURRENT)
    ensures Run(ExpandRoot(root).value, env, host) == FollowWindow(root.attrs, root.children, env, host)
  {
    hide ExpandSeq, FollowAll, Eval, Show, Seen, Invoke, CallSeen;
    var title, style := Required(root.attrs, Title).value, Attribute(root.attrs, Style);
    var builder := if style.None? then New(title) else Method(New(title), Css(style.value));
    StartMeans(title, style, env, host);
    SeqMeans(root.children, builder, env, host);
  }

  /** What the markup says is what is built, with each attribute evaluated exactly as often. */
  lemma ExpansionPreservesMeaning(root: Node, env: Env, host: Host)
    requires ExpandRoot(root).Success? && AllLoopsAvoid(root.children, CURRENT)
    ensures var r := Run(ExpandRoot(root).value, env, host);
            var d := DrawWindow(root.attrs, root.children, env, host);
            r.h == d.h && multiset(r.trace) == multiset(d.trace)
  {
    ExpansionFollows(root, env, host);
    FollowAllDraws(root.children, env, host, Start(root, env, host));
    hide FollowAll, DrawAll, Eval, Show, Seen;
  }

  /** The window before its first child. */
  function Start(root: Node, env: Env, host: Host): Outcome
    requires root.Element?
  {
    var title, style := AttributeOr(root.attrs, Title, Str("")), Attribute(root.attrs, Style);
    var blank := NewHorb(Show(Eval(title, env, host)));
    Outcome(if style.None? then blank else blank.(css := Show(Eval(style.value, env, host))),
            Seen(title, env, host) + if style.None? then [] else Seen(style.value, env, host))
  }

  /** And in the order of the markup, when no loop's list and no condition that is not a literal comes
      after an evaluation; only then, unless the markup makes one evaluation twice. */
  lemma ExpansionKeepsOrder(root: Node, env: Env, host: Host)
    requires ExpandRoot(root).Success? && AllLoopsAvoid(root.children, CURRENT)
    ensures var r := Run(ExpandRoot(root).value, env, host);
            var d := DrawWindow(root.attrs, root.children, env, host);
            var start := Start(root, env, host);
            && (AllInOrder(root.children, env, host, start) ==> r == d)
            && (NoDup(d.trace) ==> (r == d <==> AllInOrder(root.children, env, host, start)))
  {
    hide FollowAll, DrawAll, Eval, Show, Seen, AllInOrder;
    var start := Start(root, env, host);
    ExpansionFollows(root, env, host);
    if AllInOrder(root.children, env, host, start) {
      AllOrderKept(root.children, env, host, start);
    }
    if NoDup(start.trace + DrawAll(root.children, env, host, start.h).trace) {
      OrderExactly(root.children, env, host, start);
    }
  }

  // ---------------------------------------------------------------- what the theorem cannot drop

  /** The one operation the example needs: is a window still the empty one with title "t"? */
  const IS_BLANK := "== Horb::new(\"t\")"

  ghost predicate Compares(host: Host) {
    forall h: Horb :: host.apply(IS_BLANK, [Window(h)]) == Flag(h == NewHorb("t"))
  }

  /** Inside a loop, a condition on a variable named like the macro's own. */
  const LOOP_ATTRS := [Keyed(Each, Some(Var("xs"))), Keyed(Item, Some(Var("x")))]
  const BLANK := Apply(IS_BLANK, [Var(CURRENT)])
  const GUARD_ATTRS := [Keyed(Condition, Some(BLANK))]
  const SHOWN := TextNode("seen")

  function CapturingTree(): Node {
    Element(WindowTag, [Keyed(Title, Some(Lit(Str("t"), true)))],
            [Element(ForTag, LOOP_ATTRS, [Element(IfTag, GUARD_ATTRS, [SHOWN])])])
  }

  /** `if __openmines_gui == Horb::new("t") { __openmines_gui.text("seen") } else { __openmines_gui }` */
  function CapturingBody(): Target {
    IfElse(BLANK, Block(Method(Current, SetText(One(Lit(Str("seen"), true))))), Block(Current))
  }

  lemma CapturingGuard()
    ensures ExpandIf(GUARD_ATTRS, [SHOWN], Current) == Success(CapturingBody())
  {
    ValidateAttributesExact(GUARD_ATTRS, [Condition]);
    var shown := Method(Current, SetText(One(Lit(Str("seen"), true))));
    assert ExpandChild(SHOWN, Current) == Success(shown);
    assert [SHOWN][1..] == [];
    assert ExpandSeq([SHOWN], Current) == Success(shown);
  }

  lemma CapturingLoop(start: Target)
    ensures ExpandFor(LOOP_ATTRS, [Element(IfTag, GUARD_ATTRS, [SHOWN])], start)
         == Success(Fold(Var("xs"), start, "x", Block(CapturingBody())))
  {
    var guard := Element(IfTag, GUARD_ATTRS, [SHOWN]);
    ValidateAttributesExact(LOOP_ATTRS, [Each, Item]);
    assert Attribute(LOOP_ATTRS, Item) == Attribute(LOOP_ATTRS[1..], Item);
    CapturingGuard();
    hide ExpandIf, ExpandNode;
    assert [guard][1..] == [];
    assert ExpandChild(guard, Current) == Success(CapturingBody());
    assert ExpandSeq([guard], Current) == Success(CapturingBody());
  }

  lemma CapturingExpansion()
    ensures ExpandRoot(CapturingTree())
         == Success(Block(Fold(Var("xs"), New(Lit(Str("t"), true)), "x", Block(CapturingBody()))))
  {
    hide ExpandFor, ExpandLeaf, CapturingBody;
    var tree, start := CapturingTree(), New(Lit(Str("t"), true));
    var loop := tree.children[0];
    ValidateAttributesExact(tree.attrs, [Title, Style]);
    CapturingLoop(start);
    assert ExpandChild(loop, start) == ExpandFor(LOOP_ATTRS, loop.children, start);
    assert tree.children == [loop] && [loop][1..] == [];
  }

  lemma CapturedRun(env: Env, host: Host)
    requires "xs" in env && env["xs"] == List([Num(1)]) && Compares(host)
    ensures ExpandRoot(CapturingTree()).Success?
    ensures Run(ExpandRoot(CapturingTree()).value, env, host).h.text == "seen"
  {
    CapturingExpansion();
    var body, inner := Block(CapturingBody()), env[CURRENT := Window(NewHorb("t"))]["x" := Num(1)];
    hide ExpandRoot, PaintElement;
    assert [Num(1)][1..] == [];
    assert EvalAll([Var(CURRENT)], inner, host) == [Window(NewHorb("t"))];
    assert Eval(BLANK, inner, host) == Flag(true);
    assert Run(body, inner, host).h.text == "seen";
    assert RunFold(body, "x", [Num(1)], env, host, NewHorb("t")).h.text == "seen";
  }

  lemma CapturedLoop(env: Env, host: Host, h: Horb)
    requires "xs" in env && env["xs"] == List([Num(1)]) && Compares(host)
    requires CURRENT in env && env[CURRENT] == Window(NewHorb("other"))
    ensures DrawFor(LOOP_ATTRS, [Element(IfTag, GUARD_ATTRS, [SHOWN])], env, host, h).h == h
  {
    hide Invoke, PaintElement;
    var guard, inner := Element(IfTag, GUARD_ATTRS, [SHOWN]), env["x" := Num(1)];
    assert Attribute(LOOP_ATTRS, Item) == Attribute(LOOP_ATTRS[1..], Item);
    assert [Num(1)][1..] == [] && [guard][1..] == [];
    assert EvalAll([Var(CURRENT)], inner, host) == [Window(NewHorb("other"))];
    assert Eval(BLANK, inner, host) == Flag(false);
    assert Draw(guard, inner, host, h).h == h;
    assert DrawAll([guard], inner, host, h).h == h;
    assert DrawEach([guard], "x", [Num(1)], env, host, h).h == h;
  }

  lemma CapturedDrawing(env: Env, host: Host)
    requires "xs" in env && env["xs"] == List([Num(1)]) && Compares(host)
    requires CURRENT in env && env[CURRENT] == Window(NewHorb("other"))
    ensures DrawWindow(CapturingTree().attrs, CapturingTree().children, env, host).h.text == ""
  {
    hide Invoke, PaintElement, DrawFor, Compares, EvalAll;
    var tree, h := CapturingTree(), NewHorb("t");
    var loop := tree.children[0];
    CapturedLoop(env, host, h);
    assert tree.children == [loop] && [loop][1..] == [];
    assert DrawAll([loop], env, host, h).h == h;
  }

  /** Names do matter: the macro's identifier is visible to the attributes inside a loop. The window of the
      surrounding program is not blank, the macro's own is. */
  lemma CaptureChangesMeaning(host: Host)
    requires Compares(host)
    ensures ExpandRoot(CapturingTree()).Success?
    ensures var env := map["xs" := List([Num(1)]), CURRENT := Window(NewHorb("other"))];
            Run(ExpandRoot(CapturingTree()).value, env, host).h
            != DrawWindow(CapturingTree().attrs, CapturingTree().children, env, host).h
  {
    var env := map["xs" := List([Num(1)]), CURRENT := Window(NewHorb("other"))];
    CapturedRun(env, host);
    CapturedDrawing(env, host);
  }

  /** A condition below a title. */
  const CHOICE := Element(IfTag, [Keyed(Condition, Some(Var("b")))], [])
  const CHOOSING := Element(WindowTag, [Keyed(Title, Some(Var("a")))], [CHOICE])

  lemma ChoiceExpansion(start: Target)
    ensures ExpandSeq([CHOICE], start) == Success(IfElse(Var("b"), Block(start), Block(start)))
  {
    ValidateAttributesExact(CHOICE.attrs, [Condition]);
    assert ExpandChild(CHOICE, start) == ExpandIf(CHOICE.attrs, [], start);
    assert [CHOICE][1..] == [];
  }

  lemma ChoosingExpansion()
    ensures ExpandRoot(CHOOSING) == Success(Block(IfElse(Var("b"), Block(New(Var("a"))), Block(New(Var("a"))))))
  {
    hide ExpandSeq;
    ValidateAttributesExact(CHOOSING.attrs, [Title, Style]);
    ChoiceExpansion(New(Var("a")));
  }

  lemma ChoosingDrawing(host: Host, env: Env)
    ensures DrawWindow(CHOOSING.attrs, CHOOSING.children, env, host).trace
         == Seen(Var("a"), env, host) + Seen(Var("b"), env, host)
  {
    hide Eval, Show, Invoke, PaintElement;
    var h := NewHorb(Show(Eval(Var("a"), env, host)));
    assert Draw(CHOICE, env, host, h) == Outcome(h, Seen(Var("b"), env, host)) by {
      assert Seen(Var("b"), env, host) + [] == Seen(Var("b"), env, host);
    }
    assert CHOOSING.children == [CHOICE] && [CHOICE][1..] == [];
    assert DrawAll([CHOICE], env, host, h).trace == Seen(Var("b"), env, host) + [];
  }

  /** Order does change: a condition is evaluated before the attributes of the elements above it. */
  lemma ConditionComesFirst(host: Host, env: Env)
    ensures ExpandRoot(CHOOSING).Success?
    ensures Run(ExpandRoot(CHOOSING).value, env, host).trace
         == [Observation(Var("b"), Eval(Var("b"), env, host)), Observation(Var("a"), Eval(Var("a"), env, host))]
    ensures DrawWindow(CHOOSING.attrs, CHOOSING.children, env, host).trace
         == [Observation(Var("a"), Eval(Var("a"), env, host)), Observation(Var("b"), Eval(Var("b"), env, host))]
  {
    hide Eval, Show, Invoke, PaintElement, DrawWindow;
    ChoosingExpansion();
    ChoosingDrawing(host, env);
    var start := New(Var("a"));
    assert Run(IfElse(Var("b"), Block(start), Block(start)), env, host).trace
        == Seen(Var("b"), env, host) + Seen(Var("a"), env, host);
  }

  /** A loop below a title. */
  const LOOP := Element(ForTag, [Keyed(Each, Some(Var("b"))), Keyed(Item, Some(Var("x")))], [])
  const LISTING := Element(WindowTag, [Keyed(Title, Some(Var("a")))], [LOOP])

  lemma LoopExpands(start: Target)
    ensures ExpandSeq([LOOP], start).Success?
  {
    ValidateAttributesExact(LOOP.attrs, [Each, Item]);
    assert Attribute(LOOP.attrs, Item) == Attribute(LOOP.attrs[1..], Item);
    assert ExpandChild(LOOP, start).Success?;
    assert [LOOP][1..] == [];
  }

  lemma LoopAvoids()
    ensures AllLoopsAvoid([LOOP], CURRENT)
  {
    assert Attribute(LOOP.attrs, Item) == Attribute(LOOP.attrs[1..], Item);
    assert LoopsAvoid(LOOP, CURRENT) && [LOOP][1..] == [];
  }

  lemma ListingExpands()
    ensures ExpandRoot(LISTING).Success? && AllLoopsAvoid(LISTING.children, CURRENT)
  {
    hide ExpandSeq, AllLoopsAvoid;
    ValidateAttributesExact(LISTING.attrs, [Title, Style]);
    LoopExpands(New(Var("a")));
    LoopAvoids();
  }

  /** Drawing no children any number of times. */
  lemma {:induction false} EmptyRounds(item: string, xs: seq<Value>, env: Env, host: Host, h: Horb)
    ensures DrawEach([], item, xs, env, host, h) == FollowEach([], item, xs, env, host, h) == Outcome(h, [])
    decreases |xs|
  {
    if xs != [] {
      EmptyRounds(item, xs[1..], env, host, h);
    }
  }

  lemma ListingRounds(host: Host, env: Env, b: Outcome)
    ensures Follow(LOOP, env, host, b) == Outcome(b.h, Seen(Var("b"), env, host) + b.trace)
    ensures Draw(LOOP, env, host, b.h) == Outcome(b.h, Seen(Var("b"), env, host))
  {
    hide Eval, PaintElement;
    assert Attribute(LOOP.attrs, Item) == Attribute(LOOP.attrs[1..], Item);
    EmptyRounds("x", Eval(Var("b"), env, host).AsList(), env, host, b.h);
    assert Follow(LOOP, env, host, b) == FollowFor(LOOP.attrs, [], env, host, b);
    assert Draw(LOOP, env, host, b.h) == DrawFor(LOOP.attrs, [], env, host, b.h);
    assert Seen(Var("b"), env, host) + b.trace + [] == Seen(Var("b"), env, host) + b.trace;
    assert Seen(Var("b"), env, host) + [] == Seen(Var("b"), env, host);
  }

  lemma ListingTraces(host: Host, env: Env)
    ensures FollowWindow(LISTING.attrs, LISTING.children, env, host).trace
         == Seen(Var("b"), env, host) + Seen(Var("a"), env, host)
    ensures DrawWindow(LISTING.attrs, LISTING.children, env, host).trace
         == Seen(Var("a"), env, host) + Seen(Var("b"), env, host)
  {
    hide Eval, Show, Seen, Follow, Draw;
    var b := Start(LISTING, env, host);
    assert Seen(Var("a"), env, host) + [] == Seen(Var("a"), env, host) == b.trace;
    ListingRounds(host, env, b);
    assert LISTING.children == [LOOP] && [LOOP][1..] == [];
    assert FollowAll([LOOP], env, host, b) == Follow(LOOP, env, host, b);
    assert DrawAll([LOOP], env, host, b.h).trace == Seen(Var("b"), env, host) + [];
    assert Seen(Var("b"), env, host) + [] == Seen(Var("b"), env, host);
  }

  /** The list of a loop jumps ahead like a condition. */
  lemma ListComesFirst(host: Host, env: Env)
    ensures ExpandRoot(LISTING).Success?
    ensures Run(ExpandRoot(LISTING).value, env, host).trace
         == [Observation(Var("b"), Eval(Var("b"), env, host)), Observation(Var("a"), Eval(Var("a"), env, host))]
    ensures DrawWindow(LISTING.attrs, LISTING.children, env, host).trace
         == [Observation(Var("a"), Eval(Var("a"), env, host)), Observation(Var("b"), Eval(Var("b"), env, host))]
  {
    hide Eval, FollowWindow, DrawWindow, Run, ExpandRoot;
    ListingExpands();
    ExpansionFollows(LISTING, env, host);
    ListingTraces(host, env);
  }
}
