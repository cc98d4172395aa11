/** What the markup says does not depend on a variable it never mentions. */
module GuiNames {
  import opened GuiDocument
  import opened GuiExpressions
  import opened GuiMarkup

  predicate AttrsAvoid(attrs: seq<Attr>, name: string) {
    forall i :: 0 <= i < |attrs| ==> attrs[i].Keyed? && attrs[i].value.Some? ==> Avoids(attrs[i].value.value, name)
  }

  /** No expression of the tree, and no loop variable, uses the name. */
  predicate NodeAvoids(node: Node, name: string)
    decreases node, 1
  {
    match node
    case Element(_, attrs, children) => AttrsAvoid(attrs, name) && NodesAvoid(children, name)
    case BlockNode(e) => Avoids(e, name)
    case _ => true
  }

  predicate NodesAvoid(nodes: seq<Node>, name: string)
    decreases nodes, 0
  {
    nodes == [] || (NodeAvoids(nodes[0], name) && NodesAvoid(nodes[1..], name))
  }

  /** Inside loops the name is neither used nor bound; outside it may be used freely. */
  predicate LoopsAvoid(node: Node, name: string)
    decreases node, 1
  {
    match node
    case Element(ForTag, attrs, children) => ItemName(attrs) != name && NodesAvoid(children, name)
    case Element(_, _, children) => AllLoopsAvoid(children, name)
    case _ => true
  }

  predicate AllLoopsAvoid(nodes: seq<Node>, name: string)
    decreases nodes, 0
  {
    nodes == [] || (LoopsAvoid(nodes[0], name) && AllLoopsAvoid(nodes[1..], name))
  }

  /** Two environments that an expression cannot tell apart. */
  ghost predicate SameSeen(e: Expr, env: Env, env': Env, host: Host) {
    Eval(e, env, host) == Eval(e, env', host)
  }

  lemma {:induction false} SeenAllSame(es: seq<Expr>, env: Env, env': Env, host: Host)
    requires forall i :: 0 <= i < |es| ==> SameSeen(es[i], env, env', host)
    ensures SeenAll(es, env, host) == SeenAll(es, env', host)
  {
    if es != [] {
      assert SameSeen(es[0], env, env', host);
      forall i | 0 <= i < |es| - 1
        ensures SameSeen(es[1..][i], env, env', host)
      {
        assert SameSeen(es[i + 1], env, env', host);
      }
      SeenAllSame(es[1..], env, env', host);
    }
  }

  lemma {:induction false} AttributeAvoids(attrs: seq<Attr>, key: Key, name: string)
    requires AttrsAvoid(attrs, name)
    ensures Attribute(attrs, key).Some? ==> Avoids(Attribute(attrs, key).value, name)
  {
    if attrs != [] {
      AttributeAvoids(attrs[1..], key, name);
    }
  }

  lemma AttributeSame(attrs: seq<Attr>, key: Key, default: Value, env: Env, env': Env, name: string, host: Host)
    requires AttrsAvoid(attrs, name) && AgreeExcept(env, env', name)
    ensures SameSeen(AttributeOr(attrs, key, default), env, env', host)
  {
    AttributeAvoids(attrs, key, name);
    EvalAgrees(AttributeOr(attrs, key, default), env, env', name, host);
  }

  lemma {:induction false} PiecesSame(children: seq<Node>, env: Env, env': Env, name: string, host: Host)
    requires NodesAvoid(children, name) && AgreeExcept(env, env', name)
    ensures SeenAll(Pieces(children), env, host) == SeenAll(Pieces(children), env', host)
    ensures EvalAll(Pieces(children), env, host) == EvalAll(Pieces(children), env', host)
  {
    if children != [] {
      PiecesSame(children[1..], env, env', name, host);
      if children[0].BlockNode? {
        EvalAgrees(children[0].e, env, env', name, host);
      }
      if children[0].TextNode? || children[0].BlockNode? {
        assert Pieces(children)[1..] == Pieces(children[1..]);
      }
    }
  }

  lemma {:induction false} OptionsSame(children: seq<Node>, env: Env, env': Env, name: string, host: Host)
    requires NodesAvoid(children, name) && AgreeExcept(env, env', name)
    ensures OptionsText(children, env, host) == OptionsText(children, env', host)
    ensures OptionsSeen(children, env, host) == OptionsSeen(children, env', host)
  {
    if children != [] {
      OptionsSame(children[1..], env, env', name, host);
      if children[0].Element? {
        var attrs := children[0].attrs;
        AttributeSame(attrs, Content, Str(""), env, env', name, host);
        AttributeSame(attrs, Caption, Str(""), env, env', name, host);
        SeenAllSame([AttributeOr(attrs, Content, Str("")), AttributeOr(attrs, Caption, Str(""))], env, env', host);
      }
    }
  }

  lemma ToggleRowSame(node: Node, env: Env, env': Env, name: string, host: Host, h: Horb)
    requires node.Element? && node.tag.ToggleRowTag? && NodeAvoids(node, name) && AgreeExcept(env, env', name)
    ensures PaintFormRow(node, env, host, h) == PaintFormRow(node, env', host, h)
  {
    var attrs := node.attrs;
    AttributeSame(attrs, Caption, Str(""), env, env', name, host);
    AttributeSame(attrs, Name, Str(""), env, env', name, host);
    AttributeSame(attrs, Active, Flag(false), env, env', name, host);
    SeenAllSame([AttributeOr(attrs, Caption, Str("")), AttributeOr(attrs, Name, Str("")),
                 AttributeOr(attrs, Active, Flag(false))], env, env', host);
  }

  lemma UintRowSame(node: Node, env: Env, env': Env, name: string, host: Host, h: Horb)
    requires node.Element? && node.tag.UintRowTag? && NodeAvoids(node, name) && AgreeExcept(env, env', name)
    ensures PaintFormRow(node, env, host, h) == PaintFormRow(node, env', host, h)
  {
    var attrs := node.attrs;
    AttributeSame(attrs, Caption, Str(""), env, env', name, host);
    AttributeSame(attrs, Name, Str(""), env, env', name, host);
    AttributeSame(attrs, Content, Num(0), env, env', name, host);
    SeenAllSame([AttributeOr(attrs, Caption, Str("")), AttributeOr(attrs, Name, Str("")),
                 AttributeOr(attrs, Content, Num(0))], env, env', host);
  }

  lemma ButtonRowSame(node: Node, env: Env, env': Env, name: string, host: Host, h: Horb)
    requires node.Element? && node.tag.ButtonRowTag? && NodeAvoids(node, name) && AgreeExcept(env, env', name)
    ensures PaintFormRow(node, env, host, h) == PaintFormRow(node, env', host, h)
  {
    var attrs := node.attrs;
    AttributeSame(attrs, Caption, Str(""), env, env', name, host);
    AttributeSame(attrs, Name, Str(""), env, env', name, host);
    AttributeSame(attrs, BtnCaption, Str(""), env, env', name, host);
    AttributeSame(attrs, Action, Str(""), env, env', name, host);
    SeenAllSame([AttributeOr(attrs, Caption, Str("")), AttributeOr(attrs, BtnCaption, Str("")),
                 AttributeOr(attrs, Action, Str(""))], env, env', host);
  }

  lemma DropdownRowSame(node: Node, env: Env, env': Env, name: string, host: Host, h: Horb)
    requires node.Element? && NodeAvoids(node, name) && AgreeExcept(env, env', name)
    requires !node.tag.TextRowTag? && !node.tag.ToggleRowTag? && !node.tag.UintRowTag? && !node.tag.ButtonRowTag?
    ensures PaintFormRow(node, env, host, h) == PaintFormRow(node, env', host, h)
  {
    var attrs := node.attrs;
    AttributeSame(attrs, Caption, Str(""), env, env', name, host);
    AttributeSame(attrs, Name, Str(""), env, env', name, host);
    AttributeSame(attrs, Selected, Num(0), env, env', name, host);
    OptionsSame(node.children, env, env', name, host);
    SeenAllSame([AttributeOr(attrs, Name, Str("")), AttributeOr(attrs, Selected, Num(0))], env, env', host);
  }

  lemma FormRowSame(node: Node, env: Env, env': Env, name: string, host: Host, h: Horb)
    requires node.Element? && NodeAvoids(node, name) && AgreeExcept(env, env', name)
    ensures PaintFormRow(node, env, host, h) == PaintFormRow(node, env', host, h)
  {
    match node.tag
    case TextRowTag =>
      AttributeSame(node.attrs, Caption, Str(""), env, env', name, host);
      SeenAllSame([AttributeOr(node.attrs, Caption, Str(""))], env, env', host);
    case ToggleRowTag => ToggleRowSame(node, env, env', name, host, h);
    case UintRowTag => UintRowSame(node, env, env', name, host, h);
    case ButtonRowTag => ButtonRowSame(node, env, env', name, host, h);
    case _ => DropdownRowSame(node, env, env', name, host, h);
  }

  lemma ShapeSame(node: Node, env: Env, env': Env, name: string, host: Host, h: Horb)
    requires node.Element? && NodeAvoids(node, name) && AgreeExcept(env, env', name)
    ensures PaintShape(node, env, host, h) == PaintShape(node, env', host, h)
  {
    var attrs := node.attrs;
    var x, y := AttributeOr(attrs, X, Num(0)), AttributeOr(attrs, Y, Num(0));
    var w, t, color := AttributeOr(attrs, W, Num(0)), AttributeOr(attrs, H, Num(0)), AttributeOr(attrs, Color, Str(""));
    var action := AttributeOr(attrs, Action, Str(""));
    AttributeSame(attrs, X, Num(0), env, env', name, host);
    AttributeSame(attrs, Y, Num(0), env, env', name, host);
    AttributeSame(attrs, Action, Str(""), env, env', name, host);
    AttributeSame(attrs, W, Num(0), env, env', name, host);
    AttributeSame(attrs, H, Num(0), env, env', name, host);
    AttributeSame(attrs, Color, Str(""), env, env', name, host);
    SeenAllSame([x, y, w, t, color], env, env', host);
    SeenAllSame([x, y, action], env, env', host);
  }

  lemma TabSame(attrs: seq<Attr>, env: Env, env': Env, name: string, host: Host, h: Horb)
    requires AttrsAvoid(attrs, name) && AgreeExcept(env, env', name)
    ensures PaintTab(attrs, env, host, h) == PaintTab(attrs, env', host, h)
    ensures PaintButton(attrs, env, host, h) == PaintButton(attrs, env', host, h)
    ensures PaintListRow(attrs, env, host, h) == PaintListRow(attrs, env', host, h)
  {
    var caption, action := AttributeOr(attrs, Caption, Str("")), AttributeOr(attrs, Action, Str(""));
    var active := AttributeOr(attrs, Active, Flag(false));
    var title, subtitle := AttributeOr(attrs, Title, Str("")), AttributeOr(attrs, Subtitle, Str(""));
    AttributeSame(attrs, Caption, Str(""), env, env', name, host);
    AttributeSame(attrs, Action, Str(""), env, env', name, host);
    AttributeSame(attrs, Active, Flag(false), env, env', name, host);
    AttributeSame(attrs, Title, Str(""), env, env', name, host);
    AttributeSame(attrs, Subtitle, Str(""), env, env', name, host);
    SeenAllSame([active, caption], env, env', host);
    SeenAllSame([active, caption, action], env, env', host);
    SeenAllSame([caption, action], env, env', host);
    SeenAllSame([title, subtitle, action], env, env', host);
  }

  lemma PartSame(parent: Tag, node: Node, env: Env, env': Env, name: string, host: Host, h: Horb)
    requires node.Element? && NodeAvoids(node, name) && AgreeExcept(env, env', name)
    ensures PaintPart(parent, node, env, host, h) == PaintPart(parent, node, env', host, h)
  {
    hide PaintFormRow, PaintTab, PaintButton, PaintListRow, PaintShape, AgreeExcept;
    match parent
    case FormTag => FormRowSame(node, env, env', name, host, h);
    case TabsTag => TabSame(node.attrs, env, env', name, host, h);
    case ButtonsTag => TabSame(node.attrs, env, env', name, host, h);
    case ListTag => TabSame(node.attrs, env, env', name, host, h);
    case _ => ShapeSame(node, env, env', name, host, h);
  }

  lemma {:induction false} PartsSame(parent: Tag, children: seq<Node>, env: Env, env': Env,
                                     name: string, host: Host, h: Horb)
    requires NodesAvoid(children, name) && AgreeExcept(env, env', name)
    ensures PaintParts(parent, children, env, host, h) == PaintParts(parent, children, env', host, h)
    decreases children
  {
    if children != [] {
      var h1 := h;
      if children[0].Element? {
        PartSame(parent, children[0], env, env', name, host, h);
        h1 := PaintPart(parent, children[0], env, host, h).h;
      }
      PartsSame(parent, children[1..], env, env', name, host, h1);
    }
  }

  lemma InputSame(attrs: seq<Attr>, children: seq<Node>, env: Env, env': Env, name: string, host: Host, h: Horb)
    requires AttrsAvoid(attrs, name) && AgreeExcept(env, env', name)
    ensures PaintElement(InputTag, attrs, children, env, host, h)
         == PaintElement(InputTag, attrs, children, env', host, h)
  {
    hide Attribute, AttributeOr, AttrsAvoid;
    var placeholder, focus := AttributeOr(attrs, Placeholder, Str("")), AttributeOr(attrs, FocusConsole, Flag(false));
    AttributeSame(attrs, Placeholder, Str(""), env, env', name, host);
    AttributeSame(attrs, FocusConsole, Flag(false), env, env', name, host);
    SeenAllSame([placeholder, focus], env, env', host);
  }

  lemma SettingSame(tag: Tag, attrs: seq<Attr>, children: seq<Node>, env: Env, env': Env,
                    name: string, host: Host, h: Horb)
    requires tag.CardTag? || tag.InventoryTag? || tag.AdminTag? || tag.CloseButtonTag?
    requires AttrsAvoid(attrs, name) && AgreeExcept(env, env', name)
    ensures PaintElement(tag, attrs, children, env, host, h) == PaintElement(tag, attrs, children, env', host, h)
  {
    hide Attribute, AttributeOr, AttrsAvoid;
    AttributeSame(attrs, Content, Str(""), env, env', name, host);
    AttributeSame(attrs, Enabled, Flag(true), env, env', name, host);
  }

  lemma CrystalsSame(attrs: seq<Attr>, children: seq<Node>, env: Env, env': Env, name: string, host: Host, h: Horb)
    requires AttrsAvoid(attrs, name) && AgreeExcept(env, env', name)
    ensures PaintElement(CrystalsTag, attrs, children, env, host, h)
            == PaintElement(CrystalsTag, attrs, children, env', host, h)
  {
    var left, right := AttributeOr(attrs, Left, Str("")), AttributeOr(attrs, Right, Str(""));
    var buy, lines := AttributeOr(attrs, Buy, Flag(false)), AttributeOr(attrs, Lines, List([]));
    AttributeSame(attrs, Left, Str(""), env, env', name, host);
    AttributeSame(attrs, Right, Str(""), env, env', name, host);
    AttributeSame(attrs, Buy, Flag(false), env, env', name, host);
    AttributeSame(attrs, Lines, List([]), env, env', name, host);
    SeenAllSame([left, right, buy, lines], env, env', host);
  }

  lemma MinimapArgumentsSame(attrs: seq<Attr>, env: Env, env': Env, name: string, host: Host)
    requires AttrsAvoid(attrs, name) && AgreeExcept(env, env', name)
    ensures var args := MinimapArguments(attrs);
            EvalAll(args, env, host) == EvalAll(args, env', host)
            && SeenAll(args, env, host) == SeenAll(args, env', host)
  {
    hide Attribute, AttributeOr, Eval, AttrsAvoid;
    var args := MinimapArguments(attrs);
    AttributeSame(attrs, CenterX, Num(0), env, env', name, host);
    AttributeSame(attrs, CenterY, Num(0), env, env', name, host);
    AttributeSame(attrs, Radius, Num(0), env, env', name, host);
    AttributeSame(attrs, CellEmpty, Str(""), env, env', name, host);
    AttributeSame(attrs, Markers, List([]), env, env', name, host);
    assert SameSeen(args[0], env, env', host);
    assert SameSeen(args[1], env, env', host);
    assert SameSeen(args[2], env, env', host);
    assert SameSeen(args[3], env, env', host);
    assert SameSeen(args[4], env, env', host);
    SeenAllSame(args, env, env', host);
    assert EvalAll(args, env, host) == EvalAll(args, env', host);
  }

  lemma MinimapSame(attrs: seq<Attr>, children: seq<Node>, env: Env, env': Env, name: string, host: Host, h: Horb)
    requires AttrsAvoid(attrs, name) && AgreeExcept(env, env', name)
    ensures PaintElement(MinimapTag, attrs, children, env, host, h)
            == PaintElement(MinimapTag, attrs, children, env', host, h)
  {
    hide MinimapArguments;
    MinimapArgumentsSame(attrs, env, env', name, host);
  }

  lemma TextSame(attrs: seq<Attr>, children: seq<Node>, env: Env, env': Env, name: string, host: Host, h: Horb)
    requires NodesAvoid(children, name) && AgreeExcept(env, env', name)
    ensures PaintElement(TextTag, attrs, children, env, host, h)
         == PaintElement(TextTag, attrs, children, env', host, h)
  {
    PiecesSame(children, env, env', name, host);
  }

  lemma CanvasSame(attrs: seq<Attr>, children: seq<Node>, env: Env, env': Env, name: string, host: Host, h: Horb)
    requires AttrsAvoid(attrs, name) && NodesAvoid(children, name) && AgreeExcept(env, env', name)
    ensures PaintElement(CanvasTag, attrs, children, env, host, h)
         == PaintElement(CanvasTag, attrs, children, env', host, h)
  {
    hide PaintParts;
    var style := Attribute(attrs, Style);
    AttributeSame(attrs, Style, Str(""), env, env', name, host);
    var h1 := if style.None? then h else h.(css := Show(Eval(style.value, env, host)));
    PartsSame(CanvasTag, children, env, env', name, host, h1);
  }

  /** Elements that have a lemma of their own. */
  predicate Special(tag: Tag) {
    tag.TextTag? || tag.CanvasTag? || tag.InputTag? || tag.CardTag? || tag.InventoryTag? || tag.AdminTag?
    || tag.CloseButtonTag? || tag.CrystalsTag? || tag.MinimapTag?
  }

  /** The others paint their parts one after the other. */
  lemma ContainerSame(tag: Tag, attrs: seq<Attr>, children: seq<Node>, env: Env, env': Env,
                      name: string, host: Host, h: Horb)
    requires !Special(tag) && NodesAvoid(children, name) && AgreeExcept(env, env', name)
    ensures PaintElement(tag, attrs, children, env, host, h) == PaintElement(tag, attrs, children, env', host, h)
  {
    hide PaintParts;
    PartsSame(tag, children, env, env', name, host, h);
  }

  lemma ElementSame(tag: Tag, attrs: seq<Attr>, children: seq<Node>, env: Env, env': Env,
                    name: string, host: Host, h: Horb)
    requires AttrsAvoid(attrs, name) && NodesAvoid(children, name) && AgreeExcept(env, env', name)
    ensures PaintElement(tag, attrs, children, env, host, h) == PaintElement(tag, attrs, children, env', host, h)
  {
    hide PaintElement, NodesAvoid, AttrsAvoid, AgreeExcept;
    match tag
    case TextTag => TextSame(attrs, children, env, env', name, host, h);
    case CanvasTag => CanvasSame(attrs, children, env, env', name, host, h);
    case InputTag => InputSame(attrs, children, env, env', name, host, h);
    case CardTag => SettingSame(tag, attrs, children, env, env', name, host, h);
    case InventoryTag => SettingSame(tag, attrs, children, env, env', name, host, h);
    case AdminTag => SettingSame(tag, attrs, children, env, env', name, host, h);
    case CloseButtonTag => SettingSame(tag, attrs, children, env, env', name, host, h);
    case CrystalsTag => CrystalsSame(attrs, children, env, env', name, host, h);
    case MinimapTag => MinimapSame(attrs, children, env, env', name, host, h);
    case _ => ContainerSame(tag, attrs, children, env, env', name, host, h);
  }

  lemma {:induction false} DrawSame(node: Node, env: Env, env': Env, name: string, host: Host, h: Horb)
    requires NodeAvoids(node, name) && AgreeExcept(env, env', name)
    ensures Draw(node, env, host, h) == Draw(node, env', host, h)
    decreases node, 3
  {
    if node.Element? && node.tag.ForTag? {
      var each := AttributeOr(node.attrs, Each, List([]));
      AttributeSame(node.attrs, Each, List([]), env, env', name, host);
      DrawEachSame(node.children, ItemName(node.attrs), Eval(each, env, host).AsList(), env, env', name, host, h);
    } else if node.Element? && node.tag.IfTag? {
      AttributeSame(node.attrs, Condition, Flag(false), env, env', name, host);
      DrawAllSame(node.children, env, env', name, host, h);
    } else if node.Element? {
      ElementSame(node.tag, node.attrs, node.children, env, env', name, host, h);
    } else if node.BlockNode? {
      EvalAgrees(node.e, env, env', name, host);
    }
  }

  lemma {:induction false} DrawAllSame(nodes: seq<Node>, env: Env, env': Env, name: string, host: Host, h: Horb)
    requires NodesAvoid(nodes, name) && AgreeExcept(env, env', name)
    ensures DrawAll(nodes, env, host, h) == DrawAll(nodes, env', host, h)
    decreases nodes, 0
  {
    if nodes != [] {
      DrawSame(nodes[0], env, env', name, host, h);
      DrawAllSame(nodes[1..], env, env', name, host, Draw(nodes[0], env, host, h).h);
    }
  }

  lemma {:induction false} DrawEachSame(nodes: seq<Node>, item: string, xs: seq<Value>, env: Env, env': Env,
                                        name: string, host: Host, h: Horb)
    requires NodesAvoid(nodes, name) && AgreeExcept(env, env', name)
    ensures DrawEach(nodes, item, xs, env, host, h) == DrawEach(nodes, item, xs, env', host, h)
    decreases nodes, 1, |xs|
  {
    if xs != [] {
      DrawAllSame(nodes, env[item := xs[0]], env'[item := xs[0]], name, host, h);
      DrawEachSame(nodes, item, xs[1..], env, env', name, host, DrawAll(nodes, env[item := xs[0]], host, h).h);
    }
  }

  lemma {:induction false} AvoidsInLoops(node: Node, name: string)
    requires NodeAvoids(node, name) && name != ""
    ensures LoopsAvoid(node, name)
    decreases node, 1
  {
    if node.Element? {
      AttributeAvoids(node.attrs, Item, name);
      AllAvoidInLoops(node.children, name);
    }
  }

  lemma {:induction false} AllAvoidInLoops(nodes: seq<Node>, name: string)
    requires NodesAvoid(nodes, name) && name != ""
    ensures AllLoopsAvoid(nodes, name)
    decreases nodes, 0
  {
    if nodes != [] {
      AvoidsInLoops(nodes[0], name);
      AllAvoidInLoops(nodes[1..], name);
    }
  }
}
