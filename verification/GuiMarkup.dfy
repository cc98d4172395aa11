/** The parsed markup tree and what it says directly: each element changes the window, loops
    repeat their children for every item, conditions skip them. */
module GuiMarkup {
  import opened Wrappers
  import opened GuiDocument
  import opened GuiExpressions

  datatype Tag =
    | WindowTag | ForTag | IfTag | TextTag | TabsTag | TabTag | ButtonsTag | ButtonTag | ListTag | RowTag
    | FormTag | TextRowTag | ToggleRowTag | UintRowTag | ButtonRowTag | DropdownRowTag | OptionTag
    | CanvasTag | RectTag | TeleportPointTag | InputTag | CardTag | InventoryTag | AdminTag
    | CrystalsTag | CloseButtonTag | MinimapTag | OtherTag(name: string)

  // `Caption` is written `label` in the markup, `Name` `key` and `Content` `value`; the others as they are called.
  datatype Key =
    | Each | Item | Condition | Title | Style | Caption | Action | Active | Subtitle | Name | BtnCaption
    | Content | Selected | X | Y | W | H | Color | Placeholder | FocusConsole | Enabled | Left | Right
    | Buy | Lines | CenterX | CenterY | Radius | CellEmpty | Markers | OtherKey(name: string)

  datatype Attr = Keyed(key: Key, value: Option<Expr>) | Spread

  datatype Node =
    | Element(tag: Tag, attrs: seq<Attr>, children: seq<Node>)
    | TextNode(text: string)
    | BlockNode(e: Expr)
    | OtherNode  // comments, fragments, doctypes

  /** The first attribute of that name that has a value. */
  function Attribute(attrs: seq<Attr>, key: Key): Option<Expr> {
    if attrs == [] then None
    else if attrs[0].Keyed? && attrs[0].key == key && attrs[0].value.Some? then attrs[0].value
    else Attribute(attrs[1..], key)
  }

  function AttributeOr(attrs: seq<Attr>, key: Key, default: Value): Expr {
    var a := Attribute(attrs, key);
    if a.Some? then a.value else Lit(default, true)
  }

  // ---------------------------------------------------------------- observations

  /** An attribute expression was evaluated to a value. Literals leave no trace. */
  datatype Observation = Observation(e: Expr, value: Value)

  /** A window and the evaluations made on the way to it. */
  datatype Outcome = Outcome(h: Horb, trace: seq<Observation>)

  function Seen(e: Expr, env: Env, host: Host): seq<Observation> {
    if e.Lit? then [] else [Observation(e, Eval(e, env, host))]
  }

  function SeenAll(es: seq<Expr>, env: Env, host: Host): seq<Observation> {
    if es == [] then [] else Seen(es[0], env, host) + SeenAll(es[1..], env, host)
  }

  // ---------------------------------------------------------------- the meaning of leaf elements

  /** The pieces of text and code inside an element. */
  function Pieces(children: seq<Node>): seq<Expr> {
    if children == [] then []
    else
      match children[0]
      case TextNode(s) => [Lit(Str(s), true)] + Pieces(children[1..])
      case BlockNode(e) => [e] + Pieces(children[1..])
      case _ => Pieces(children[1..])
  }

  function Concat(ss: seq<string>): string {
    if ss == [] then "" else ss[0] + Concat(ss[1..])
  }

  function ShowPieces(es: seq<Expr>, env: Env, host: Host): string {
    Concat(ShowAll(EvalAll(es, env, host)))
  }

  function PaintTab(attrs: seq<Attr>, env: Env, host: Host, h: Horb): Outcome {
    var caption, action := AttributeOr(attrs, Caption, Str("")), AttributeOr(attrs, Action, Str(""));
    var active := AttributeOr(attrs, Active, Flag(false));
    if Eval(active, env, host).AsBool() then
      Outcome(h.(tabs := h.tabs + [Tab(Show(Eval(caption, env, host)), "")]),
              SeenAll([active, caption], env, host))
    else
      Outcome(h.(tabs := h.tabs + [Tab(Show(Eval(caption, env, host)), Show(Eval(action, env, host)))]),
              SeenAll([active, caption, action], env, host))
  }

  function PaintButton(attrs: seq<Attr>, env: Env, host: Host, h: Horb): Outcome {
    var caption, action := AttributeOr(attrs, Caption, Str("")), AttributeOr(attrs, Action, Str(""));
    Outcome(h.(buttons := h.buttons + [Button(Show(Eval(caption, env, host)), Show(Eval(action, env, host)))]),
            SeenAll([caption, action], env, host))
  }

  function PaintListRow(attrs: seq<Attr>, env: Env, host: Host, h: Horb): Outcome {
    var title, subtitle := AttributeOr(attrs, Title, Str("")), AttributeOr(attrs, Subtitle, Str(""));
    var action := AttributeOr(attrs, Action, Str(""));
    Outcome(h.(list := h.list + [ListRow(Show(Eval(title, env, host)), Show(Eval(subtitle, env, host)),
                                         Show(Eval(action, env, host)))]),
            SeenAll([title, subtitle, action], env, host))
  }

  /** The option list of a dropdown, as the client splits it: `value:label#` for each option. */
  function OptionsText(children: seq<Node>, env: Env, host: Host): string {
    if children == [] then ""
    else if children[0].Element? then
      var attrs := children[0].attrs;
      Show(Eval(AttributeOr(attrs, Content, Str("")), env, host)) + ":"
      + Show(Eval(AttributeOr(attrs, Caption, Str("")), env, host)) + "#"
      + OptionsText(children[1..], env, host)
    else OptionsText(children[1..], env, host)
  }

  function OptionsSeen(children: seq<Node>, env: Env, host: Host): seq<Observation> {
    if children == [] then []
    else if children[0].Element? then
      var attrs := children[0].attrs;
      SeenAll([AttributeOr(attrs, Content, Str("")), AttributeOr(attrs, Caption, Str(""))], env, host)
      + OptionsSeen(children[1..], env, host)
    else OptionsSeen(children[1..], env, host)
  }

  function PaintFormRow(node: Node, env: Env, host: Host, h: Horb): Outcome
    requires node.Element?
  {
    var attrs := node.attrs;
    var captionOf, nameOf := AttributeOr(attrs, Caption, Str("")), AttributeOr(attrs, Name, Str(""));
    var caption, name := Show(Eval(captionOf, env, host)), Show(Eval(nameOf, env, host));
    match node.tag
    case TextRowTag =>
      Outcome(h.(richList := h.richList + [RichRow(caption, "text", "", "", "")]), SeenAll([captionOf], env, host))
    case ToggleRowTag =>
      var active := AttributeOr(attrs, Active, Flag(false));
      Outcome(h.(richList := h.richList
                   + [RichRow(caption, "bool", "", name, if Eval(active, env, host).AsBool() then "1" else "0")]),
              SeenAll([captionOf, nameOf, active], env, host))
    case UintRowTag =>
      var value := AttributeOr(attrs, Content, Num(0));
      Outcome(h.(richList := h.richList
                              + [RichRow(caption, "uint", "", name, Decimal(Eval(value, env, host).AsInt()))]),
              SeenAll([captionOf, nameOf, value], env, host))
    case ButtonRowTag =>
      var button, action := AttributeOr(attrs, BtnCaption, Str("")), AttributeOr(attrs, Action, Str(""));
      Outcome(h.(richList := h.richList
                   + [RichRow(caption, "button", Show(Eval(button, env, host)), Show(Eval(action, env, host)), "")]),
              SeenAll([captionOf, button, action], env, host))
    case _ =>
      var selected := AttributeOr(attrs, Selected, Num(0));
      Outcome(h.(richList := h.richList
                   + [RichRow(caption, "drop", OptionsText(node.children, env, host), name,
                              Decimal(Eval(selected, env, host).AsInt()))]),
              Seen(captionOf, env, host) + OptionsSeen(node.children, env, host)
                + SeenAll([nameOf, selected], env, host))
  }

  function PaintShape(node: Node, env: Env, host: Host, h: Horb): Outcome
    requires node.Element?
  {
    var x, y := AttributeOr(node.attrs, X, Num(0)), AttributeOr(node.attrs, Y, Num(0));
    if node.tag.RectTag? then
      var w, t := AttributeOr(node.attrs, W, Num(0)), AttributeOr(node.attrs, H, Num(0));
      var color := AttributeOr(node.attrs, Color, Str(""));
      Outcome(h.(canvas := h.canvas
                   + [Rect(Eval(x, env, host).AsInt(), Eval(y, env, host).AsInt(), Eval(w, env, host).AsInt(),
                           Eval(t, env, host).AsInt(), Show(Eval(color, env, host)))]),
              SeenAll([x, y, w, t, color], env, host))
    else
      var action := AttributeOr(node.attrs, Action, Str(""));
      Outcome(h.(canvas := h.canvas
                   + [TeleportPoint(Eval(x, env, host).AsInt(), Eval(y, env, host).AsInt(),
                                    Show(Eval(action, env, host)))]),
              SeenAll([x, y, action], env, host))
  }

  function PaintPart(parent: Tag, node: Node, env: Env, host: Host, h: Horb): Outcome
    requires node.Element?
  {
    match parent
    case TabsTag => PaintTab(node.attrs, env, host, h)
    case ButtonsTag => PaintButton(node.attrs, env, host, h)
    case ListTag => PaintListRow(node.attrs, env, host, h)
    case FormTag => PaintFormRow(node, env, host, h)
    case _ => PaintShape(node, env, host, h)
  }

  /** The children of a container element, in order; text between them is blank. */
  function PaintParts(parent: Tag, children: seq<Node>, env: Env, host: Host, h: Horb): Outcome {
    if children == [] then Outcome(h, [])
    else if children[0].Element? then
      var first := PaintPart(parent, children[0], env, host, h);
      var rest := PaintParts(parent, children[1..], env, host, first.h);
      Outcome(rest.h, first.trace + rest.trace)
    else PaintParts(parent, children[1..], env, host, h)
  }

  function PaintElement(tag: Tag, attrs: seq<Attr>, children: seq<Node>, env: Env, host: Host, h: Horb): Outcome {
    match tag
    case TextTag =>
      var pieces := Pieces(children);
      Outcome(h.(text := ShowPieces(pieces, env, host)), SeenAll(pieces, env, host))
    case CanvasTag =>
      var style := Attribute(attrs, Style);
      if style.None? then PaintParts(tag, children, env, host, h)
      else
        var parts := PaintParts(tag, children, env, host, h.(css := Show(Eval(style.value, env, host))));
        Outcome(parts.h, Seen(style.value, env, host) + parts.trace)
    case InputTag =>
      var placeholder := AttributeOr(attrs, Placeholder, Str(""));
      var focus := AttributeOr(attrs, FocusConsole, Flag(false));
      Outcome(h.(inputPlaceholder := Show(Eval(placeholder, env, host)),
                 inputConsole := Eval(focus, env, host).AsBool()),
              SeenAll([placeholder, focus], env, host))
    case CardTag =>
      var value := AttributeOr(attrs, Content, Str(""));
      Outcome(h.(card := Show(Eval(value, env, host))), Seen(value, env, host))
    case InventoryTag =>
      var value := AttributeOr(attrs, Content, Str(""));
      Outcome(h.(inventory := Show(Eval(value, env, host))), Seen(value, env, host))
    case AdminTag =>
      var enabled := AttributeOr(attrs, Enabled, Flag(true));
      Outcome(h.(admin := Eval(enabled, env, host).AsBool()), Seen(enabled, env, host))
    case CrystalsTag =>
      var left, right := AttributeOr(attrs, Left, Str("")), AttributeOr(attrs, Right, Str(""));
      var buy, lines := AttributeOr(attrs, Buy, Flag(false)), AttributeOr(attrs, Lines, List([]));
      Outcome(h.(crystalLeft := Show(Eval(left, env, host)), crystalRight := Show(Eval(right, env, host)),
                 crystalBuy := Eval(buy, env, host).AsBool(), crystalLines := ShowAll(Eval(lines, env, host).AsList())),
              SeenAll([left, right, buy, lines], env, host))
    case CloseButtonTag => Outcome(h.(buttons := h.buttons + [Button("ВЫЙТИ", "exit")]), [])
    case MinimapTag =>
      var args := MinimapArguments(attrs);
      var (drawn, css) := host.minimap(EvalAll(args, env, host));
      Outcome(h.(canvas := h.canvas + drawn, css := css), SeenAll(args, env, host))
    case _ => PaintParts(tag, children, env, host, h)
  }

  function MinimapArguments(attrs: seq<Attr>): seq<Expr> {
    [AttributeOr(attrs, CenterX, Num(0)), AttributeOr(attrs, CenterY, Num(0)), AttributeOr(attrs, Radius, Num(0)),
     AttributeOr(attrs, CellEmpty, Str("")), AttributeOr(attrs, Markers, List([]))]
  }

  // ---------------------------------------------------------------- the meaning of a tree

  function DrawFor(attrs: seq<Attr>, children: seq<Node>, env: Env, host: Host, h: Horb): Outcome
    decreases children, 2
  {
    var each := AttributeOr(attrs, Each, List([]));
    var all := DrawEach(children, ItemName(attrs), Eval(each, env, host).AsList(), env, host, h);
    Outcome(all.h, Seen(each, env, host) + all.trace)
  }

  function DrawIf(attrs: seq<Attr>, children: seq<Node>, env: Env, host: Host, h: Horb): Outcome
    decreases children, 2
  {
    var condition := AttributeOr(attrs, Condition, Flag(false));
    if Eval(condition, env, host).AsBool() then
      var inner := DrawAll(children, env, host, h);
      Outcome(inner.h, Seen(condition, env, host) + inner.trace)
    else Outcome(h, Seen(condition, env, host))
  }

  function DrawLeaf(node: Node, env: Env, host: Host, h: Horb): Outcome {
    match node
    case Element(tag, attrs, children) => PaintElement(tag, attrs, children, env, host, h)
    case TextNode(s) => Outcome(h.(text := s), [])
    case BlockNode(e) => Outcome(h.(text := Show(Eval(e, env, host))), Seen(e, env, host))
    case OtherNode => Outcome(h, [])
  }

  /** One node on the window drawn so far. */
  function Draw(node: Node, env: Env, host: Host, h: Horb): Outcome
    decreases node, 3
  {
    if node.Element? && node.tag.ForTag? then DrawFor(node.attrs, node.children, env, host, h)
    else if node.Element? && node.tag.IfTag? then DrawIf(node.attrs, node.children, env, host, h)
    else DrawLeaf(node, env, host, h)
  }

  function DrawAll(nodes: seq<Node>, env: Env, host: Host, h: Horb): Outcome
    decreases nodes, 0
  {
    if nodes == [] then Outcome(h, [])
    else
      var first := Draw(nodes[0], env, host, h);
      var rest := DrawAll(nodes[1..], env, host, first.h);
      Outcome(rest.h, first.trace + rest.trace)
  }

  /** The children once for every item, with the item bound to its name. */
  function DrawEach(nodes: seq<Node>, item: string, xs: seq<Value>, env: Env, host: Host, h: Horb): Outcome
    decreases nodes, 1, |xs|
  {
    if xs == [] then Outcome(h, [])
    else
      var first := DrawAll(nodes, env[item := xs[0]], host, h);
      var rest := DrawEach(nodes, item, xs[1..], env, host, first.h);
      Outcome(rest.h, first.trace + rest.trace)
  }

  function ItemName(attrs: seq<Attr>): string {
    var item := Attribute(attrs, Item);
    if item.Some? && item.value.Var? then item.value.name else ""
  }

  /** A whole `<window>`. */
  function DrawWindow(attrs: seq<Attr>, children: seq<Node>, env: Env, host: Host): Outcome {
    var title, style := AttributeOr(attrs, Title, Str("")), Attribute(attrs, Style);
    var blank := NewHorb(Show(Eval(title, env, host)));
    var start := if style.None? then blank else blank.(css := Show(Eval(style.value, env, host)));
    var rest := DrawAll(children, env, host, start);
    Outcome(rest.h, Seen(title, env, host) + (if style.None? then [] else Seen(style.value, env, host)) + rest.trace)
  }
}
