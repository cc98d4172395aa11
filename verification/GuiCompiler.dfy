/** The `gui!` macro: from a markup tree to one nested builder expression, and what that
    expression evaluates to. */
module GuiCompiler {
  import opened Wrappers
  import opened GuiDocument
  import opened GuiExpressions
  import opened GuiMarkup

  // ---------------------------------------------------------------- the generated code

  /** The text of a text call: one expression, or a `format!` of several pieces. */
  datatype Content = One(e: Expr) | Format(pieces: seq<Expr>)

  /** The options of a dropdown: printed by the macro, or left to `format!`. */
  datatype Options = Printed(s: string) | FormatPairs(pairs: seq<(Expr, Expr)>)

  datatype Call =
    | Css(style: Expr)
    | SetText(content: Content)
    | SetInput(placeholder: Expr, focus: Expr)
    | SetCard(value: Expr)
    | SetInventory(value: Expr)
    | SetAdmin(enabled: Expr)
    | SetCrystals(left: Expr, right: Expr, buy: Expr, lines: Expr)
    | PushButton(caption: Expr, action: Expr)
    | PushClose
    | PushTab(active: Expr, caption: Expr, action: Expr)
    | PushRow(title: Expr, subtitle: Expr, action: Expr)
    | PushText(caption: Expr)
    | PushToggle(caption: Expr, name: Expr, active: Expr)
    | PushUint(caption: Expr, name: Expr, value: Expr)
    | PushButtonRow(caption: Expr, button: Expr, action: Expr)
    | PushDropdown(caption: Expr, options: Options, name: Expr, selected: Expr)
    | PushRect(x: Expr, y: Expr, w: Expr, h: Expr, color: Expr)
    | PushTeleport(x: Expr, y: Expr, action: Expr)
    | DrawMinimap(args: seq<Expr>)

  /** Builder expressions. `Current` is the identifier `__openmines_gui`; `Fold` is
      `(each).into_iter().fold(init, |__openmines_gui, item| body)`. */
  datatype Target =
    | New(title: Expr)
    | Current
    | Method(receiver: Target, call: Call)
    | IfElse(condition: Expr, thn: Target, els: Target)
    | Fold(each: Expr, init: Target, item: string, body: Target)
    | Block(inner: Target)

  const CURRENT := "__openmines_gui"

  // ---------------------------------------------------------------- its evaluation

  function PairsText(pairs: seq<(Expr, Expr)>, env: Env, host: Host): string {
    if pairs == [] then ""
    else
      Show(Eval(pairs[0].0, env, host)) + ":" + Show(Eval(pairs[0].1, env, host)) + "#"
      + PairsText(pairs[1..], env, host)
  }

  function PairsSeen(pairs: seq<(Expr, Expr)>, env: Env, host: Host): seq<Observation> {
    if pairs == [] then []
    else SeenAll([pairs[0].0, pairs[0].1], env, host) + PairsSeen(pairs[1..], env, host)
  }

  function OptionsString(o: Options, env: Env, host: Host): string {
    match o
    case Printed(s) => s
    case FormatPairs(pairs) => PairsText(pairs, env, host)
  }

  /** A builder method with its arguments evaluated. */
  function Invoke(c: Call, env: Env, host: Host, h: Horb): Horb {
    match c
    case Css(style) => h.(css := Show(Eval(style, env, host)))
    case SetText(One(e)) => h.(text := Show(Eval(e, env, host)))
    case SetText(Format(es)) => h.(text := Concat(ShowAll(EvalAll(es, env, host))))
    case SetInput(p, f) =>
      h.(inputPlaceholder := Show(Eval(p, env, host)), inputConsole := Eval(f, env, host).AsBool())
    case SetCard(v) => h.(card := Show(Eval(v, env, host)))
    case SetInventory(v) => h.(inventory := Show(Eval(v, env, host)))
    case SetAdmin(v) => h.(admin := Eval(v, env, host).AsBool())
    case SetCrystals(l, r, b, ls) =>
      h.(crystalLeft := Show(Eval(l, env, host)), crystalRight := Show(Eval(r, env, host)),
         crystalBuy := Eval(b, env, host).AsBool(), crystalLines := ShowAll(Eval(ls, env, host).AsList()))
    case PushButton(t, a) =>
      h.(buttons := h.buttons + [Button(Show(Eval(t, env, host)), Show(Eval(a, env, host)))])
    case PushClose => h.(buttons := h.buttons + [Button("ВЫЙТИ", "exit")])
    case PushTab(active, t, a) =>
      h.(tabs := h.tabs + [if Eval(active, env, host).AsBool() then Tab(Show(Eval(t, env, host)), "")
                           else Tab(Show(Eval(t, env, host)), Show(Eval(a, env, host)))])
    case PushRow(t, s, a) =>
      h.(list := h.list + [ListRow(Show(Eval(t, env, host)), Show(Eval(s, env, host)), Show(Eval(a, env, host)))])
    case PushText(t) => h.(richList := h.richList + [RichRow(Show(Eval(t, env, host)), "text", "", "", "")])
    case PushToggle(t, k, v) =>
      h.(richList := h.richList + [RichRow(Show(Eval(t, env, host)), "bool", "", Show(Eval(k, env, host)),
                                           if Eval(v, env, host).AsBool() then "1" else "0")])
    case PushUint(t, k, v) =>
      h.(richList := h.richList + [RichRow(Show(Eval(t, env, host)), "uint", "", Show(Eval(k, env, host)),
                                           Decimal(Eval(v, env, host).AsInt()))])
    case PushButtonRow(t, b, a) =>
      h.(richList := h.richList + [RichRow(Show(Eval(t, env, host)), "button", Show(Eval(b, env, host)),
                                           Show(Eval(a, env, host)), "")])
    case PushDropdown(t, o, k, s) =>
      h.(richList := h.richList + [RichRow(Show(Eval(t, env, host)), "drop", OptionsString(o, env, host),
                                           Show(Eval(k, env, host)), Decimal(Eval(s, env, host).AsInt()))])
    case PushRect(x, y, w, t, c) =>
      h.(canvas := h.canvas + [Rect(Eval(x, env, host).AsInt(), Eval(y, env, host).AsInt(), Eval(w, env, host).AsInt(),
                                    Eval(t, env, host).AsInt(), Show(Eval(c, env, host)))])
    case PushTeleport(x, y, a) =>
      h.(canvas := h.canvas + [TeleportPoint(Eval(x, env, host).AsInt(), Eval(y, env, host).AsInt(),
                                             Show(Eval(a, env, host)))])
    case DrawMinimap(args) =>
      var (drawn, css) := host.minimap(EvalAll(args, env, host));
      h.(canvas := h.canvas + drawn, css := css)
  }

  /** The arguments of a call that are evaluated, in order. */
  function CallSeen(c: Call, env: Env, host: Host): seq<Observation> {
    match c
    case Css(style) => Seen(style, env, host)
    case SetText(One(e)) => Seen(e, env, host)
    case SetText(Format(es)) => SeenAll(es, env, host)
    case SetInput(p, f) => SeenAll([p, f], env, host)
    case SetCard(v) => Seen(v, env, host)
    case SetInventory(v) => Seen(v, env, host)
    case SetAdmin(v) => Seen(v, env, host)
    case SetCrystals(l, r, b, ls) => SeenAll([l, r, b, ls], env, host)
    case PushButton(t, a) => SeenAll([t, a], env, host)
    case PushClose => []
    case PushTab(active, t, a) =>
      if Eval(active, env, host).AsBool() then SeenAll([active, t], env, host) else SeenAll([active, t, a], env, host)
    case PushRow(t, s, a) => SeenAll([t, s, a], env, host)
    case PushText(t) => SeenAll([t], env, host)
    case PushToggle(t, k, v) => SeenAll([t, k, v], env, host)
    case PushUint(t, k, v) => SeenAll([t, k, v], env, host)
    case PushButtonRow(t, b, a) => SeenAll([t, b, a], env, host)
    case PushDropdown(t, o, k, s) =>
      Seen(t, env, host) + (if o.FormatPairs? then PairsSeen(o.pairs, env, host) else []) + SeenAll([k, s], env, host)
    case PushRect(x, y, w, t, c) => SeenAll([x, y, w, t, c], env, host)
    case PushTeleport(x, y, a) => SeenAll([x, y, a], env, host)
    case DrawMinimap(args) => SeenAll(args, env, host)
  }

  /** Evaluation of a builder expression. The builder identifier is looked up in the environment
      like any other variable. */
  function Run(t: Target, env: Env, host: Host): Outcome
    decreases t, 0
  {
    match t
    case New(title) => Outcome(NewHorb(Show(Eval(title, env, host))), Seen(title, env, host))
    case Current =>
      var v := if CURRENT in env then env[CURRENT] else Str("");
      Outcome(if v.Window? then v.h else NewHorb(""), [])
    case Method(receiver, call) =>
      var r := Run(receiver, env, host);
      Outcome(Invoke(call, env, host, r.h), r.trace + CallSeen(call, env, host))
    case IfElse(condition, thn, els) =>
      var branch := if Eval(condition, env, host).AsBool() then Run(thn, env, host) else Run(els, env, host);
      Outcome(branch.h, Seen(condition, env, host) + branch.trace)
    case Fold(each, init, item, body) =>
      var start := Run(init, env, host);
      var all := RunFold(body, item, Eval(each, env, host).AsList(), env, host, start.h);
      Outcome(all.h, Seen(each, env, host) + start.trace + all.trace)
    case Block(inner) => Run(inner, env, host)
  }

  /** The closure's two parameters shadow whatever had their names. */
  function RunFold(body: Target, item: string, xs: seq<Value>, env: Env, host: Host, h: Horb): Outcome
    decreases body, 1, |xs|
  {
    if xs == [] then Outcome(h, [])
    else
      var first := Run(body, env[CURRENT := Window(h)][item := xs[0]], host);
      var rest := RunFold(body, item, xs[1..], env, host, first.h);
      Outcome(rest.h, first.trace + rest.trace)
  }

  // ---------------------------------------------------------------- the macro: checks

  datatype Error =
    | UnsupportedAttribute(key: Key)
    | DuplicateAttribute(key: Key)
    | AttributeSyntax
    | MissingAttribute(key: Key)
    | HasChildren(tag: Tag)
    | Misplaced
    | UnknownElement(tag: Tag)
    | ItemNotIdentifier
    | NotWindow

  /** The first fault of an attribute list, if any. */
  function ValidateAttributes(attrs: seq<Attr>, allowed: seq<Key>): Option<Error> {
    if attrs == [] then None
    else
      var front, last := attrs[..|attrs| - 1], attrs[|attrs| - 1];
      var earlier := ValidateAttributes(front, allowed);
      if earlier.Some? then earlier
      else if last.Spread? then Some(AttributeSyntax)
      else if last.key !in allowed then Some(UnsupportedAttribute(last.key))
      else if exists i :: 0 <= i < |front| && front[i].Keyed? && front[i].key == last.key
      then Some(DuplicateAttribute(last.key))
      else None
  }

  /** A list passes exactly when its attributes are keyed, allowed and named once each. */
  lemma {:induction false} ValidateAttributesExact(attrs: seq<Attr>, allowed: seq<Key>)
    ensures ValidateAttributes(attrs, allowed).None? <==>
            && (forall i :: 0 <= i < |attrs| ==> attrs[i].Keyed? && attrs[i].key in allowed)
            && (forall i, j :: 0 <= i < j < |attrs| ==>
                  attrs[i].Keyed? && attrs[j].Keyed? ==> attrs[i].key != attrs[j].key)
  {
    if attrs != [] {
      var front := attrs[..|attrs| - 1];
      ValidateAttributesExact(front, allowed);
      assert forall i :: 0 <= i < |front| ==> front[i] == attrs[i];
    }
  }

  function Check(attrs: seq<Attr>, allowed: seq<Key>): Result<(), Error> {
    var fault := ValidateAttributes(attrs, allowed);
    if fault.Some? then Failure(fault.value) else Success(())
  }

  function Required(attrs: seq<Attr>, key: Key): Result<Expr, Error> {
    var a := Attribute(attrs, key);
    if a.None? then Failure(MissingAttribute(key)) else Success(a.value)
  }

  predicate Blank(s: string) {
    forall c :: c in s ==> c in " \t\n\r"
  }

  function CheckLeaf(tag: Tag, children: seq<Node>): Result<(), Error> {
    if children == [] then Success(())
    else if children[0].TextNode? && Blank(children[0].text) then CheckLeaf(tag, children[1..])
    else Failure(HasChildren(tag))
  }

  // ---------------------------------------------------------------- the macro: leaf elements

  /** `get_single_child_or_value`. */
  function TextContent(children: seq<Node>): Result<Content, Error> {
    if children == [] then Success(One(Lit(Str(""), true)))
    else if |children| == 1 && children[0].TextNode? then Success(One(Lit(Str(children[0].text), true)))
    else if |children| == 1 && children[0].BlockNode? then Success(One(children[0].e))
    else if exists i :: 0 <= i < |children| && !children[i].TextNode? && !children[i].BlockNode? then Failure(Misplaced)
    else Success(Format(Pieces(children)))
  }

  function ExpandTab(node: Node): Result<seq<Call>, Error>
    requires node.Element?
  {
    if !node.tag.TabTag? then Failure(Misplaced)
    else
      var _ :- Check(node.attrs, [Caption, Action, Active]);
      var _ :- CheckLeaf(node.tag, node.children);
      var caption :- Required(node.attrs, Caption);
      Success([PushTab(AttributeOr(node.attrs, Active, Flag(false)), caption,
                       AttributeOr(node.attrs, Action, Str("")))])
  }

  function ExpandButton(node: Node): Result<seq<Call>, Error>
    requires node.Element?
  {
    if !node.tag.ButtonTag? then Failure(Misplaced)
    else
      var _ :- Check(node.attrs, [Caption, Action]);
      var _ :- CheckLeaf(node.tag, node.children);
      var caption :- Required(node.attrs, Caption);
      var action :- Required(node.attrs, Action);
      Success([PushButton(caption, action)])
  }

  function ExpandListRow(node: Node): Result<seq<Call>, Error>
    requires node.Element?
  {
    if !node.tag.RowTag? then Failure(Misplaced)
    else
      var _ :- Check(node.attrs, [Title, Subtitle, Action]);
      var _ :- CheckLeaf(node.tag, node.children);
      var title :- Required(node.attrs, Title);
      Success([PushRow(title, AttributeOr(node.attrs, Subtitle, Str("")), AttributeOr(node.attrs, Action, Str("")))])
  }

  /** The text of a literal token the macro may print itself. */
  function LiteralText(e: Expr): Option<string> {
    if e.Lit? && e.foldable && (e.v.Str? || e.v.Num? || e.v.Flag?) then Some(Show(e.v)) else None
  }

  /** The `<option>` children of a dropdown, checked, as value and caption pairs. */
  function OptionPairs(children: seq<Node>): Result<seq<(Expr, Expr)>, Error> {
    if children == [] then Success([])
    else
      match children[0]
      case Element(OptionTag, attrs, inner) =>
        var _ :- Check(attrs, [Content, Caption]);
        var _ :- CheckLeaf(OptionTag, inner);
        var value :- Required(attrs, Content);
        var caption :- Required(attrs, Caption);
        var rest :- OptionPairs(children[1..]);
        Success([(value, caption)] + rest)
      case Element(_, _, _) => Failure(Misplaced)
      case TextNode(s) => if Blank(s) then OptionPairs(children[1..]) else Failure(Misplaced)
      case _ => Failure(Misplaced)
  }

  predicate AllLiteral(pairs: seq<(Expr, Expr)>) {
    forall i :: 0 <= i < |pairs| ==> LiteralText(pairs[i].0).Some? && LiteralText(pairs[i].1).Some?
  }

  /** `value:label` for each pair, joined by `#`. */
  function JoinLiterals(pairs: seq<(Expr, Expr)>): string
    requires AllLiteral(pairs)
  {
    if pairs == [] then ""
    else
      var first := LiteralText(pairs[0].0).value + ":" + LiteralText(pairs[0].1).value;
      if |pairs| == 1 then first else first + "#" + JoinLiterals(pairs[1..])
  }

  function ExpandOptions(pairs: seq<(Expr, Expr)>): Options {
    if AllLiteral(pairs) then
      var value := JoinLiterals(pairs);
      Printed(if value == "" then value else value + "#")
    else FormatPairs(pairs)
  }

  function ExpandDropdownRow(node: Node): Result<seq<Call>, Error>
    requires node.Element?
  {
    var _ :- Check(node.attrs, [Caption, Name, Selected]);
    var caption :- Required(node.attrs, Caption);
    var name :- Required(node.attrs, Name);
    var pairs :- OptionPairs(node.children);
    Success([PushDropdown(caption, ExpandOptions(pairs), name, AttributeOr(node.attrs, Selected, Num(0)))])
  }

  function ExpandFormRow(node: Node): Result<seq<Call>, Error>
    requires node.Element?
  {
    match node.tag
    case TextRowTag =>
      var _ :- Check(node.attrs, [Caption]);
      var _ :- CheckLeaf(node.tag, node.children);
      var caption :- Required(node.attrs, Caption);
      Success([PushText(caption)])
    case ToggleRowTag =>
      var _ :- Check(node.attrs, [Caption, Name, Active]);
      var _ :- CheckLeaf(node.tag, node.children);
      var caption :- Required(node.attrs, Caption);
      var name :- Required(node.attrs, Name);
      Success([PushToggle(caption, name, AttributeOr(node.attrs, Active, Flag(false)))])
    case UintRowTag =>
      var _ :- Check(node.attrs, [Caption, Name, Content]);
      var _ :- CheckLeaf(node.tag, node.children);
      var caption :- Required(node.attrs, Caption);
      var name :- Required(node.attrs, Name);
      Success([PushUint(caption, name, AttributeOr(node.attrs, Content, Num(0)))])
    case ButtonRowTag =>
      var _ :- Check(node.attrs, [Caption, BtnCaption, Action]);
      var _ :- CheckLeaf(node.tag, node.children);
      var caption :- Required(node.attrs, Caption);
      var button :- Required(node.attrs, BtnCaption);
      var action :- Required(node.attrs, Action);
      Success([PushButtonRow(caption, button, action)])
    case DropdownRowTag => ExpandDropdownRow(node)
    case _ => Failure(UnknownElement(node.tag))
  }

  function ExpandShape(node: Node): Result<seq<Call>, Error>
    requires node.Element?
  {
    match node.tag
    case RectTag =>
      var _ :- Check(node.attrs, [X, Y, W, H, Color]);
      var _ :- CheckLeaf(node.tag, node.children);
      var x :- Required(node.attrs, X);
      var y :- Required(node.attrs, Y);
      var w :- Required(node.attrs, W);
      var h :- Required(node.attrs, H);
      var color :- Required(node.attrs, Color);
      Success([PushRect(x, y, w, h, color)])
    case TeleportPointTag =>
      var _ :- Check(node.attrs, [X, Y, Action]);
      var _ :- CheckLeaf(node.tag, node.children);
      var x :- Required(node.attrs, X);
      var y :- Required(node.attrs, Y);
      var action :- Required(node.attrs, Action);
      Success([PushTeleport(x, y, action)])
    case _ => Failure(UnknownElement(node.tag))
  }

  function ExpandPart(parent: Tag, node: Node): Result<seq<Call>, Error>
    requires node.Element?
  {
    match parent
    case TabsTag => ExpandTab(node)
    case ButtonsTag => ExpandButton(node)
    case ListTag => ExpandListRow(node)
    case FormTag => ExpandFormRow(node)
    case _ => ExpandShape(node)
  }

  function ExpandParts(parent: Tag, children: seq<Node>): Result<seq<Call>, Error> {
    if children == [] then Success([])
    else if children[0].Element? then
      var first :- ExpandPart(parent, children[0]);
      var rest :- ExpandParts(parent, children[1..]);
      Success(first + rest)
    else if children[0].TextNode? && Blank(children[0].text) then ExpandParts(parent, children[1..])
    else Failure(Misplaced)
  }

  /** `expand_node`: the calls a leaf node adds to the chain. */
  function ExpandNode(node: Node): Result<seq<Call>, Error> {
    match node
    case TextNode(s) => Success([SetText(One(Lit(Str(s), true)))])
    case BlockNode(e) => Success([SetText(One(e))])
    case OtherNode => Success([])
    case Element(tag, attrs, children) =>
      match tag
      case TextTag =>
        var _ :- Check(attrs, []);
        var content :- TextContent(children);
        Success([SetText(content)])
      case TabsTag => var _ :- Check(attrs, []); ExpandParts(tag, children)
      case ButtonsTag => var _ :- Check(attrs, []); ExpandParts(tag, children)
      case ListTag => var _ :- Check(attrs, []); ExpandParts(tag, children)
      case FormTag => var _ :- Check(attrs, []); ExpandParts(tag, children)
      case CanvasTag =>
        var _ :- Check(attrs, [Style]);
        var parts :- ExpandParts(tag, children);
        var style := Attribute(attrs, Style);
        Success((if style.Some? then [Css(style.value)] else []) + parts)
      case InputTag =>
        var _ :- Check(attrs, [Placeholder, FocusConsole]);
        var _ :- CheckLeaf(tag, children);
        var placeholder :- Required(attrs, Placeholder);
        Success([SetInput(placeholder, AttributeOr(attrs, FocusConsole, Flag(false)))])
      case CardTag =>
        var _ :- Check(attrs, [Content]);
        var _ :- CheckLeaf(tag, children);
        var value :- Required(attrs, Content);
        Success([SetCard(value)])
      case InventoryTag =>
        var _ :- Check(attrs, [Content]);
        var _ :- CheckLeaf(tag, children);
        var value :- Required(attrs, Content);
        Success([SetInventory(value)])
      case AdminTag =>
        var _ :- Check(attrs, [Enabled]);
        var _ :- CheckLeaf(tag, children);
        Success([SetAdmin(AttributeOr(attrs, Enabled, Flag(true)))])
      case CrystalsTag =>
        var _ :- Check(attrs, [Left, Right, Buy, Lines]);
        var _ :- CheckLeaf(tag, children);
        var left :- Required(attrs, Left);
        var right :- Required(attrs, Right);
        var lines :- Required(attrs, Lines);
        Success([SetCrystals(left, right, AttributeOr(attrs, Buy, Flag(false)), lines)])
      case CloseButtonTag =>
        var _ :- Check(attrs, []);
        var _ :- CheckLeaf(tag, children);
        Success([PushClose])
      case MinimapTag =>
        var _ :- Check(attrs, [CenterX, CenterY, Radius, CellEmpty, Markers]);
        var _ :- CheckLeaf(tag, children);
        var centerX :- Required(attrs, CenterX);
        var centerY :- Required(attrs, CenterY);
        var radius :- Required(attrs, Radius);
        var cellEmpty :- Required(attrs, CellEmpty);
        var markers :- Required(attrs, Markers);
        Success([DrawMinimap([centerX, centerY, radius, cellEmpty, markers])])
      case _ => Failure(UnknownElement(tag))
  }

  // ---------------------------------------------------------------- the macro: trees

  function Chain(builder: Target, calls: seq<Call>): Target
    decreases calls
  {
    if calls == [] then builder else Chain(Method(builder, calls[0]), calls[1..])
  }

  /** `expand_for`. */
  function ExpandFor(attrs: seq<Attr>, children: seq<Node>, builder: Target): Result<Target, Error>
    decreases children, 2
  {
    var _ :- Check(attrs, [Each, Item]);
    var each :- Required(attrs, Each);
    var item :- Required(attrs, Item);
    if !item.Var? then Failure(ItemNotIdentifier)
    else
      var body :- ExpandChildren(children, Current);
      Success(Fold(each, builder, item.name, body))
  }

  /** `expand_if`. */
  function ExpandIf(attrs: seq<Attr>, children: seq<Node>, builder: Target): Result<Target, Error>
    decreases children, 2
  {
    var _ :- Check(attrs, [Condition]);
    var condition :- Required(attrs, Condition);
    var body :- ExpandChildren(children, builder);
    Success(IfElse(condition, body, Block(builder)))
  }

  function ExpandLeaf(node: Node, builder: Target): Result<Target, Error> {
    var calls :- ExpandNode(node);
    Success(Chain(builder, calls))
  }

  /** One child appended to the builder written so far. */
  function ExpandChild(node: Node, builder: Target): Result<Target, Error>
    decreases node, 3
  {
    if node.Element? && node.tag.ForTag? then ExpandFor(node.attrs, node.children, builder)
    else if node.Element? && node.tag.IfTag? then ExpandIf(node.attrs, node.children, builder)
    else ExpandLeaf(node, builder)
  }

  function ExpandSeq(nodes: seq<Node>, builder: Target): Result<Target, Error>
    decreases nodes, 0
  {
    if nodes == [] then Success(builder)
    else
      var next :- ExpandChild(nodes[0], builder);
      ExpandSeq(nodes[1..], next)
  }

  /** `expand_window_children`. */
  function ExpandChildren(nodes: seq<Node>, builder: Target): Result<Target, Error>
    decreases nodes, 1
  {
    var t :- ExpandSeq(nodes, builder);
    Success(Block(t))
  }

  /** `expand_root`. */
  function ExpandRoot(root: Node): Result<Target, Error> {
    if !root.Element? || !root.tag.WindowTag? then Failure(NotWindow)
    else
      var _ :- Check(root.attrs, [Title, Style]);
      var title :- Required(root.attrs, Title);
      var style := Attribute(root.attrs, Style);
      ExpandChildren(root.children, if style.None? then New(title) else Method(New(title), Css(style.value)))
  }

  /** The loop of `expand_window_children`, with the two forms that call back into it. */
  method ExpandWindowChildren(nodes: seq<Node>, start: Target) returns (r: Result<Target, Error>)
    ensures r == ExpandChildren(nodes, start)
    decreases nodes, 1
  {
    var builder := start;
    for i := 0 to |nodes|
      invariant ExpandSeq(nodes, start) == ExpandSeq(nodes[i..], builder)
    {
      assert nodes[i..][1..] == nodes[i + 1..];
      var node := nodes[i];
      var next: Result<Target, Error>;
      if node.Element? && node.tag.ForTag? {
        next := ExpandForElement(node.attrs, node.children, builder);
      } else if node.Element? && node.tag.IfTag? {
        next := ExpandIfElement(node.attrs, node.children, builder);
      } else {
        next := ExpandLeaf(node, builder);
      }
      if next.Failure? { return Failure(next.error); }
      builder := next.value;
    }
    r := Success(Block(builder));
  }

  method ExpandForElement(attrs: seq<Attr>, children: seq<Node>, builder: Target) returns (r: Result<Target, Error>)
    ensures r == ExpandFor(attrs, children, builder)
    decreases children, 2
  {
    var checked := Check(attrs, [Each, Item]);
    if checked.Failure? { return Failure(checked.error); }
    var each, item := Required(attrs, Each), Required(attrs, Item);
    if each.Failure? { return Failure(each.error); }
    if item.Failure? { return Failure(item.error); }
    if !item.value.Var? { return Failure(ItemNotIdentifier); }
    var body := ExpandWindowChildren(children, Current);
    r := if body.Failure? then body else Success(Fold(each.value, builder, item.value.name, body.value));
  }

  method ExpandIfElement(attrs: seq<Attr>, children: seq<Node>, builder: Target) returns (r: Result<Target, Error>)
    ensures r == ExpandIf(attrs, children, builder)
    decreases children, 2
  {
    var checked := Check(attrs, [Condition]);
    if checked.Failure? { return Failure(checked.error); }
    var condition := Required(attrs, Condition);
    if condition.Failure? { return Failure(condition.error); }
    var body := ExpandWindowChildren(children, builder);
    r := if body.Failure? then body else Success(IfElse(condition.value, body.value, Block(builder)));
  }

  /** The loop of `expand_dropdown_row`: option pairs, their literal texts as far as there are any,
      and whether all are literal; then the one string or the one `format!`. */
  method ExpandDropdownOptions(children: seq<Node>) returns (r: Result<Options, Error>)
    ensures r == var pairs := OptionPairs(children);
                 if pairs.Failure? then Failure(pairs.error) else Success(ExpandOptions(pairs.value))
  {
    var options: seq<(Expr, Expr)> := [];
    var literals: seq<string> := [];
    var allLiteral := true;
    assert children[0..] == children;
    PrefixedEmpty(OptionPairs(children));
    for i := 0 to |children|
      invariant OptionPairs(children) == Prefixed(options, OptionPairs(children[i..]))
      invariant allLiteral == AllLiteral(options)
      invariant allLiteral ==> literals == LiteralPairs(options)
    {
      assert children[i..][1..] == children[i + 1..];
      match children[i]
      case Element(OptionTag, attrs, inner) =>
        var checked, leaf := Check(attrs, [Content, Caption]), CheckLeaf(OptionTag, inner);
        if checked.Failure? { return Failure(checked.error); }
        if leaf.Failure? { return Failure(leaf.error); }
        var value, caption := Required(attrs, Content), Required(attrs, Caption);
        if value.Failure? { return Failure(value.error); }
        if caption.Failure? { return Failure(caption.error); }
        PrefixedStep(options, (value.value, caption.value), OptionPairs(children[i + 1..]));
        options := options + [(value.value, caption.value)];
        var v, c := LiteralText(value.value), LiteralText(caption.value);
        assert options[..|options| - 1] + [options[|options| - 1]] == options;
        AllLiteralAppend(options[..|options| - 1], (value.value, caption.value));
        if v.Some? && c.Some? {
          literals := literals + [v.value + ":" + c.value];
        } else {
          allLiteral := false;
        }
      case TextNode(s) => if !Blank(s) { return Failure(Misplaced); }
      case _ => return Failure(Misplaced);
    }
    assert options + [] == options;
    if allLiteral {
      JoinIsJoin(options);
      var value := Join(literals);
      r := Success(Printed(if value == "" then value else value + "#"));
    } else {
      r := Success(FormatPairs(options));
    }
  }

  function Prefixed(front: seq<(Expr, Expr)>, rest: Result<seq<(Expr, Expr)>, Error>):
    Result<seq<(Expr, Expr)>, Error> {
    if rest.Failure? then rest else Success(front + rest.value)
  }

  lemma PrefixedEmpty(rest: Result<seq<(Expr, Expr)>, Error>)
    ensures Prefixed([], rest) == rest
  {
    if rest.Success? {
      assert [] + rest.value == rest.value;
    }
  }

  lemma AllLiteralAppend(pairs: seq<(Expr, Expr)>, p: (Expr, Expr))
    ensures AllLiteral(pairs + [p]) <==> AllLiteral(pairs) && LiteralText(p.0).Some? && LiteralText(p.1).Some?
  {
    var all := pairs + [p];
    assert all[|pairs|] == p;
    if AllLiteral(all) {
      forall i | 0 <= i < |pairs|
        ensures LiteralText(pairs[i].0).Some? && LiteralText(pairs[i].1).Some?
      {
        assert all[i] == pairs[i];
      }
    }
  }

  lemma PrefixedStep(front: seq<(Expr, Expr)>, p: (Expr, Expr), rest: Result<seq<(Expr, Expr)>, Error>)
    ensures Prefixed(front, if rest.Failure? then rest else Success([p] + rest.value)) == Prefixed(front + [p], rest)
  {
    if rest.Success? {
      assert front + ([p] + rest.value) == front + [p] + rest.value;
    }
  }

  function LiteralPairs(pairs: seq<(Expr, Expr)>): (r: seq<string>)
    requires AllLiteral(pairs)
    ensures |r| == |pairs|
  {
    seq(|pairs|, i requires 0 <= i < |pairs| => LiteralText(pairs[i].0).value + ":" + LiteralText(pairs[i].1).value)
  }

  /** `join("#")`. */
  function Join(parts: seq<string>): string {
    if parts == [] then "" else if |parts| == 1 then parts[0] else parts[0] + "#" + Join(parts[1..])
  }

  lemma {:induction false} JoinIsJoin(pairs: seq<(Expr, Expr)>)
    requires AllLiteral(pairs)
    ensures Join(LiteralPairs(pairs)) == JoinLiterals(pairs)
  {
    if |pairs| > 1 {
      JoinIsJoin(pairs[1..]);
      assert LiteralPairs(pairs)[1..] == LiteralPairs(pairs[1..]);
    }
  }
}
