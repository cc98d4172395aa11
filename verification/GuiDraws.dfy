/** What each element of an accepted window does to the window that the macro's code builds, in terms of
    the attributes as they are written in the markup. */
module GuiDraws {
  import opened Wrappers
  import opened GuiDocument
  import opened GuiExpressions
  import opened GuiMarkup
  import opened GuiCompiler
  import opened GuiCorrectness
  import opened GuiAccepted

  /** Where a node is compiled: after any builder, in any program. */
  datatype Place = Place(builder: Target, env: Env, host: Host) {
    /** The window so far, and the evaluations made for it. */
    function Now(): Outcome { Run(builder, env, host) }

    function Of(e: Expr): Value { Eval(e, env, host) }

    function Made(es: seq<Expr>): seq<Observation> { SeenAll(es, env, host) }
  }

  /** The node is accepted; window and evaluations after it. */
  predicate Fits(node: Node, p: Place) {
    ExpandChild(node, p.builder).Success?
  }

  function After(node: Node, p: Place): Outcome
    requires Fits(node, p)
  {
    Run(ExpandChild(node, p.builder).value, p.env, p.host)
  }

  /** A change of the window, and the expressions evaluated for it in this order. */
  function Then(o: Outcome, h: Horb, es: seq<Expr>, p: Place): Outcome {
    Outcome(h, o.trace + p.Made(es))
  }

  /** What an optional attribute is: its value, or the default when there is none. */
  ghost predicate Is(attrs: seq<Attr>, key: Key, default: Value, e: Expr) {
    Keyed(key, Some(e)) in attrs || ((forall other :: Keyed(key, Some(other)) !in attrs) && e == Lit(default, true))
  }

  lemma Reads(attrs: seq<Attr>, allowed: seq<Key>, key: Key, default: Value, e: Expr)
    requires Check(attrs, allowed).Success? && Is(attrs, key, default, e)
    ensures AttributeOr(attrs, key, default) == e
  {
    OptionalExactly(attrs, allowed, key, default, e);
  }

  // ---------------------------------------------------------------- values and their text

  /** An evaluation is recorded with its value; literals evaluate nothing. */
  lemma {:induction false} MadeInOrder(front: seq<Expr>, e: Expr, p: Place)
    ensures p.Made([]) == []
    ensures p.Made(front + [e]) == p.Made(front) + if e.Lit? then [] else [Observation(e, p.Of(e))]
    ensures e.Lit? ==> p.Of(e) == e.v
    decreases front
  {
    if front == [] {
      assert [] + [e] == [e] && [e][1..] == [];
    } else {
      assert (front + [e])[1..] == front[1..] + [e];
      MadeInOrder(front[1..], e, p);
    }
  }

  lemma {:induction false} MadeConcat(a: seq<Expr>, b: seq<Expr>, p: Place)
    ensures p.Made(a + b) == p.Made(a) + p.Made(b)
  {
    if a == [] {
      assert a + b == b;
    } else {
      assert (a + b)[1..] == a[1..] + b;
      MadeConcat(a[1..], b, p);
    }
  }

  /** Names are looked up in the program around, operations get the values of their arguments in order. */
  lemma ValuesOf(name: string, op: string, args: seq<Expr>, p: Place)
    ensures name in p.env ==> p.Of(Var(name)) == p.env[name]
    ensures p.Of(Apply(op, args)) == p.host.apply(op, seq(|args|, i requires 0 <= i < |args| => p.Of(args[i])))
  {
    assert EvalAll(args, p.env, p.host) == seq(|args|, i requires 0 <= i < |args| => p.Of(args[i]));
  }

  function Numeral(s: string): int {
    if s == [] then 0 else 10 * Numeral(s[..|s| - 1]) + (s[|s| - 1] as int - 48)
  }

  /** Base ten, most significant digit first, no digit wasted. */
  lemma {:induction false} DigitsRead(n: nat)
    ensures Numeral(Digits(n)) == n && |Digits(n)| >= 1 && (Digits(n)[0] == '0' ==> n == 0)
    ensures forall i :: 0 <= i < |Digits(n)| ==> 48 <= Digits(n)[i] as int <= 57
  {
    var s := Digits(n);
    if n < 10 {
      assert s[..0] == [];
    } else {
      DigitsRead(n / 10);
      assert s[..|s| - 1] == Digits(n / 10);
    }
  }

  lemma TextsOf(s: string, n: int, b: bool)
    ensures Show(Str(s)) == s
    ensures Show(Flag(b)) == if b then "true" else "false"
    ensures n >= 0 ==> Numeral(Show(Num(n))) == n && (Show(Num(n))[0] == '0' ==> n == 0)
    ensures n < 0 ==> |Show(Num(n))| >= 1 && Show(Num(n))[0] == '-' && Show(Num(n))[1..] == Show(Num(-n))
    ensures n >= 0 ==> forall i :: 0 <= i < |Show(Num(n))| ==> 48 <= Show(Num(n))[i] as int <= 57
  {
    DigitsRead(if n < 0 then -n else n);
  }

  // ---------------------------------------------------------------- the window and its children

  /** A window starts with its title, and its style if it has one, and nothing else; its children follow. */
  lemma WindowDraws(root: Node, title: Expr, env: Env, host: Host) returns (p: Place)
    requires root.Element? && ExpandRoot(root).Success? && Keyed(Title, Some(title)) in root.attrs
    ensures p.env == env && p.host == host
    ensures p.Now().h.title == Show(p.Of(title))
    ensures forall style :: Keyed(Style, Some(style)) in root.attrs ==>
              p.Now().h.css == Show(p.Of(style)) && p.Now().trace == p.Made([title, style])
    ensures (forall style :: Keyed(Style, Some(style)) !in root.attrs) ==>
              p.Now().h.css == "" && p.Now().trace == p.Made([title])
    ensures var h := p.Now().h;
            && h.text == h.crystalLeft == h.crystalRight == h.card == h.inventory == h.inputPlaceholder == ""
            && h.buttons == [] && h.tabs == [] && h.list == [] && h.richList == [] && h.crystalLines == []
            && h.canvas == [] && !h.admin && !h.crystalBuy && !h.inputConsole
    ensures ExpandSeq(root.children, p.builder).Success?
    ensures Run(ExpandRoot(root).value, env, host) == Run(ExpandSeq(root.children, p.builder).value, env, host)
  {
    hide ExpandSeq, Eval, Show, Check, Seen, SeenAll;
    var attrs := root.attrs;
    OptionalExactly(attrs, [Title, Style], Title, Str(""), title);
    var style := Attribute(attrs, Style);
    p := Place(if style.None? then New(title) else Method(New(title), Css(style.value)), env, host);
    StartMeans(title, style, env, host);
    NotFound(attrs, Style);
    MadeOne(title, p);
    if style.Some? {
      MadeTwo(title, style.value, p);
    }
    forall e | Keyed(Style, Some(e)) in attrs
      ensures style == Some(e)
    {
      OptionalExactly(attrs, [Title, Style], Style, Str(""), e);
    }
  }

  lemma MadeOne(a: Expr, p: Place)
    ensures p.Made([a]) == Seen(a, p.env, p.host)
  {
    assert [a][1..] == [] && SeenAll([], p.env, p.host) == [];
    assert p.Made([a]) == Seen(a, p.env, p.host) + SeenAll([], p.env, p.host);
  }

  lemma MadeTwo(a: Expr, b: Expr, p: Place)
    ensures p.Made([a, b]) == Seen(a, p.env, p.host) + Seen(b, p.env, p.host)
  {
    hide Seen;
    MadeOne(b, p);
    assert [a, b][1..] == [b];
  }

  /** Children come one after the other, each after the window of those before it. */
  lemma {:induction false} ChildrenInOrder(front: seq<Node>, node: Node, p: Place)
    requires ExpandSeq(front + [node], p.builder).Success?
    ensures ExpandSeq(front, p.builder).Success?
    ensures var p1 := Place(ExpandSeq(front, p.builder).value, p.env, p.host);
            Fits(node, p1) && Run(ExpandSeq(front + [node], p.builder).value, p.env, p.host) == After(node, p1)
    ensures ExpandSeq([], p.builder) == Success(p.builder)
    decreases front
  {
    hide ExpandChild, Run;
    if front == [] {
      assert [] + [node] == [node] && [node][1..] == [];
    } else {
      assert (front + [node])[1..] == front[1..] + [node];
      ChildrenInOrder(front[1..], node, Place(ExpandChild(front[0], p.builder).value, p.env, p.host));
    }
  }

  lemma IfCode(attrs: seq<Attr>, children: seq<Node>, condition: Expr, builder: Target)
    requires ExpandIf(attrs, children, builder).Success? && Required(attrs, Condition) == Success(condition)
    ensures ExpandSeq(children, builder).Success?
    ensures ExpandIf(attrs, children, builder).value
         == IfElse(condition, Block(ExpandSeq(children, builder).value), Block(builder))
  {
    hide ExpandSeq, Check, Required;
    assert ExpandChildren(children, builder).Success?;
  }

  lemma ForCode(attrs: seq<Attr>, children: seq<Node>, each: Expr, item: string, builder: Target)
    requires ExpandFor(attrs, children, builder).Success?
    requires Required(attrs, Each) == Success(each) && Required(attrs, Item) == Success(Var(item))
    ensures ExpandSeq(children, Current).Success?
    ensures ExpandFor(attrs, children, builder).value
         == Fold(each, builder, item, Block(ExpandSeq(children, Current).value))
  {
    hide ExpandSeq, Check, Required;
    assert ExpandChildren(children, Current).Success?;
  }

  /** A condition shows its children or nothing, and is evaluated first. */
  lemma IfDraws(attrs: seq<Attr>, children: seq<Node>, condition: Expr, p: Place)
    requires Fits(Element(IfTag, attrs, children), p) && Keyed(Condition, Some(condition)) in attrs
    ensures ExpandSeq(children, p.builder).Success?
    ensures var branch := if p.Of(condition) == Flag(true) then Run(ExpandSeq(children, p.builder).value, p.env, p.host)
                          else p.Now();
            After(Element(IfTag, attrs, children), p) == Outcome(branch.h, p.Made([condition]) + branch.trace)
  {
    hide Eval;
    assert ExpandChild(Element(IfTag, attrs, children), p.builder) == ExpandIf(attrs, children, p.builder);
    OptionalExactly(attrs, [Condition], Condition, Flag(false), condition);
    IfCode(attrs, children, condition, p.builder);
    MadeOne(condition, p);
    ChoiceMeans(condition, ExpandSeq(children, p.builder).value, p.builder, p.env, p.host);
  }

  /** A loop shows its children once for every item, in the order of the list, which is evaluated first:
      there is a window for each round, and the children make the next one from it. */
  lemma ForDraws(attrs: seq<Attr>, children: seq<Node>, each: Expr, item: string, xs: seq<Value>, p: Place)
    returns (rounds: seq<Outcome>)
    requires Fits(Element(ForTag, attrs, children), p)
    requires Keyed(Each, Some(each)) in attrs && Keyed(Item, Some(Var(item))) in attrs && p.Of(each) == List(xs)
    ensures ExpandSeq(children, Current).Success?
    ensures |rounds| == |xs| + 1 && rounds[0] == Outcome(p.Now().h, p.Made([each]) + p.Now().trace)
    ensures rounds[|xs|] == After(Element(ForTag, attrs, children), p)
    ensures forall i :: 0 <= i < |xs| ==>
              Round(ExpandSeq(children, Current).value, item, xs[i], rounds[i], rounds[i + 1], p)
  {
    hide Eval;
    assert ExpandChild(Element(ForTag, attrs, children), p.builder) == ExpandFor(attrs, children, p.builder);
    OptionalExactly(attrs, [Each, Item], Each, List([]), each);
    OptionalExactly(attrs, [Each, Item], Item, List([]), Var(item));
    ForCode(attrs, children, each, item, p.builder);
    MadeOne(each, p);
    var body := ExpandSeq(children, Current).value;
    LoopMeans(each, p.builder, item, Block(body), p.env, p.host);
    rounds := Rounds(body, item, xs, p, Outcome(p.Now().h, p.Made([each]) + p.Now().trace));
  }

  /** One round: the children of the loop, with the window so far as their builder and the item bound. */
  predicate Round(body: Target, item: string, x: Value, before: Outcome, after: Outcome, p: Place) {
    var r := Run(body, p.env[CURRENT := Window(before.h)][item := x], p.host);
    after == Outcome(r.h, before.trace + r.trace)
  }

  lemma {:induction false} Rounds(body: Target, item: string, xs: seq<Value>, p: Place, start: Outcome)
    returns (rounds: seq<Outcome>)
    ensures |rounds| == |xs| + 1 && rounds[0] == start
    ensures var all := RunFold(Block(body), item, xs, p.env, p.host, start.h);
            rounds[|xs|] == Outcome(all.h, start.trace + all.trace)
    ensures forall i :: 0 <= i < |xs| ==> Round(body, item, xs[i], rounds[i], rounds[i + 1], p)
    decreases |xs|
  {
    if xs == [] {
      rounds := [start];
      assert start.trace + [] == start.trace;
    } else {
      var first := Run(Block(body), p.env[CURRENT := Window(start.h)][item := xs[0]], p.host);
      var next := Outcome(first.h, start.trace + first.trace);
      var rest := Rounds(body, item, xs[1..], p, next);
      rounds := [start] + rest;
      var all := RunFold(Block(body), item, xs[1..], p.env, p.host, first.h);
      assert start.trace + first.trace + all.trace == start.trace + (first.trace + all.trace);
      assert Round(body, item, xs[0], rounds[0], rounds[1], p);
      forall i | 0 <= i < |xs|
        ensures Round(body, item, xs[i], rounds[i], rounds[i + 1], p)
      {
        assert i == 0 || Round(body, item, xs[1..][i - 1], rest[i - 1], rest[i], p);
      }
    }
  }

  // ---------------------------------------------------------------- leaves

  lemma LeafAfter(node: Node, p: Place)
    requires Fits(node, p) && (node.Element? ==> !node.tag.ForTag? && !node.tag.IfTag?)
    ensures ExpandNode(node).Success?
    ensures var d := DrawLeaf(node, p.env, p.host, p.Now().h);
            After(node, p) == Outcome(d.h, p.Now().trace + d.trace)
  {
    hide ExpandNode, DrawLeaf;
    NodeMeans(node, p.env, p.host, p.Now().h);
    RunChain(p.builder, ExpandNode(node).value, p.env, p.host);
  }

  /** Bare text and code set the window's text, comments do nothing. */
  lemma BareDraws(s: string, e: Expr, p: Place)
    ensures Fits(TextNode(s), p) && After(TextNode(s), p) == Then(p.Now(), p.Now().h.(text := s), [], p)
    ensures Fits(BlockNode(e), p)
         && After(BlockNode(e), p) == Then(p.Now(), p.Now().h.(text := Show(p.Of(e))), [e], p)
    ensures Fits(OtherNode, p) && After(OtherNode, p) == p.Now()
  {
    hide Eval, Show;
    LeafAfter(TextNode(s), p);
    LeafAfter(BlockNode(e), p);
    LeafAfter(OtherNode, p);
    MadeOne(e, p);
    assert p.Now().trace + [] == p.Now().trace;
  }

  /** What a `<text>` with these children shows. */
  function Words(children: seq<Node>, p: Place): string {
    ShowPieces(Pieces(children), p.env, p.host)
  }

  lemma {:induction false} ConcatAppend(ss: seq<string>, s: string)
    ensures Concat(ss + [s]) == Concat(ss) + s
  {
    if ss == [] {
      assert [] + [s] == [s] && [s][1..] == [];
    } else {
      assert (ss + [s])[1..] == ss[1..] + [s];
      ConcatAppend(ss[1..], s);
      assert ss[0] + (Concat(ss[1..]) + s) == ss[0] + Concat(ss[1..]) + s;
    }
  }

  lemma {:induction false} PiecesAppend(children: seq<Node>, node: Node)
    ensures Pieces(children + [node]) ==
            Pieces(children) + match node case TextNode(s) => [Lit(Str(s), true)] case BlockNode(e) => [e] case _ => []
  {
    if children == [] {
      assert [] + [node] == [node] && [node][1..] == [] && Pieces([]) == [];
    } else {
      assert (children + [node])[1..] == children[1..] + [node];
      PiecesAppend(children[1..], node);
    }
  }

  lemma WordAdded(es: seq<Expr>, e: Expr, p: Place)
    ensures ShowPieces(es + [e], p.env, p.host) == ShowPieces(es, p.env, p.host) + Show(p.Of(e))
  {
    hide Eval, Show;
    var before, after := ShowAll(EvalAll(es, p.env, p.host)), ShowAll(EvalAll(es + [e], p.env, p.host));
    assert after == before + [Show(p.Of(e))];
    ConcatAppend(before, Show(p.Of(e)));
  }

  /** A text shows its pieces one after the other. */
  lemma TextDraws(children: seq<Node>, s: string, e: Expr, p: Place)
    requires Fits(Element(TextTag, [], children), p)
    ensures After(Element(TextTag, [], children), p)
         == Then(p.Now(), p.Now().h.(text := Words(children, p)), Pieces(children), p)
    ensures Pieces([]) == [] && Pieces(children + [BlockNode(e)]) == Pieces(children) + [e]
    ensures Words([], p) == ""
    ensures Words(children + [TextNode(s)], p) == Words(children, p) + s
    ensures Words(children + [BlockNode(e)], p) == Words(children, p) + Show(p.Of(e))
  {
    hide ShowPieces, ExpandNode;
    LeafAfter(Element(TextTag, [], children), p);
    NoWords(p);
    PiecesAppend(children, TextNode(s));
    PiecesAppend(children, BlockNode(e));
    WordAdded(Pieces(children), Lit(Str(s), true), p);
    WordAdded(Pieces(children), e, p);
  }

  lemma NoWords(p: Place)
    ensures Words([], p) == ""
  {
  }

  /** An input has its placeholder, and the focus only when it says so. */
  lemma InputDraws(attrs: seq<Attr>, children: seq<Node>, placeholder: Expr, focus: Expr, p: Place)
    requires Fits(Element(InputTag, attrs, children), p)
    requires Keyed(Placeholder, Some(placeholder)) in attrs
    requires Is(attrs, FocusConsole, Flag(false), focus)
    ensures After(Element(InputTag, attrs, children), p) ==
            Then(p.Now(), p.Now().h.(inputPlaceholder := Show(p.Of(placeholder)),
                                     inputConsole := p.Of(focus) == Flag(true)),
                 [placeholder, focus], p)
  {
    hide Eval, Show, Is;
    LeafAfter(Element(InputTag, attrs, children), p);
    OptionalExactly(attrs, [Placeholder, FocusConsole], Placeholder, Str(""), placeholder);
    Reads(attrs, [Placeholder, FocusConsole], FocusConsole, Flag(false), focus);
  }

  /** A card shows its value. */
  lemma CardDraws(attrs: seq<Attr>, children: seq<Node>, value: Expr, p: Place)
    requires Fits(Element(CardTag, attrs, children), p)
    requires Keyed(Content, Some(value)) in attrs
    ensures After(Element(CardTag, attrs, children), p) ==
            Then(p.Now(), p.Now().h.(card := Show(p.Of(value))),
                 [value], p)
  {
    hide Eval, Show, Is;
    MadeOne(value, p);
    LeafAfter(Element(CardTag, attrs, children), p);
    OptionalExactly(attrs, [Content], Content, Str(""), value);
  }

  /** An inventory shows its value. */
  lemma InventoryDraws(attrs: seq<Attr>, children: seq<Node>, value: Expr, p: Place)
    requires Fits(Element(InventoryTag, attrs, children), p)
    requires Keyed(Content, Some(value)) in attrs
    ensures After(Element(InventoryTag, attrs, children), p) ==
            Then(p.Now(), p.Now().h.(inventory := Show(p.Of(value))),
                 [value], p)
  {
    hide Eval, Show, Is;
    MadeOne(value, p);
    LeafAfter(Element(InventoryTag, attrs, children), p);
    OptionalExactly(attrs, [Content], Content, Str(""), value);
  }

  /** Administrators are shown their part unless it is switched off. */
  lemma AdminDraws(attrs: seq<Attr>, children: seq<Node>, enabled: Expr, p: Place)
    requires Fits(Element(AdminTag, attrs, children), p)
    requires Is(attrs, Enabled, Flag(true), enabled)
    ensures After(Element(AdminTag, attrs, children), p) ==
            Then(p.Now(), p.Now().h.(admin := p.Of(enabled) == Flag(true)),
                 [enabled], p)
  {
    hide Eval, Show, Is;
    MadeOne(enabled, p);
    LeafAfter(Element(AdminTag, attrs, children), p);
    Reads(attrs, [Enabled], Enabled, Flag(true), enabled);
  }

  function Texts(xs: seq<Value>): seq<string> {
    seq(|xs|, i requires 0 <= i < |xs| => Show(xs[i]))
  }

  /** Crystals have two captions, their lines, and are for sale when that is said. */
  lemma CrystalsDraws(attrs: seq<Attr>, children: seq<Node>, left: Expr, right: Expr, lines: Expr, buy: Expr,
                      xs: seq<Value>, p: Place)
    requires Fits(Element(CrystalsTag, attrs, children), p)
    requires Keyed(Left, Some(left)) in attrs
    requires Keyed(Right, Some(right)) in attrs
    requires Keyed(Lines, Some(lines)) in attrs
    requires Is(attrs, Buy, Flag(false), buy)
    requires p.Of(lines) == List(xs)
    ensures After(Element(CrystalsTag, attrs, children), p) ==
            Then(p.Now(), p.Now().h.(crystalLeft := Show(p.Of(left)), crystalRight := Show(p.Of(right)),
                                     crystalBuy := p.Of(buy) == Flag(true), crystalLines := Texts(xs)),
                 [left, right, buy, lines], p)
  {
    hide Eval, Show, Is;
    assert ShowAll(xs) == Texts(xs);
    LeafAfter(Element(CrystalsTag, attrs, children), p);
    OptionalExactly(attrs, [Left, Right, Buy, Lines], Left, Str(""), left);
    OptionalExactly(attrs, [Left, Right, Buy, Lines], Right, Str(""), right);
    OptionalExactly(attrs, [Left, Right, Buy, Lines], Lines, List([]), lines);
    Reads(attrs, [Left, Right, Buy, Lines], Buy, Flag(false), buy);
  }

  /** A close button is the button that leaves the window. */
  lemma CloseDraws(attrs: seq<Attr>, children: seq<Node>, p: Place)
    requires Fits(Element(CloseButtonTag, attrs, children), p)
    ensures After(Element(CloseButtonTag, attrs, children), p) ==
            Then(p.Now(), p.Now().h.(buttons := p.Now().h.buttons + [Button("ВЫЙТИ", "exit")]), [], p)
  {
    LeafAfter(Element(CloseButtonTag, attrs, children), p);
  }

  /** A minimap draws what the program around draws for its centre, radius, colour and markers. */
  lemma MinimapDraws(attrs: seq<Attr>, children: seq<Node>, x: Expr, y: Expr, radius: Expr, empty: Expr, markers: Expr,
                     p: Place)
    requires Fits(Element(MinimapTag, attrs, children), p)
    requires Keyed(CenterX, Some(x)) in attrs && Keyed(CenterY, Some(y)) in attrs
    requires Keyed(Radius, Some(radius)) in attrs
    requires Keyed(CellEmpty, Some(empty)) in attrs && Keyed(Markers, Some(markers)) in attrs
    ensures var (drawn, css) := p.host.minimap([p.Of(x), p.Of(y), p.Of(radius), p.Of(empty), p.Of(markers)]);
            After(Element(MinimapTag, attrs, children), p) ==
            Then(p.Now(), p.Now().h.(canvas := p.Now().h.canvas + drawn, css := css), [x, y, radius, empty, markers], p)
  {
    hide Eval, Show, Check, Fits, After, PaintElement, MinimapArguments, ExpandNode;
    LeafAfter(Element(MinimapTag, attrs, children), p);
    MinimapReads(attrs, children, x, y, radius, empty, markers);
    FiveValues(x, y, radius, empty, markers, p);
    MinimapPaints(attrs, children, p, p.Now().h);
  }

  lemma MinimapPaints(attrs: seq<Attr>, children: seq<Node>, p: Place, h: Horb)
    ensures var (drawn, css) := p.host.minimap(EvalAll(MinimapArguments(attrs), p.env, p.host));
            PaintElement(MinimapTag, attrs, children, p.env, p.host, h) ==
            Outcome(h.(canvas := h.canvas + drawn, css := css), p.Made(MinimapArguments(attrs)))
  {
  }

  lemma MinimapReads(attrs: seq<Attr>, children: seq<Node>, x: Expr, y: Expr, radius: Expr, empty: Expr, markers: Expr)
    requires ExpandNode(Element(MinimapTag, attrs, children)).Success?
    requires Keyed(CenterX, Some(x)) in attrs && Keyed(CenterY, Some(y)) in attrs
    requires Keyed(Radius, Some(radius)) in attrs
    requires Keyed(CellEmpty, Some(empty)) in attrs && Keyed(Markers, Some(markers)) in attrs
    ensures MinimapArguments(attrs) == [x, y, radius, empty, markers]
  {
    var allowed := [CenterX, CenterY, Radius, CellEmpty, Markers];
    assert Check(attrs, allowed).Success?;
    hide ExpandNode, Check;
    OptionalExactly(attrs, allowed, CenterX, Num(0), x);
    OptionalExactly(attrs, allowed, CenterY, Num(0), y);
    OptionalExactly(attrs, allowed, Radius, Num(0), radius);
    OptionalExactly(attrs, allowed, CellEmpty, Str(""), empty);
    OptionalExactly(attrs, allowed, Markers, List([]), markers);
  }

  lemma FiveValues(a: Expr, b: Expr, c: Expr, d: Expr, e: Expr, p: Place)
    ensures EvalAll([a, b, c, d, e], p.env, p.host) == [p.Of(a), p.Of(b), p.Of(c), p.Of(d), p.Of(e)]
  {
  }

  // ---------------------------------------------------------------- containers

  lemma {:induction false} PartsAppend(parent: Tag, front: seq<Node>, node: Node, env: Env, host: Host, h: Horb)
    requires parent in {TabsTag, ButtonsTag, ListTag, FormTag, CanvasTag}
    requires ExpandParts(parent, front + [node]).Success?
    ensures ExpandParts(parent, front).Success? && (node.Element? ==> ExpandPart(parent, node).Success?)
    ensures var before := PaintParts(parent, front, env, host, h);
            var part := if node.Element? then PaintPart(parent, node, env, host, before.h) else Outcome(before.h, []);
            PaintParts(parent, front + [node], env, host, h) == Outcome(part.h, before.trace + part.trace)
    decreases front
  {
    hide ExpandPart, PaintPart;
    if front == [] {
      assert [] + [node] == [node] && [node][1..] == [];
    } else {
      assert (front + [node])[1..] == front[1..] + [node];
      var first := if front[0].Element? then PaintPart(parent, front[0], env, host, h) else Outcome(h, []);
      PartsAppend(parent, front[1..], node, env, host, first.h);
      var rest := PaintParts(parent, front[1..], env, host, first.h);
      var part := if node.Element? then PaintPart(parent, node, env, host, rest.h) else Outcome(rest.h, []);
      assert first.trace + (rest.trace + part.trace) == first.trace + rest.trace + part.trace;
    }
  }

  /** A container without children changes nothing, but for the style of a canvas. Text between the
      elements is blank and changes nothing either. */
  lemma ContainerDraws(tag: Tag, attrs: seq<Attr>, front: seq<Node>, p: Place)
    requires tag in {TabsTag, ButtonsTag, ListTag, FormTag, CanvasTag} && Fits(Element(tag, attrs, front), p)
    ensures Fits(Element(tag, attrs, []), p)
    ensures forall style :: Keyed(Style, Some(style)) in attrs ==>
              After(Element(tag, attrs, []), p) == Then(p.Now(), p.Now().h.(css := Show(p.Of(style))), [style], p)
    ensures (forall style :: Keyed(Style, Some(style)) !in attrs) ==> After(Element(tag, attrs, []), p) == p.Now()
    ensures forall text :: Fits(Element(tag, attrs, front + [TextNode(text)]), p) ==>
              After(Element(tag, attrs, front + [TextNode(text)]), p) == After(Element(tag, attrs, front), p)
  {
    hide Eval, Show, ExpandNode, PaintElement;
    EmptyContainer(tag, attrs, front, p);
    forall text | Fits(Element(tag, attrs, front + [TextNode(text)]), p)
      ensures After(Element(tag, attrs, front + [TextNode(text)]), p) == After(Element(tag, attrs, front), p)
    {
      PartAfter(tag, attrs, front, TextNode(text), p);
    }
  }

  lemma EmptyContainer(tag: Tag, attrs: seq<Attr>, front: seq<Node>, p: Place)
    requires tag in {TabsTag, ButtonsTag, ListTag, FormTag, CanvasTag} && Fits(Element(tag, attrs, front), p)
    ensures Fits(Element(tag, attrs, []), p)
    ensures forall style :: Keyed(Style, Some(style)) in attrs ==>
              After(Element(tag, attrs, []), p) == Then(p.Now(), p.Now().h.(css := Show(p.Of(style))), [style], p)
    ensures (forall style :: Keyed(Style, Some(style)) !in attrs) ==> After(Element(tag, attrs, []), p) == p.Now()
  {
    hide Eval, Show, Run, Check, Fits, After, SeenAll, Seen;
    ContainerPaints(tag, attrs, front, p);
    ContainerPaints(tag, attrs, [], p);
    assert Begin(tag, attrs, p).trace + [] == Begin(tag, attrs, p).trace;
    NotFound(attrs, Style);
    if tag != CanvasTag {
      NoFields(attrs);
    }
    forall style | Keyed(Style, Some(style)) in attrs
      ensures Attribute(attrs, Style) == Some(style) && p.Made([style]) == Seen(style, p.env, p.host)
    {
      OptionalExactly(attrs, [Style], Style, Str(""), style);
      MadeOne(style, p);
    }
  }

  /** One more element in a container is painted on the window of those before it. */
  lemma PartAfter(tag: Tag, attrs: seq<Attr>, front: seq<Node>, node: Node, p: Place)
    requires tag in {TabsTag, ButtonsTag, ListTag, FormTag, CanvasTag} && Fits(Element(tag, attrs, front + [node]), p)
    ensures Fits(Element(tag, attrs, front), p) && (node.Element? ==> ExpandPart(tag, node).Success?)
    ensures var before := After(Element(tag, attrs, front), p);
            var part := if node.Element? then PaintPart(tag, node, p.env, p.host, before.h) else Outcome(before.h, []);
            After(Element(tag, attrs, front + [node]), p) == Outcome(part.h, before.trace + part.trace)
  {
    hide Begin, Run, PaintPart, ExpandPart, PaintParts, After, Fits, ExpandChild;
    var start := Begin(tag, attrs, p);
    ContainerPaints(tag, attrs, front + [node], p);
    PartsAppend(tag, front, node, p.env, p.host, start.h);
    ContainerPaints(tag, attrs, front, p);
    var parts := PaintParts(tag, front, p.env, p.host, start.h);
    var part := if node.Element? then PaintPart(tag, node, p.env, p.host, parts.h) else Outcome(parts.h, []);
    assert start.trace + (parts.trace + part.trace) == start.trace + parts.trace + part.trace;
  }

  /** A container before its first element. */
  function Begin(tag: Tag, attrs: seq<Attr>, p: Place): Outcome {
    var style, h := Attribute(attrs, Style), p.Now().h;
    if tag == CanvasTag && style.Some?
    then Outcome(h.(css := Show(p.Of(style.value))), p.Now().trace + Seen(style.value, p.env, p.host)) else p.Now()
  }

  lemma ContainerPaints(tag: Tag, attrs: seq<Attr>, parts: seq<Node>, p: Place)
    requires tag in {TabsTag, ButtonsTag, ListTag, FormTag, CanvasTag}
    ensures Fits(Element(tag, attrs, parts), p) <==>
            ExpandParts(tag, parts).Success? && Check(attrs, if tag == CanvasTag then [Style] else []).Success?
    ensures Fits(Element(tag, attrs, parts), p) ==>
              var start := Begin(tag, attrs, p);
              var painted := PaintParts(tag, parts, p.env, p.host, start.h);
              After(Element(tag, attrs, parts), p) == Outcome(painted.h, start.trace + painted.trace)
  {
    hide Eval, Show, Run, Check, ExpandParts, PaintParts, Seen, TextContent, CheckLeaf, AttributeOr, Chain;
    if Fits(Element(tag, attrs, parts), p) {
      LeafAfter(Element(tag, attrs, parts), p);
      var style := Attribute(attrs, Style);
      if tag == CanvasTag && style.Some? {
        var now, seen := p.Now().trace, Seen(style.value, p.env, p.host);
        var painted := PaintParts(tag, parts, p.env, p.host, Begin(tag, attrs, p).h);
        assert now + (seen + painted.trace) == now + seen + painted.trace;
      }
    }
  }

  /** A tab has its caption, and its action unless it is the active one. */
  lemma TabDraws(front: seq<Node>, attrs: seq<Attr>, inner: seq<Node>, caption: Expr, action: Expr, active: Expr,
      p: Place)
    requires Fits(Element(TabsTag, [], front + [Element(TabTag, attrs, inner)]), p)
    requires Keyed(Caption, Some(caption)) in attrs
    requires Is(attrs, Action, Str(""), action)
    requires Is(attrs, Active, Flag(false), active)
    ensures Fits(Element(TabsTag, [], front), p)
    ensures var w := After(Element(TabsTag, [], front), p);
            var added := Tab(Show(p.Of(caption)),
                             if p.Of(active) == Flag(true) then "" else Show(p.Of(action)));
            var seen := if p.Of(active) == Flag(true) then [active, caption] else [active, caption, action];
            After(Element(TabsTag, [], front + [Element(TabTag, attrs, inner)]), p) ==
            Then(w, w.h.(tabs := w.h.tabs + [added]), seen, p)
  {
    hide Eval, Show, Is, Fits, After;
    PartAfter(TabsTag, [], front, Element(TabTag, attrs, inner), p);
    OptionalExactly(attrs, [Caption, Action, Active], Caption, Str(""), caption);
    Reads(attrs, [Caption, Action, Active], Action, Str(""), action);
    Reads(attrs, [Caption, Action, Active], Active, Flag(false), active);
  }

  /** A button has its caption and its action. */
  lemma ButtonDraws(front: seq<Node>, attrs: seq<Attr>, inner: seq<Node>, caption: Expr, action: Expr, p: Place)
    requires Fits(Element(ButtonsTag, [], front + [Element(ButtonTag, attrs, inner)]), p)
    requires Keyed(Caption, Some(caption)) in attrs
    requires Keyed(Action, Some(action)) in attrs
    ensures Fits(Element(ButtonsTag, [], front), p)
    ensures var w := After(Element(ButtonsTag, [], front), p);
            var added := Button(Show(p.Of(caption)), Show(p.Of(action)));
            After(Element(ButtonsTag, [], front + [Element(ButtonTag, attrs, inner)]), p) ==
            Then(w, w.h.(buttons := w.h.buttons + [added]), [caption, action], p)
  {
    hide Eval, Show, Is, Fits, After;
    PartAfter(ButtonsTag, [], front, Element(ButtonTag, attrs, inner), p);
    OptionalExactly(attrs, [Caption, Action], Caption, Str(""), caption);
    OptionalExactly(attrs, [Caption, Action], Action, Str(""), action);
  }

  /** A row of a list has its title, subtitle and action. */
  lemma RowDraws(front: seq<Node>, attrs: seq<Attr>, inner: seq<Node>, title: Expr, subtitle: Expr, action: Expr,
      p: Place)
    requires Fits(Element(ListTag, [], front + [Element(RowTag, attrs, inner)]), p)
    requires Keyed(Title, Some(title)) in attrs
    requires Is(attrs, Subtitle, Str(""), subtitle)
    requires Is(attrs, Action, Str(""), action)
    ensures Fits(Element(ListTag, [], front), p)
    ensures var w := After(Element(ListTag, [], front), p);
            var added := ListRow(Show(p.Of(title)), Show(p.Of(subtitle)), Show(p.Of(action)));
            After(Element(ListTag, [], front + [Element(RowTag, attrs, inner)]), p) ==
            Then(w, w.h.(list := w.h.list + [added]), [title, subtitle, action], p)
  {
    hide Eval, Show, Is, Fits, After;
    PartAfter(ListTag, [], front, Element(RowTag, attrs, inner), p);
    OptionalExactly(attrs, [Title, Subtitle, Action], Title, Str(""), title);
    Reads(attrs, [Title, Subtitle, Action], Subtitle, Str(""), subtitle);
    Reads(attrs, [Title, Subtitle, Action], Action, Str(""), action);
  }

  /** A text row has its caption only. */
  lemma TextRowDraws(front: seq<Node>, attrs: seq<Attr>, inner: seq<Node>, caption: Expr, p: Place)
    requires Fits(Element(FormTag, [], front + [Element(TextRowTag, attrs, inner)]), p)
    requires Keyed(Caption, Some(caption)) in attrs
    ensures Fits(Element(FormTag, [], front), p)
    ensures var w := After(Element(FormTag, [], front), p);
            var added := RichRow(Show(p.Of(caption)), "text", "", "", "");
            After(Element(FormTag, [], front + [Element(TextRowTag, attrs, inner)]), p) ==
            Then(w, w.h.(richList := w.h.richList + [added]), [caption], p)
  {
    hide Eval, Show, Is, Fits, After;
    PartAfter(FormTag, [], front, Element(TextRowTag, attrs, inner), p);
    OptionalExactly(attrs, [Caption], Caption, Str(""), caption);
  }

  /** A toggle has its caption, its name and its position. */
  lemma ToggleRowDraws(front: seq<Node>, attrs: seq<Attr>, inner: seq<Node>, caption: Expr, name: Expr,
      active: Expr, p: Place)
    requires Fits(Element(FormTag, [], front + [Element(ToggleRowTag, attrs, inner)]), p)
    requires Keyed(Caption, Some(caption)) in attrs
    requires Keyed(Name, Some(name)) in attrs
    requires Is(attrs, Active, Flag(false), active)
    ensures Fits(Element(FormTag, [], front), p)
    ensures var w := After(Element(FormTag, [], front), p);
            var added := RichRow(Show(p.Of(caption)), "bool", "", Show(p.Of(name)),
                          if p.Of(active) == Flag(true) then "1" else "0");
            After(Element(FormTag, [], front + [Element(ToggleRowTag, attrs, inner)]), p) ==
            Then(w, w.h.(richList := w.h.richList + [added]), [caption, name, active], p)
  {
    hide Eval, Show, Is, Fits, After;
    PartAfter(FormTag, [], front, Element(ToggleRowTag, attrs, inner), p);
    OptionalExactly(attrs, [Caption, Name, Active], Caption, Str(""), caption);
    OptionalExactly(attrs, [Caption, Name, Active], Name, Str(""), name);
    Reads(attrs, [Caption, Name, Active], Active, Flag(false), active);
  }

  /** A number row has its caption, its name and its number. */
  lemma UintRowDraws(front: seq<Node>, attrs: seq<Attr>, inner: seq<Node>, caption: Expr, name: Expr, value: Expr,
      p: Place)
    requires Fits(Element(FormTag, [], front + [Element(UintRowTag, attrs, inner)]), p)
    requires Keyed(Caption, Some(caption)) in attrs
    requires Keyed(Name, Some(name)) in attrs
    requires Is(attrs, Content, Num(0), value)
    requires p.Of(value).Num?
    ensures Fits(Element(FormTag, [], front), p)
    ensures var w := After(Element(FormTag, [], front), p);
            var added := RichRow(Show(p.Of(caption)), "uint", "", Show(p.Of(name)), Decimal(p.Of(value).n));
            After(Element(FormTag, [], front + [Element(UintRowTag, attrs, inner)]), p) ==
            Then(w, w.h.(richList := w.h.richList + [added]), [caption, name, value], p)
  {
    hide Eval, Show, Is, Fits, After;
    PartAfter(FormTag, [], front, Element(UintRowTag, attrs, inner), p);
    OptionalExactly(attrs, [Caption, Name, Content], Caption, Str(""), caption);
    OptionalExactly(attrs, [Caption, Name, Content], Name, Str(""), name);
    Reads(attrs, [Caption, Name, Content], Content, Num(0), value);
  }

  /** A button row has its caption, the caption of its button and its action. */
  lemma ButtonRowDraws(front: seq<Node>, attrs: seq<Attr>, inner: seq<Node>, caption: Expr, button: Expr,
      action: Expr, p: Place)
    requires Fits(Element(FormTag, [], front + [Element(ButtonRowTag, attrs, inner)]), p)
    requires Keyed(Caption, Some(caption)) in attrs
    requires Keyed(BtnCaption, Some(button)) in attrs
    requires Keyed(Action, Some(action)) in attrs
    ensures Fits(Element(FormTag, [], front), p)
    ensures var w := After(Element(FormTag, [], front), p);
            var added := RichRow(Show(p.Of(caption)), "button", Show(p.Of(button)),
                          Show(p.Of(action)), "");
            After(Element(FormTag, [], front + [Element(ButtonRowTag, attrs, inner)]), p) ==
            Then(w, w.h.(richList := w.h.richList + [added]), [caption, button, action], p)
  {
    hide Eval, Show, Is, Fits, After;
    PartAfter(FormTag, [], front, Element(ButtonRowTag, attrs, inner), p);
    OptionalExactly(attrs, [Caption, BtnCaption, Action], Caption, Str(""), caption);
    OptionalExactly(attrs, [Caption, BtnCaption, Action], BtnCaption, Str(""), button);
    OptionalExactly(attrs, [Caption, BtnCaption, Action], Action, Str(""), action);
  }

  /** The expressions of the options, in order. */
  function OptionValues(children: seq<Node>): seq<Expr> {
    if children == [] then []
    else if children[0].Element? then
      var attrs := children[0].attrs;
      [AttributeOr(attrs, Content, Str("")), AttributeOr(attrs, Caption, Str(""))] + OptionValues(children[1..])
    else OptionValues(children[1..])
  }

  lemma {:induction false} OptionsMade(children: seq<Node>, p: Place)
    ensures OptionsSeen(children, p.env, p.host) == p.Made(OptionValues(children))
  {
    if children != [] {
      OptionsMade(children[1..], p);
      if children[0].Element? {
        var attrs := children[0].attrs;
        MadeConcat([AttributeOr(attrs, Content, Str("")), AttributeOr(attrs, Caption, Str(""))],
                   OptionValues(children[1..]), p);
      }
    }
  }

  lemma DropdownMade(caption: Expr, options: seq<Expr>, name: Expr, selected: Expr, p: Place)
    ensures p.Made([caption] + options + [name, selected])
         == Seen(caption, p.env, p.host) + p.Made(options) + p.Made([name, selected])
  {
    MadeOne(caption, p);
    MadeConcat([caption], options, p);
    MadeConcat([caption] + options, [name, selected], p);
  }

  /** A dropdown has its caption, its options, its name and the number selected. */
  lemma DropdownRowDraws(front: seq<Node>, attrs: seq<Attr>, inner: seq<Node>, caption: Expr, name: Expr,
      selected: Expr, p: Place)
    requires Fits(Element(FormTag, [], front + [Element(DropdownRowTag, attrs, inner)]), p)
    requires Keyed(Caption, Some(caption)) in attrs
    requires Keyed(Name, Some(name)) in attrs
    requires Is(attrs, Selected, Num(0), selected)
    requires p.Of(selected).Num?
    ensures Fits(Element(FormTag, [], front), p)
    ensures var w := After(Element(FormTag, [], front), p);
            var added := RichRow(Show(p.Of(caption)), "drop", OptionsText(inner, p.env, p.host),
                          Show(p.Of(name)), Decimal(p.Of(selected).n));
            After(Element(FormTag, [], front + [Element(DropdownRowTag, attrs, inner)]), p) ==
            Then(w, w.h.(richList := w.h.richList + [added]), [caption] + OptionValues(inner) + [name, selected], p)
  {
    hide Eval, Show, Is, Fits, After, OptionsText, OptionsSeen, OptionValues, ExpandOptions, OptionPairs;
    OptionsMade(inner, p);
    DropdownMade(caption, OptionValues(inner), name, selected, p);
    PartAfter(FormTag, [], front, Element(DropdownRowTag, attrs, inner), p);
    OptionalExactly(attrs, [Caption, Name, Selected], Caption, Str(""), caption);
    OptionalExactly(attrs, [Caption, Name, Selected], Name, Str(""), name);
    Reads(attrs, [Caption, Name, Selected], Selected, Num(0), selected);
  }

  /** The options of a dropdown are written one after the other, each with its value and its caption. */
  lemma {:induction false} OptionDraws(front: seq<Node>, attrs: seq<Attr>, inner: seq<Node>, value: Expr, caption: Expr,
                                       p: Place)
    requires Check(attrs, [Content, Caption]).Success?
    requires Keyed(Content, Some(value)) in attrs && Keyed(Caption, Some(caption)) in attrs
    ensures OptionsText([], p.env, p.host) == "" && OptionValues([]) == []
    ensures OptionsText(front + [Element(OptionTag, attrs, inner)], p.env, p.host)
         == OptionsText(front, p.env, p.host) + Show(p.Of(value)) + ":" + Show(p.Of(caption)) + "#"
    ensures OptionValues(front + [Element(OptionTag, attrs, inner)]) == OptionValues(front) + [value, caption]
    decreases front
  {
    hide Eval, Show, Check, AttributeOr;
    var option := Element(OptionTag, attrs, inner);
    var text := Show(p.Of(value)) + ":" + Show(p.Of(caption)) + "#";
    if front == [] {
      OptionReads(attrs, value, caption);
      assert [] + [option] == [option] && [option][1..] == [];
      assert text + "" == text;
    } else {
      assert (front + [option])[1..] == front[1..] + [option];
      OptionDraws(front[1..], attrs, inner, value, caption, p);
    }
  }

  lemma OptionReads(attrs: seq<Attr>, value: Expr, caption: Expr)
    requires Check(attrs, [Content, Caption]).Success?
    requires Keyed(Content, Some(value)) in attrs && Keyed(Caption, Some(caption)) in attrs
    ensures AttributeOr(attrs, Content, Str("")) == value && AttributeOr(attrs, Caption, Str("")) == caption
  {
    OptionalExactly(attrs, [Content, Caption], Content, Str(""), value);
    OptionalExactly(attrs, [Content, Caption], Caption, Str(""), caption);
  }

  /** The blank text between them is skipped. */
  lemma {:induction false} OptionGap(front: seq<Node>, text: string, p: Place)
    ensures OptionsText(front + [TextNode(text)], p.env, p.host) == OptionsText(front, p.env, p.host)
    ensures OptionValues(front + [TextNode(text)]) == OptionValues(front)
    decreases front
  {
    hide Eval, Show, AttributeOr;
    var gap := TextNode(text);
    if front == [] {
      assert [] + [gap] == [gap] && [gap][1..] == [];
    } else {
      assert (front + [gap])[1..] == front[1..] + [gap];
      OptionGap(front[1..], text, p);
    }
  }

  /** A rectangle has its place, its size and its colour. */
  lemma RectDraws(outer: seq<Attr>, front: seq<Node>, attrs: seq<Attr>, inner: seq<Node>, x: Expr, y: Expr,
      w: Expr, h: Expr, color: Expr, p: Place)
    requires Fits(Element(CanvasTag, outer, front + [Element(RectTag, attrs, inner)]), p)
    requires Keyed(X, Some(x)) in attrs
    requires Keyed(Y, Some(y)) in attrs
    requires Keyed(W, Some(w)) in attrs
    requires Keyed(H, Some(h)) in attrs
    requires Keyed(Color, Some(color)) in attrs
    requires p.Of(x).Num? && p.Of(y).Num? && p.Of(w).Num? && p.Of(h).Num?
    ensures Fits(Element(CanvasTag, outer, front), p)
    ensures var before := After(Element(CanvasTag, outer, front), p);
            var added := Rect(p.Of(x).n, p.Of(y).n, p.Of(w).n, p.Of(h).n, Show(p.Of(color)));
            After(Element(CanvasTag, outer, front + [Element(RectTag, attrs, inner)]), p) ==
            Then(before, before.h.(canvas := before.h.canvas + [added]), [x, y, w, h, color], p)
  {
    hide Eval, Show, Is, Fits, After;
    PartAfter(CanvasTag, outer, front, Element(RectTag, attrs, inner), p);
    OptionalExactly(attrs, [X, Y, W, H, Color], X, Num(0), x);
    OptionalExactly(attrs, [X, Y, W, H, Color], Y, Num(0), y);
    OptionalExactly(attrs, [X, Y, W, H, Color], W, Num(0), w);
    OptionalExactly(attrs, [X, Y, W, H, Color], H, Num(0), h);
    OptionalExactly(attrs, [X, Y, W, H, Color], Color, Str(""), color);
  }

  /** A teleport point has its place and its action. */
  lemma TeleportDraws(outer: seq<Attr>, front: seq<Node>, attrs: seq<Attr>, inner: seq<Node>, x: Expr, y: Expr,
      action: Expr, p: Place)
    requires Fits(Element(CanvasTag, outer, front + [Element(TeleportPointTag, attrs, inner)]), p)
    requires Keyed(X, Some(x)) in attrs
    requires Keyed(Y, Some(y)) in attrs
    requires Keyed(Action, Some(action)) in attrs
    requires p.Of(x).Num? && p.Of(y).Num?
    ensures Fits(Element(CanvasTag, outer, front), p)
    ensures var w := After(Element(CanvasTag, outer, front), p);
            var added := TeleportPoint(p.Of(x).n, p.Of(y).n, Show(p.Of(action)));
            After(Element(CanvasTag, outer, front + [Element(TeleportPointTag, attrs, inner)]), p) ==
            Then(w, w.h.(canvas := w.h.canvas + [added]), [x, y, action], p)
  {
    hide Eval, Show, Is, Fits, After;
    PartAfter(CanvasTag, outer, front, Element(TeleportPointTag, attrs, inner), p);
    OptionalExactly(attrs, [X, Y, Action], X, Num(0), x);
    OptionalExactly(attrs, [X, Y, Action], Y, Num(0), y);
    OptionalExactly(attrs, [X, Y, Action], Action, Str(""), action);
  }
}
