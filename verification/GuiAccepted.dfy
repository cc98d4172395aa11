/** What the macro finds in an attribute list, and exactly which trees it accepts. */
module GuiAccepted {
  import opened Wrappers
  import opened GuiDocument
  import opened GuiExpressions
  import opened GuiMarkup
  import opened GuiCompiler

  // ---------------------------------------------------------------- attributes

  /** An attribute is found exactly when it is there with a value, the first one of its name that has one. */
  lemma {:induction false} FoundExactly(attrs: seq<Attr>, key: Key, e: Expr)
    ensures Attribute(attrs, key) == Some(e) <==>
            exists i :: 0 <= i < |attrs| && attrs[i] == Keyed(key, Some(e))
                        && forall j, other :: 0 <= j < i ==> attrs[j] != Keyed(key, Some(other))
  {
    if attrs != [] {
      var head, tail := attrs[0], attrs[1..];
      FoundExactly(tail, key, e);
      if head.Keyed? && head.key == key && head.value.Some? {
        assert head == Keyed(key, Some(head.value.value));
      } else {
        assert forall other :: head != Keyed(key, Some(other));
        if i :| 0 <= i < |tail| && tail[i] == Keyed(key, Some(e))
                && forall j, other :: 0 <= j < i ==> tail[j] != Keyed(key, Some(other)) {
          assert attrs[i + 1] == Keyed(key, Some(e));
          forall j, other | 0 <= j < i + 1
            ensures attrs[j] != Keyed(key, Some(other))
          {
            assert j == 0 || attrs[j] == tail[j - 1];
          }
        }
        if i :| 0 <= i < |attrs| && attrs[i] == Keyed(key, Some(e))
                && forall j, other :: 0 <= j < i ==> attrs[j] != Keyed(key, Some(other)) {
          assert i > 0 && tail[i - 1] == attrs[i];
          forall j, other | 0 <= j < i - 1
            ensures tail[j] != Keyed(key, Some(other))
          {
            assert tail[j] == attrs[j + 1];
          }
        }
      }
    }
  }

  lemma {:induction false} NotFound(attrs: seq<Attr>, key: Key)
    ensures Attribute(attrs, key) == None <==> forall e :: Keyed(key, Some(e)) !in attrs
  {
    if attrs != [] {
      NotFound(attrs[1..], key);
      assert attrs == [attrs[0]] + attrs[1..];
      if Attribute(attrs, key) != None && attrs[0].Keyed? && attrs[0].key == key && attrs[0].value.Some? {
        assert attrs[0] == Keyed(key, Some(attrs[0].value.value));
      }
    }
  }

  /** In a list that passed the check an attribute is what its name says, wherever it stands. */
  lemma RequiredExactly(attrs: seq<Attr>, allowed: seq<Key>, key: Key, e: Expr)
    requires Check(attrs, allowed).Success?
    ensures Required(attrs, key) == Success(e) <==> Keyed(key, Some(e)) in attrs
  {
    ValidateAttributesExact(attrs, allowed);
    FoundExactly(attrs, key, e);
    if Keyed(key, Some(e)) in attrs {
      var i :| 0 <= i < |attrs| && attrs[i] == Keyed(key, Some(e));
      assert forall j, other :: 0 <= j < i ==> attrs[j] != Keyed(key, Some(other));
    }
  }

  /** Optional ones take their default exactly when they are not there or have no value. */
  lemma OptionalExactly(attrs: seq<Attr>, allowed: seq<Key>, key: Key, default: Value, e: Expr)
    requires Check(attrs, allowed).Success?
    ensures Keyed(key, Some(e)) in attrs ==> AttributeOr(attrs, key, default) == e && Attribute(attrs, key) == Some(e)
    ensures (forall other :: Keyed(key, Some(other)) !in attrs) ==>
              AttributeOr(attrs, key, default) == Lit(default, true) && Attribute(attrs, key) == None
  {
    RequiredExactly(attrs, allowed, key, e);
    NotFound(attrs, key);
  }

  // ---------------------------------------------------------------- accepted trees

  ghost predicate Given(attrs: seq<Attr>, key: Key) {
    exists e :: Keyed(key, Some(e)) in attrs
  }

  /** Allowed names only, each at most once, and the required ones with a value. */
  ghost predicate Fields(attrs: seq<Attr>, allowed: seq<Key>, required: seq<Key>) {
    && (forall i :: 0 <= i < |attrs| ==> attrs[i].Keyed? && attrs[i].key in allowed)
    && (forall i, j :: 0 <= i < j < |attrs| ==>
          attrs[i].Keyed? && attrs[j].Keyed? ==> attrs[i].key != attrs[j].key)
    && (forall k :: k in required ==> Given(attrs, k))
  }

  ghost predicate BlankText(node: Node) {
    node.TextNode? && forall i :: 0 <= i < |node.text| ==> node.text[i] in {' ', '\t', '\n', '\r'}
  }

  /** Nothing inside but blank text. */
  ghost predicate Bare(children: seq<Node>) {
    forall i :: 0 <= i < |children| ==> BlankText(children[i])
  }

  /** Which elements a container takes, with which attributes. */
  ghost predicate AcceptedPart(parent: Tag, node: Node)
    requires node.Element?
  {
    var attrs, children := node.attrs, node.children;
    match (parent, node.tag)
    case (TabsTag, TabTag) => Fields(attrs, [Caption, Action, Active], [Caption]) && Bare(children)
    case (ButtonsTag, ButtonTag) => Fields(attrs, [Caption, Action], [Caption, Action]) && Bare(children)
    case (ListTag, RowTag) => Fields(attrs, [Title, Subtitle, Action], [Title]) && Bare(children)
    case (FormTag, TextRowTag) => Fields(attrs, [Caption], [Caption]) && Bare(children)
    case (FormTag, ToggleRowTag) => Fields(attrs, [Caption, Name, Active], [Caption, Name]) && Bare(children)
    case (FormTag, UintRowTag) => Fields(attrs, [Caption, Name, Content], [Caption, Name]) && Bare(children)
    case (FormTag, ButtonRowTag) =>
      Fields(attrs, [Caption, BtnCaption, Action], [Caption, BtnCaption, Action]) && Bare(children)
    case (FormTag, DropdownRowTag) =>
      Fields(attrs, [Caption, Name, Selected], [Caption, Name]) && AcceptedOptions(children)
    case (CanvasTag, RectTag) => Fields(attrs, [X, Y, W, H, Color], [X, Y, W, H, Color]) && Bare(children)
    case (CanvasTag, TeleportPointTag) => Fields(attrs, [X, Y, Action], [X, Y, Action]) && Bare(children)
    case _ => false
  }

  ghost predicate AcceptedOptions(children: seq<Node>) {
    forall i :: 0 <= i < |children| ==> BlankText(children[i]) || AcceptedOption(children[i])
  }

  ghost predicate AcceptedOption(node: Node) {
    node.Element? && node.tag.OptionTag? && Fields(node.attrs, [Content, Caption], [Content, Caption])
    && Bare(node.children)
  }

  ghost predicate AcceptedParts(parent: Tag, children: seq<Node>) {
    forall i :: 0 <= i < |children| ==>
      BlankText(children[i]) || (children[i].Element? && AcceptedPart(parent, children[i]))
  }

  /** Elements other than loops and conditions. */
  ghost predicate AcceptedElement(tag: Tag, attrs: seq<Attr>, children: seq<Node>) {
    match tag
    case TextTag => attrs == [] && forall i :: 0 <= i < |children| ==> children[i].TextNode? || children[i].BlockNode?
    case TabsTag => attrs == [] && AcceptedParts(tag, children)
    case ButtonsTag => attrs == [] && AcceptedParts(tag, children)
    case ListTag => attrs == [] && AcceptedParts(tag, children)
    case FormTag => attrs == [] && AcceptedParts(tag, children)
    case CanvasTag => Fields(attrs, [Style], []) && AcceptedParts(tag, children)
    case InputTag => Fields(attrs, [Placeholder, FocusConsole], [Placeholder]) && Bare(children)
    case CardTag => Fields(attrs, [Content], [Content]) && Bare(children)
    case InventoryTag => Fields(attrs, [Content], [Content]) && Bare(children)
    case AdminTag => Fields(attrs, [Enabled], []) && Bare(children)
    case CrystalsTag => Fields(attrs, [Left, Right, Buy, Lines], [Left, Right, Lines]) && Bare(children)
    case CloseButtonTag => attrs == [] && Bare(children)
    case MinimapTag =>
      && Fields(attrs, [CenterX, CenterY, Radius, CellEmpty, Markers], [CenterX, CenterY, Radius, CellEmpty, Markers])
      && Bare(children)
    case _ => false
  }

  ghost predicate Accepted(node: Node)
    decreases node, 1
  {
    match node
    case Element(ForTag, attrs, children) =>
      && Fields(attrs, [Each, Item], [Each, Item]) && (exists name :: Keyed(Item, Some(Var(name))) in attrs)
      && AllAccepted(children)
    case Element(IfTag, attrs, children) => Fields(attrs, [Condition], [Condition]) && AllAccepted(children)
    case Element(tag, attrs, children) => AcceptedElement(tag, attrs, children)
    case _ => true
  }

  ghost predicate AllAccepted(nodes: seq<Node>)
    decreases nodes, 0
  {
    forall i :: 0 <= i < |nodes| ==> Accepted(nodes[i])
  }

  ghost predicate AcceptedWindow(root: Node) {
    root.Element? && root.tag == WindowTag && Fields(root.attrs, [Title, Style], [Title]) && AllAccepted(root.children)
  }

  lemma FieldsExactly(attrs: seq<Attr>, allowed: seq<Key>, required: seq<Key>)
    ensures Fields(attrs, allowed, required) <==>
            Check(attrs, allowed).Success? && forall k :: k in required ==> Required(attrs, k).Success?
  {
    ValidateAttributesExact(attrs, allowed);
    forall k
      ensures Required(attrs, k).Success? <==> Given(attrs, k)
    {
      NotFound(attrs, k);
    }
  }

  lemma NoFields(attrs: seq<Attr>)
    ensures attrs == [] <==> Check(attrs, []).Success?
  {
    ValidateAttributesExact(attrs, []);
    if attrs != [] {
      assert !(attrs[0].Keyed? && attrs[0].key in []);
    }
  }

  lemma BlankExactly(node: Node)
    ensures BlankText(node) <==> node.TextNode? && Blank(node.text)
  {
    var blanks := " \t\n\r";
    assert forall c: char :: c in blanks <==> c == ' ' || c == '\t' || c == '\n' || c == '\r';
    if BlankText(node) {
      forall c | c in node.text
        ensures c in blanks
      {
        var i :| 0 <= i < |node.text| && node.text[i] == c;
      }
    }
    if node.TextNode? && Blank(node.text) {
      forall i | 0 <= i < |node.text|
        ensures node.text[i] in {' ', '\t', '\n', '\r'}
      {
        assert node.text[i] in node.text;
      }
    }
  }

  lemma {:induction false} BareExactly(tag: Tag, children: seq<Node>)
    ensures CheckLeaf(tag, children).Success? <==> Bare(children)
  {
    if children != [] {
      BlankExactly(children[0]);
      BareExactly(tag, children[1..]);
      assert children == [children[0]] + children[1..];
    }
  }

  lemma {:induction false} OptionsExactly(children: seq<Node>)
    ensures OptionPairs(children).Success? <==> AcceptedOptions(children)
  {
    if children != [] {
      var node := children[0];
      BlankExactly(node);
      OptionsExactly(children[1..]);
      assert children == [node] + children[1..];
      if node.Element? {
        FieldsExactly(node.attrs, [Content, Caption], [Content, Caption]);
        BareExactly(OptionTag, node.children);
      }
    }
  }

  lemma FormRowExactly(node: Node)
    requires node.Element?
    ensures ExpandFormRow(node).Success? <==> AcceptedPart(FormTag, node)
  {
    hide Check, Required, CheckLeaf, Fields, Bare, ExpandOptions;
    var attrs := node.attrs;
    BareExactly(node.tag, node.children);
    FieldsExactly(attrs, [Caption], [Caption]);
    FieldsExactly(attrs, [Caption, Name, Active], [Caption, Name]);
    FieldsExactly(attrs, [Caption, Name, Content], [Caption, Name]);
    FieldsExactly(attrs, [Caption, BtnCaption, Action], [Caption, BtnCaption, Action]);
    FieldsExactly(attrs, [Caption, Name, Selected], [Caption, Name]);
    OptionsExactly(node.children);
  }

  lemma PartExactly(parent: Tag, node: Node)
    requires node.Element? && parent in {TabsTag, ButtonsTag, ListTag, FormTag, CanvasTag}
    ensures ExpandPart(parent, node).Success? <==> AcceptedPart(parent, node)
  {
    hide Check, Required, CheckLeaf, Fields, Bare, ExpandFormRow;
    var attrs := node.attrs;
    BareExactly(node.tag, node.children);
    match parent
    case TabsTag => FieldsExactly(attrs, [Caption, Action, Active], [Caption]);
    case ButtonsTag => FieldsExactly(attrs, [Caption, Action], [Caption, Action]);
    case ListTag => FieldsExactly(attrs, [Title, Subtitle, Action], [Title]);
    case FormTag => FormRowExactly(node);
    case CanvasTag =>
      FieldsExactly(attrs, [X, Y, W, H, Color], [X, Y, W, H, Color]);
      FieldsExactly(attrs, [X, Y, Action], [X, Y, Action]);
  }

  lemma {:induction false} PartsExactly(parent: Tag, children: seq<Node>)
    requires parent in {TabsTag, ButtonsTag, ListTag, FormTag, CanvasTag}
    ensures ExpandParts(parent, children).Success? <==> AcceptedParts(parent, children)
  {
    hide ExpandPart, AcceptedPart, BlankText, Blank;
    if children != [] {
      BlankExactly(children[0]);
      if children[0].Element? {
        PartExactly(parent, children[0]);
      }
      PartsExactly(parent, children[1..]);
      assert children == [children[0]] + children[1..];
    }
  }

  lemma ContainerExactly(tag: Tag, attrs: seq<Attr>, children: seq<Node>)
    requires tag in {TabsTag, ButtonsTag, ListTag, FormTag, CanvasTag}
    ensures ExpandNode(Element(tag, attrs, children)).Success? <==> AcceptedElement(tag, attrs, children)
  {
    hide Check, Fields, ExpandParts, AcceptedParts;
    NoFields(attrs);
    FieldsExactly(attrs, [Style], []);
    PartsExactly(tag, children);
  }

  lemma TextExactly(attrs: seq<Attr>, children: seq<Node>)
    ensures ExpandNode(Element(TextTag, attrs, children)).Success? <==> AcceptedElement(TextTag, attrs, children)
  {
    hide Check, Pieces;
    NoFields(attrs);
  }

  lemma SettingExactly(tag: Tag, attrs: seq<Attr>, children: seq<Node>)
    requires tag !in {TabsTag, ButtonsTag, ListTag, FormTag, CanvasTag, TextTag}
    ensures ExpandNode(Element(tag, attrs, children)).Success? <==> AcceptedElement(tag, attrs, children)
  {
    hide Check, Required, CheckLeaf, Fields, Bare, TextContent, ExpandParts, AcceptedParts, AttributeOr;
    BareExactly(tag, children);
    NoFields(attrs);
    FieldsExactly(attrs, [Placeholder, FocusConsole], [Placeholder]);
    FieldsExactly(attrs, [Content], [Content]);
    FieldsExactly(attrs, [Enabled], []);
    FieldsExactly(attrs, [Left, Right, Buy, Lines], [Left, Right, Lines]);
    var area := [CenterX, CenterY, Radius, CellEmpty, Markers];
    FieldsExactly(attrs, area, area);
  }

  lemma ElementExactly(tag: Tag, attrs: seq<Attr>, children: seq<Node>)
    ensures ExpandNode(Element(tag, attrs, children)).Success? <==> AcceptedElement(tag, attrs, children)
  {
    hide ExpandNode, AcceptedElement;
    if tag in {TabsTag, ButtonsTag, ListTag, FormTag, CanvasTag} {
      ContainerExactly(tag, attrs, children);
    } else if tag == TextTag {
      TextExactly(attrs, children);
    } else {
      SettingExactly(tag, attrs, children);
    }
  }

  lemma {:induction false} ChildExactly(node: Node, builder: Target)
    ensures ExpandChild(node, builder).Success? <==> Accepted(node)
    decreases node, 3
  {
    hide Check, Fields, ExpandNode, AcceptedElement, Chain;
    match node
    case Element(ForTag, attrs, children) =>
      SeqExactly(children, Current);
      ForExactly(attrs, children, builder);
    case Element(IfTag, attrs, children) =>
      SeqExactly(children, builder);
      IfExactly(attrs, children, builder);
    case Element(tag, attrs, children) => ElementExactly(tag, attrs, children);
    case _ => NotElement(node);
  }

  lemma NotElement(node: Node)
    requires !node.Element?
    ensures ExpandNode(node).Success?
  {
  }

  lemma ItemExactly(attrs: seq<Attr>)
    ensures Check(attrs, [Each, Item]).Success? ==>
              ((exists name :: Keyed(Item, Some(Var(name))) in attrs)
               <==> Required(attrs, Item).Success? && Required(attrs, Item).value.Var?)
  {
    if Check(attrs, [Each, Item]).Success? {
      forall e
        ensures Required(attrs, Item) == Success(e) <==> Keyed(Item, Some(e)) in attrs
      {
        RequiredExactly(attrs, [Each, Item], Item, e);
      }
      if Required(attrs, Item).Success? && Required(attrs, Item).value.Var? {
        assert Keyed(Item, Some(Var(Required(attrs, Item).value.name))) in attrs;
      }
    }
  }

  lemma ForExactly(attrs: seq<Attr>, children: seq<Node>, builder: Target)
    ensures ExpandFor(attrs, children, builder).Success? <==>
            && Fields(attrs, [Each, Item], [Each, Item]) && (exists name :: Keyed(Item, Some(Var(name))) in attrs)
            && ExpandSeq(children, Current).Success?
  {
    hide Check, Fields, ExpandSeq, Required;
    FieldsExactly(attrs, [Each, Item], [Each, Item]);
    ItemExactly(attrs);
    assert Each in [Each, Item] && Item in [Each, Item];
  }

  lemma IfExactly(attrs: seq<Attr>, children: seq<Node>, builder: Target)
    ensures ExpandIf(attrs, children, builder).Success? <==>
            Fields(attrs, [Condition], [Condition]) && ExpandSeq(children, builder).Success?
  {
    hide Check, Fields, ExpandSeq, Required;
    FieldsExactly(attrs, [Condition], [Condition]);
    assert Condition in [Condition];
  }

  lemma {:induction false} SeqExactly(nodes: seq<Node>, builder: Target)
    ensures ExpandSeq(nodes, builder).Success? <==> AllAccepted(nodes)
    decreases nodes, 0
  {
    hide ExpandChild, Accepted;
    if nodes != [] {
      ChildExactly(nodes[0], builder);
      assert nodes == [nodes[0]] + nodes[1..];
      if Accepted(nodes[0]) {
        SeqExactly(nodes[1..], ExpandChild(nodes[0], builder).value);
      }
    }
  }

  /** The macro accepts exactly the windows whose elements stand where they may, have the attributes they
      need, each once, and no others. */
  lemma AcceptedExactly(root: Node)
    ensures ExpandRoot(root).Success? <==> AcceptedWindow(root)
  {
    hide Check, Fields, ExpandSeq, AllAccepted;
    if root.Element? {
      FieldsExactly(root.attrs, [Title, Style], [Title]);
      if Check(root.attrs, [Title, Style]).Success? && Required(root.attrs, Title).Success? {
        var title, style := Required(root.attrs, Title).value, Attribute(root.attrs, Style);
        SeqExactly(root.children, if style.None? then New(title) else Method(New(title), Css(style.value)));
      }
    }
  }
}
