/** The flat lists a window document is sent as, and what they still say about the window. */
module GuiEncoding {
  import opened Sequences
  import opened Wrappers
  import opened GuiDocument

  // ---------------------------------------------------------------- numbers in text

  function DigitChar(d: nat): char
    requires d < 10
  {
    "0123456789"[d]
  }

  predicate IsDigit(c: char) {
    '0' <= c <= '9'
  }

  lemma DigitChars(d: nat, e: nat)
    requires d < 10 && e < 10
    ensures IsDigit(DigitChar(d))
    ensures DigitChar(d) == DigitChar(e) ==> d == e
  {
  }

  lemma {:induction false} DigitsAreDigits(n: nat)
    ensures Digits(n) != [] && forall i :: 0 <= i < |Digits(n)| ==> IsDigit(Digits(n)[i])
  {
    if n < 10 {
      DigitChars(n, n);
    } else {
      DigitsAreDigits(n / 10);
      DigitChars(n % 10, n % 10);
    }
  }

  lemma {:induction false} DigitsInjective(n: nat, m: nat)
    requires Digits(n) == Digits(m)
    ensures n == m
  {
    var s, t := Digits(n), Digits(m);
    DigitChars(n % 10, m % 10);
    assert s[|s| - 1] == DigitChar(n % 10) && t[|t| - 1] == DigitChar(m % 10);
    DigitsAreDigits(n / 10);
    DigitsAreDigits(m / 10);
    if n >= 10 && m >= 10 {
      assert Digits(n / 10) == s[..|s| - 1] == t[..|t| - 1] == Digits(m / 10);
      DigitsInjective(n / 10, m / 10);
    }
  }

  lemma DecimalInjective(n: int, m: int)
    requires Decimal(n) == Decimal(m)
    ensures n == m
  {
    SignFirst(n);
    SignFirst(m);
    if n < 0 {
      assert Digits(-n) == Decimal(n)[1..] == Decimal(m)[1..] == Digits(-m);
      DigitsInjective(-n, -m);
    } else {
      DigitsInjective(n, m);
    }
  }

  lemma SignFirst(n: int)
    ensures Decimal(n) != [] && (n < 0 <==> Decimal(n)[0] == '-')
  {
    DigitsAreDigits(if n < 0 then -n else n);
  }

  /** What a printed number cannot hold can mark its end. */
  predicate Marks(c: char) {
    !IsDigit(c) && c != '-'
  }

  lemma DecimalUnmarked(n: int, i: nat)
    requires i < |Decimal(n)|
    ensures !Marks(Decimal(n)[i])
  {
    DigitsAreDigits(if n < 0 then -n else n);
    if n < 0 && i > 0 {
      assert Decimal(n)[i] == Digits(-n)[i - 1];
    }
  }

  /** A number, a mark and a rest can be read back. */
  lemma FieldInjective(n: int, m: int, mark: char, s: string, t: string)
    requires Marks(mark) && Decimal(n) + [mark] + s == Decimal(m) + [mark] + t
    ensures n == m && s == t
  {
    var a, b := Decimal(n), Decimal(m);
    var u, v := a + [mark] + s, b + [mark] + t;
    assert u[|a|] == mark && v[|b|] == mark;
    if |a| < |b| {
      DecimalUnmarked(m, |a|);
    } else if |b| < |a| {
      DecimalUnmarked(n, |b|);
    }
    assert a == u[..|a|] == v[..|b|] == b;
    DecimalInjective(n, m);
    assert s == u[|a| + 1..] == v[|b| + 1..] == t;
  }

  // ---------------------------------------------------------------- the canvas

  /** What follows the position: size and colour of a rectangle, or the sign of a teleport. */
  function Shape(e: CanvasElement): string {
    match e
    case Rect(_, _, w, h, color) => Decimal(w) + ['w'] + (Decimal(h) + ['h'] + ("=R#" + color))
    case TeleportPoint(_, _, _) => "=t"
  }

  function Position(e: CanvasElement): string {
    Decimal(e.x) + ['X'] + (Decimal(e.y) + ['Y'] + Shape(e))
  }

  /** `extend_flattened`: one string for a rectangle, two for a teleport. */
  function FlatElement(e: CanvasElement): seq<string> {
    match e
    case Rect(_, _, _, _, _) => [Position(e)]
    case TeleportPoint(_, _, action) => [Position(e), action]
  }

  /** What a rectangle and a teleport are written as. */
  lemma FlatElementExactly(x: int, y: int, w: int, h: int, text: string)
    ensures FlatElement(Rect(x, y, w, h, text)) ==
            [Decimal(x) + "X" + Decimal(y) + "Y" + Decimal(w) + "w" + Decimal(h) + "h=R#" + text]
    ensures FlatElement(TeleportPoint(x, y, text)) == [Decimal(x) + "X" + Decimal(y) + "Y=t", text]
  {
    var a, b, c, d := Decimal(x), Decimal(y), Decimal(w), Decimal(h);
    assert a + ['X'] + (b + ['Y'] + (c + ['w'] + (d + ['h'] + ("=R#" + text))))
        == a + "X" + b + "Y" + c + "w" + d + "h=R#" + text;
    assert a + ['X'] + (b + ['Y'] + "=t") == a + "X" + b + "Y=t";
  }

  function FlatCanvas(c: seq<CanvasElement>): seq<string> {
    if c == [] then [] else FlatElement(c[0]) + FlatCanvas(c[1..])
  }

  lemma ShapeInjective(a: CanvasElement, b: CanvasElement)
    requires Shape(a) == Shape(b)
    ensures a.Rect? == b.Rect?
    ensures a.Rect? ==> a.width == b.width && a.height == b.height && a.color == b.color
  {
    if a.Rect? && b.Rect? {
      var restA, restB := Decimal(a.height) + ['h'] + ("=R#" + a.color), Decimal(b.height) + ['h'] + ("=R#" + b.color);
      FieldInjective(a.width, b.width, 'w', restA, restB);
      FieldInjective(a.height, b.height, 'h', "=R#" + a.color, "=R#" + b.color);
      assert a.color == ("=R#" + a.color)[3..] == ("=R#" + b.color)[3..] == b.color;
    } else if a.Rect? {
      SizeFirst(a);
    } else if b.Rect? {
      SizeFirst(b);
    }
  }

  lemma SizeFirst(e: CanvasElement)
    requires e.Rect?
    ensures Shape(e) != [] && Shape(e)[0] != '='
  {
    DigitsAreDigits(if e.width < 0 then -e.width else e.width);
    DecimalUnmarked(e.width, 0);
    assert Shape(e)[0] == Decimal(e.width)[0];
  }

  lemma PositionInjective(a: CanvasElement, b: CanvasElement)
    requires Position(a) == Position(b)
    ensures a.Rect? == b.Rect? && a.x == b.x && a.y == b.y
    ensures a.Rect? ==> a == b
  {
    FieldInjective(a.x, b.x, 'X', Decimal(a.y) + ['Y'] + Shape(a), Decimal(b.y) + ['Y'] + Shape(b));
    FieldInjective(a.y, b.y, 'Y', Shape(a), Shape(b));
    ShapeInjective(a, b);
  }

  lemma CanvasEmpty(c: seq<CanvasElement>)
    ensures FlatCanvas(c) == [] <==> c == []
  {
  }

  lemma HeadsSame(a: seq<CanvasElement>, b: seq<CanvasElement>)
    requires FlatCanvas(a) == FlatCanvas(b) && a != [] && b != []
    ensures a[0] == b[0] && FlatCanvas(a[1..]) == FlatCanvas(b[1..])
  {
    hide Position;
    var s, t := FlatCanvas(a), FlatCanvas(b);
    assert s[0] == Position(a[0]) && t[0] == Position(b[0]);
    PositionInjective(a[0], b[0]);
    if a[0].Rect? {
      assert FlatCanvas(a[1..]) == s[1..] == t[1..] == FlatCanvas(b[1..]);
    } else {
      assert s[1] == a[0].action && t[1] == b[0].action;
      assert FlatCanvas(a[1..]) == s[2..] == t[2..] == FlatCanvas(b[1..]);
    }
  }

  /** Elements of one string and of two can be told apart: the flat canvas determines the canvas,
      whatever colours and actions are. */
  lemma {:induction false} CanvasInjective(a: seq<CanvasElement>, b: seq<CanvasElement>)
    requires FlatCanvas(a) == FlatCanvas(b)
    ensures a == b
  {
    CanvasEmpty(a);
    CanvasEmpty(b);
    if a == [] {
    } else {
      HeadsSame(a, b);
      hide FlatCanvas;
      CanvasInjective(a[1..], b[1..]);
      assert a == [a[0]] + a[1..] && b == [b[0]] + b[1..];
    }
  }

  // ---------------------------------------------------------------- rows of fixed width

  function ButtonFields(b: Button): seq<string> { [b.caption, b.action] }

  function TabFields(t: Tab): seq<string> { [t.caption, t.action] }

  function ListFields(r: ListRow): seq<string> { [r.title, r.subtitle, r.action] }

  function RichFields(r: RichRow): seq<string> { [r.caption, r.kind, r.values, r.action, r.value] }

  /** `iter().flat_map(..).collect()`. */
  function Flat<T>(rows: seq<T>, fields: T -> seq<string>): seq<string> {
    if rows == [] then [] else fields(rows[0]) + Flat(rows[1..], fields)
  }

  lemma {:induction false} FlatInjective<T(!new)>(a: seq<T>, b: seq<T>, fields: T -> seq<string>, width: nat)
    requires width > 0 && forall r :: |fields(r)| == width
    requires forall r, s :: fields(r) == fields(s) ==> r == s
    requires Flat(a, fields) == Flat(b, fields)
    ensures a == b
  {
    FlatEmpty(a, fields, width);
    FlatEmpty(b, fields, width);
    if a == [] {
    } else {
      var s, t := Flat(a, fields), Flat(b, fields);
      assert fields(a[0]) == s[..width] == t[..width] == fields(b[0]);
      assert Flat(a[1..], fields) == s[width..] == t[width..] == Flat(b[1..], fields);
      FlatInjective(a[1..], b[1..], fields, width);
      assert a == [a[0]] + a[1..] && b == [b[0]] + b[1..];
    }
  }

  lemma FlatEmpty<T(!new)>(a: seq<T>, fields: T -> seq<string>, width: nat)
    requires width > 0 && forall r :: |fields(r)| == width
    ensures Flat(a, fields) == [] <==> a == []
  {
  }

  lemma {:induction false} FlatAppend<T>(a: seq<T>, r: T, fields: T -> seq<string>)
    ensures Flat(a + [r], fields) == Flat(a, fields) + fields(r)
  {
    if a == [] {
      assert [r][1..] == [];
      assert fields(r) + [] == fields(r);
    } else {
      FlatAppend(a[1..], r, fields);
      assert (a + [r])[1..] == a[1..] + [r];
      assert fields(a[0]) + (Flat(a[1..], fields) + fields(r)) == fields(a[0]) + Flat(a[1..], fields) + fields(r);
    }
  }

  /** The fields of row i stand together in the flat list, from place width times i on. */
  lemma {:induction false} RowInFlat<T>(rows: seq<T>, fields: T -> seq<string>, width: nat, i: nat)
    requires i < |rows| && forall k :: 0 <= k < |rows| ==> |fields(rows[k])| == width
    ensures |Flat(rows, fields)| == width * |rows| && width * i + width <= width * |rows|
    ensures Flat(rows, fields)[width * i..width * i + width] == fields(rows[i])
    decreases rows
  {
    FlatSize(rows, fields, width);
    FlatSize(rows[1..], fields, width);
    var flat, rest := Flat(rows, fields), Flat(rows[1..], fields);
    Product(width, |rows|, i);
    if i == 0 {
      assert flat[0..width] == fields(rows[0]);
    } else {
      RowInFlat(rows[1..], fields, width, i - 1);
      var k := width * (i - 1);
      assert width * i == width + k;
      assert flat[width + k..width + k + width] == rest[k..k + width];
    }
  }

  lemma {:induction false} Product(width: nat, n: nat, i: nat)
    requires i < n
    ensures width * i + width <= width * n
  {
    assert width * n == width * (n - 1) + width;
    if i < n - 1 {
      Product(width, n - 1, i);
    }
  }

  lemma {:induction false} FlatSize<T>(rows: seq<T>, fields: T -> seq<string>, width: nat)
    requires forall k :: 0 <= k < |rows| ==> |fields(rows[k])| == width
    ensures |Flat(rows, fields)| == width * |rows|
  {
    if rows != [] {
      FlatSize(rows[1..], fields, width);
      assert width * |rows| == width + width * (|rows| - 1);
    }
  }

  /** Which field stands where, in each of the flat lists. */
  lemma FieldPlaces(h: Horb, i: nat)
    ensures i < |h.tabs| ==>
              && |Flat(h.tabs, TabFields)| >= 2 * i + 2
              && Flat(h.tabs, TabFields)[2 * i..2 * i + 2] == [h.tabs[i].caption, h.tabs[i].action]
    ensures i < |h.list| ==>
              && |Flat(h.list, ListFields)| >= 3 * i + 3
              && Flat(h.list, ListFields)[3 * i..3 * i + 3] == [h.list[i].title, h.list[i].subtitle, h.list[i].action]
    ensures i < |h.richList| ==>
              && |Flat(h.richList, RichFields)| >= 5 * i + 5
              && var r := h.richList[i];
                 Flat(h.richList, RichFields)[5 * i..5 * i + 5] == [r.caption, r.kind, r.values, r.action, r.value]
    ensures i < |h.buttons| ==>
              && |Flat(h.buttons, ButtonFields)| >= 2 * i + 2
              && Flat(h.buttons, ButtonFields)[2 * i..2 * i + 2] == [h.buttons[i].caption, h.buttons[i].action]
  {
    if i < |h.tabs| {
      RowInFlat(h.tabs, TabFields, 2, i);
    }
    if i < |h.list| {
      RowInFlat(h.list, ListFields, 3, i);
    }
    if i < |h.richList| {
      RowInFlat(h.richList, RichFields, 5, i);
    }
    if i < |h.buttons| {
      RowInFlat(h.buttons, ButtonFields, 2, i);
    }
  }

  // ---------------------------------------------------------------- buttons

  const EXIT := Button("ВЫЙТИ", "exit")

  /** A window that has buttons ends with one that leaves it. */
  function Closed(buttons: seq<Button>): seq<Button> {
    if buttons == [] || buttons[|buttons| - 1].action == "exit" then buttons else buttons + [EXIT]
  }

  /** The button list of `to_json`. */
  method FlattenButtons(buttons: seq<Button>) returns (flat: seq<string>)
    requires buttons != []
    ensures flat == Flat(Closed(buttons), ButtonFields)
  {
    flat := [];
    for i := 0 to |buttons|
      invariant flat == Flat(buttons[..i], ButtonFields)
      invariant i > 0 ==> |flat| > 0 && flat[|flat| - 1] == buttons[i - 1].action
    {
      FlatAppend(buttons[..i], buttons[i], ButtonFields);
      assert buttons[..i + 1] == buttons[..i] + [buttons[i]];
      flat := flat + [buttons[i].caption, buttons[i].action];
    }
    assert buttons[..|buttons|] == buttons;
    if flat[|flat| - 1] != "exit" {
      FlatAppend(buttons, EXIT, ButtonFields);
      flat := flat + ["ВЫЙТИ", "exit"];
    }
  }

  // ---------------------------------------------------------------- the whole object

  datatype Json = JBool(b: bool) | JString(s: string) | JList(xs: seq<string>)

  datatype JsonKey =
    | TitleKey | TextKey | BackKey | AdminKey | CssKey | CardKey | InvKey | InputPlaceKey | InputConsoleKey
    | CanvasKey | ButtonsKey | TabsKey | CrysLeftKey | CrysRightKey | CrysLinesKey | CrysBuyKey | ListKey | RichListKey

  function NonEmpty(s: string): Option<Json> {
    if s == [] then None else Some(JString(s))
  }

  function NonEmptyList(xs: seq<string>): Option<Json> {
    if xs == [] then None else Some(JList(xs))
  }

  /** What the object says under a key, if it has the key. */
  function Field(h: Horb, k: JsonKey): Option<Json> {
    match k
    case TitleKey => Some(JString(h.title))
    case TextKey => Some(JString(h.text))
    case BackKey => Some(JBool(false))
    case AdminKey => Some(JBool(h.admin))
    case CssKey => NonEmpty(h.css)
    case CardKey => NonEmpty(h.card)
    case InvKey => NonEmpty(h.inventory)
    case InputPlaceKey => NonEmpty(h.inputPlaceholder)
    case InputConsoleKey => if h.inputConsole then Some(JBool(true)) else None
    case CanvasKey => NonEmptyList(FlatCanvas(h.canvas))
    case ButtonsKey => NonEmptyList(Flat(Closed(h.buttons), ButtonFields))
    case TabsKey => NonEmptyList(Flat(h.tabs, TabFields))
    case CrysLeftKey => if h.crystalLines == [] then None else Some(JString(h.crystalLeft))
    case CrysRightKey => if h.crystalLines == [] then None else Some(JString(h.crystalRight))
    case CrysLinesKey => NonEmptyList(h.crystalLines)
    case CrysBuyKey => if h.crystalLines != [] && h.crystalBuy then Some(JBool(true)) else None
    case ListKey => NonEmptyList(Flat(h.list, ListFields))
    case RichListKey => NonEmptyList(Flat(h.richList, RichFields))
  }

  ghost predicate Encodes(m: map<JsonKey, Json>, h: Horb) {
    forall k: JsonKey :: (k in m <==> Field(h, k).Some?) && (k in m ==> m[k] == Field(h, k).value)
  }

  lemma KeyOf(m: map<JsonKey, Json>, h: Horb, k: JsonKey)
    requires Encodes(m, h)
    ensures (k in m <==> Field(h, k).Some?) && (k in m ==> m[k] == Field(h, k).value)
  {
  }

  /** The object key by key: texts and flags. */
  lemma TextsExactly(m: map<JsonKey, Json>, h: Horb)
    requires Encodes(m, h)
    ensures TitleKey in m && m[TitleKey] == JString(h.title) && TextKey in m && m[TextKey] == JString(h.text)
    ensures BackKey in m && m[BackKey] == JBool(false) && AdminKey in m && m[AdminKey] == JBool(h.admin)
    ensures (CssKey in m <==> h.css != "") && (CssKey in m ==> m[CssKey] == JString(h.css))
    ensures (CardKey in m <==> h.card != "") && (CardKey in m ==> m[CardKey] == JString(h.card))
    ensures (InvKey in m <==> h.inventory != "") && (InvKey in m ==> m[InvKey] == JString(h.inventory))
    ensures (InputPlaceKey in m <==> h.inputPlaceholder != "")
         && (InputPlaceKey in m ==> m[InputPlaceKey] == JString(h.inputPlaceholder))
    ensures (InputConsoleKey in m <==> h.inputConsole) && (InputConsoleKey in m ==> m[InputConsoleKey] == JBool(true))
  {
    hide Encodes, Flat, FlatCanvas, Closed;
    KeyOf(m, h, TitleKey);
    KeyOf(m, h, TextKey);
    KeyOf(m, h, BackKey);
    KeyOf(m, h, AdminKey);
    KeyOf(m, h, CssKey);
    KeyOf(m, h, CardKey);
    KeyOf(m, h, InvKey);
    KeyOf(m, h, InputPlaceKey);
    KeyOf(m, h, InputConsoleKey);
  }

  /** The crystal panel, all of it or nothing. */
  lemma CrystalsExactly(m: map<JsonKey, Json>, h: Horb)
    requires Encodes(m, h)
    ensures var shown := h.crystalLines != [];
            && (CrysLeftKey in m <==> shown) && (shown ==> m[CrysLeftKey] == JString(h.crystalLeft))
            && (CrysRightKey in m <==> shown) && (shown ==> m[CrysRightKey] == JString(h.crystalRight))
            && (CrysLinesKey in m <==> shown) && (shown ==> m[CrysLinesKey] == JList(h.crystalLines))
            && (CrysBuyKey in m <==> shown && h.crystalBuy) && (CrysBuyKey in m ==> m[CrysBuyKey] == JBool(true))
  {
    hide Encodes, Flat, FlatCanvas, Closed;
    KeyOf(m, h, CrysLeftKey);
    KeyOf(m, h, CrysRightKey);
    KeyOf(m, h, CrysLinesKey);
    KeyOf(m, h, CrysBuyKey);
  }

  /** The lists, each under its key unless it is empty; the buttons with one to leave by. */
  lemma ListsExactly(m: map<JsonKey, Json>, h: Horb)
    requires Encodes(m, h)
    ensures (CanvasKey in m <==> h.canvas != []) && (CanvasKey in m ==> m[CanvasKey] == JList(FlatCanvas(h.canvas)))
    ensures (TabsKey in m <==> h.tabs != []) && (TabsKey in m ==> m[TabsKey] == JList(Flat(h.tabs, TabFields)))
    ensures (ListKey in m <==> h.list != []) && (ListKey in m ==> m[ListKey] == JList(Flat(h.list, ListFields)))
    ensures (RichListKey in m <==> h.richList != [])
         && (RichListKey in m ==> m[RichListKey] == JList(Flat(h.richList, RichFields)))
    ensures (ButtonsKey in m <==> h.buttons != [])
         && (h.buttons != [] ==>
               var flat, last := Flat(h.buttons, ButtonFields), h.buttons[|h.buttons| - 1];
               m[ButtonsKey] == JList(if last.action == "exit" then flat else flat + ["ВЫЙТИ", "exit"]))
  {
    hide Encodes, Flat, FlatCanvas;
    ListsEmpty(h);
    FlatAppend(h.buttons, EXIT, ButtonFields);
    KeyOf(m, h, CanvasKey);
    KeyOf(m, h, TabsKey);
    KeyOf(m, h, ListKey);
    KeyOf(m, h, RichListKey);
    KeyOf(m, h, ButtonsKey);
  }

  /** What the object leaves out: the rest of an empty crystal panel, and whether a window with
      buttons had the closing one itself. */
  function Normal(h: Horb): Horb {
    var closed := h.(buttons := Closed(h.buttons));
    if h.crystalLines == [] then closed.(crystalLeft := "", crystalRight := "", crystalBuy := false) else closed
  }

  lemma NormalSame(h: Horb, k: JsonKey)
    ensures Field(Normal(h), k) == Field(h, k)
  {
  }

  lemma RowsInjective(a: Horb, b: Horb)
    requires Field(a, TabsKey) == Field(b, TabsKey) && Field(a, ListKey) == Field(b, ListKey)
    requires Field(a, RichListKey) == Field(b, RichListKey) && Field(a, ButtonsKey) == Field(b, ButtonsKey)
    ensures a.tabs == b.tabs && a.list == b.list && a.richList == b.richList && Closed(a.buttons) == Closed(b.buttons)
  {
    hide Closed, Flat;
    FlatInjective(a.tabs, b.tabs, TabFields, 2);
    FlatInjective(a.list, b.list, ListFields, 3);
    FlatInjective(a.richList, b.richList, RichFields, 5);
    FlatInjective(Closed(a.buttons), Closed(b.buttons), ButtonFields, 2);
  }

  /** Two windows are sent as the same object exactly when they differ in nothing but what the
      object leaves out. */
  lemma SameObjectExactly(a: Horb, b: Horb, m: map<JsonKey, Json>, n: map<JsonKey, Json>)
    requires Encodes(m, a) && Encodes(n, b)
    ensures m == n <==> Normal(a) == Normal(b)
  {
    if m == n {
      forall k: JsonKey
        ensures Field(a, k) == Field(b, k)
      {
        assert k in m <==> k in n;
      }
      SameFields(a, b);
    }
    if Normal(a) == Normal(b) {
      forall k: JsonKey
        ensures (k in m <==> k in n) && (k in m ==> m[k] == n[k])
      {
        NormalSame(a, k);
        NormalSame(b, k);
      }
    }
  }

  lemma TextsSame(a: Horb, b: Horb)
    requires forall k: JsonKey :: Field(a, k) == Field(b, k)
    ensures a.title == b.title && a.text == b.text && a.admin == b.admin
    ensures a.css == b.css && a.card == b.card && a.inventory == b.inventory
    ensures a.inputPlaceholder == b.inputPlaceholder && a.inputConsole == b.inputConsole
  {
    hide FlatCanvas, Flat;
    assert Field(a, TitleKey) == Field(b, TitleKey) && Field(a, TextKey) == Field(b, TextKey);
    assert Field(a, AdminKey) == Field(b, AdminKey) && Field(a, CssKey) == Field(b, CssKey);
    assert Field(a, CardKey) == Field(b, CardKey) && Field(a, InvKey) == Field(b, InvKey);
    assert Field(a, InputPlaceKey) == Field(b, InputPlaceKey) && Field(a, InputConsoleKey) == Field(b, InputConsoleKey);
  }

  lemma CrystalsSame(a: Horb, b: Horb)
    requires forall k: JsonKey :: Field(a, k) == Field(b, k)
    ensures a.crystalLines == b.crystalLines
    ensures a.crystalLines != [] ==>
              a.crystalLeft == b.crystalLeft && a.crystalRight == b.crystalRight && a.crystalBuy == b.crystalBuy
  {
    hide FlatCanvas, Flat;
    assert Field(a, CrysLinesKey) == Field(b, CrysLinesKey) && Field(a, CrysBuyKey) == Field(b, CrysBuyKey);
    assert Field(a, CrysLeftKey) == Field(b, CrysLeftKey) && Field(a, CrysRightKey) == Field(b, CrysRightKey);
  }

  lemma SameFields(a: Horb, b: Horb)
    requires forall k: JsonKey :: Field(a, k) == Field(b, k)
    ensures Normal(a) == Normal(b)
  {
    RowsInjective(a, b);
    assert Field(a, CanvasKey) == Field(b, CanvasKey);
    CanvasInjective(a.canvas, b.canvas);
    TextsSame(a, b);
    CrystalsSame(a, b);
  }

  // ---------------------------------------------------------------- writing it

  /** The keys in the order the object is filled. */
  function Rank(k: JsonKey): nat {
    match k
    case TitleKey => 0 case TextKey => 1 case BackKey => 2 case AdminKey => 3 case CssKey => 4
    case CardKey => 5 case InvKey => 6 case InputPlaceKey => 7 case InputConsoleKey => 8
    case CanvasKey => 9 case ButtonsKey => 10 case TabsKey => 11 case CrysLeftKey => 12
    case CrysRightKey => 13 case CrysLinesKey => 14 case CrysBuyKey => 15 case ListKey => 16
    case RichListKey => 17
  }

  /** The first n keys are written. */
  ghost predicate Written(m: map<JsonKey, Json>, h: Horb, n: nat) {
    forall k: JsonKey :: (k in m <==> Rank(k) < n && Field(h, k).Some?) && (k in m ==> m[k] == Field(h, k).value)
  }

  lemma WriteNext(m: map<JsonKey, Json>, h: Horb, k: JsonKey)
    requires Written(m, h, Rank(k))
    ensures Written(if Field(h, k).Some? then m[k := Field(h, k).value] else m, h, Rank(k) + 1)
  {
    hide Field;
  }

  method InsertNonEmpty(m: map<JsonKey, Json>, k: JsonKey, value: string) returns (r: map<JsonKey, Json>)
    ensures r == if NonEmpty(value).Some? then m[k := NonEmpty(value).value] else m
  {
    r := m;
    if value != [] {
      r := r[k := JString(value)];
    }
  }

  /** The first part of `to_json`: texts and flags. */
  method WriteTexts(h: Horb) returns (m: map<JsonKey, Json>)
    ensures Written(m, h, 9)
  {
    hide FlatCanvas, Flat, Written;
    m := map[];
    NothingWritten(h);
    WriteNext(m, h, TitleKey);
    m := m[TitleKey := JString(h.title)];
    WriteNext(m, h, TextKey);
    m := m[TextKey := JString(h.text)];
    WriteNext(m, h, BackKey);
    m := m[BackKey := JBool(false)];
    WriteNext(m, h, AdminKey);
    m := m[AdminKey := JBool(h.admin)];
    WriteNext(m, h, CssKey);
    m := InsertNonEmpty(m, CssKey, h.css);
    WriteNext(m, h, CardKey);
    m := InsertNonEmpty(m, CardKey, h.card);
    WriteNext(m, h, InvKey);
    m := InsertNonEmpty(m, InvKey, h.inventory);
    WriteNext(m, h, InputPlaceKey);
    m := InsertNonEmpty(m, InputPlaceKey, h.inputPlaceholder);
    WriteNext(m, h, InputConsoleKey);
    if h.inputConsole {
      m := m[InputConsoleKey := JBool(true)];
    }
  }

  lemma {:induction false} CanvasAppend(c: seq<CanvasElement>, e: CanvasElement)
    ensures FlatCanvas(c + [e]) == FlatCanvas(c) + FlatElement(e)
  {
    hide FlatElement;
    if c == [] {
      assert [e][1..] == [];
      assert FlatElement(e) + [] == FlatElement(e);
    } else {
      CanvasAppend(c[1..], e);
      assert (c + [e])[1..] == c[1..] + [e];
      ConcatAssociates(FlatElement(c[0]), FlatCanvas(c[1..]), FlatElement(e));
    }
  }

  method FlattenCanvas(canvas: seq<CanvasElement>) returns (flat: seq<string>)
    ensures flat == FlatCanvas(canvas)
  {
    hide Position;
    flat := [];
    for i := 0 to |canvas|
      invariant flat == FlatCanvas(canvas[..i])
    {
      CanvasAppend(canvas[..i], canvas[i]);
      assert canvas[..i + 1] == canvas[..i] + [canvas[i]];
      match canvas[i] {
        case Rect(_, _, _, _, _) => flat := flat + [Position(canvas[i])];
        case TeleportPoint(_, _, action) => flat := flat + [Position(canvas[i]), action];
      }
    }
    assert canvas[..|canvas|] == canvas;
  }

  lemma ListsEmpty(h: Horb)
    ensures FlatCanvas(h.canvas) == [] <==> h.canvas == []
    ensures Flat(Closed(h.buttons), ButtonFields) == [] <==> h.buttons == []
    ensures Flat(h.tabs, TabFields) == [] <==> h.tabs == []
    ensures Flat(h.list, ListFields) == [] <==> h.list == []
    ensures Flat(h.richList, RichFields) == [] <==> h.richList == []
  {
    FlatEmpty(Closed(h.buttons), ButtonFields, 2);
    FlatEmpty(h.tabs, TabFields, 2);
    FlatEmpty(h.list, ListFields, 3);
    FlatEmpty(h.richList, RichFields, 5);
  }

  /** Canvas, buttons and tabs. */
  method WritePanels(h: Horb, texts: map<JsonKey, Json>) returns (m: map<JsonKey, Json>)
    requires Written(texts, h, 9)
    ensures Written(m, h, 12)
  {
    ListsEmpty(h);
    hide FlatCanvas, Flat, Written;
    m := texts;
    WriteNext(m, h, CanvasKey);
    if h.canvas != [] {
      var canvas := FlattenCanvas(h.canvas);
      m := m[CanvasKey := JList(canvas)];
    }
    WriteNext(m, h, ButtonsKey);
    if h.buttons != [] {
      var buttons := FlattenButtons(h.buttons);
      m := m[ButtonsKey := JList(buttons)];
    }
    WriteNext(m, h, TabsKey);
    if h.tabs != [] {
      m := m[TabsKey := JList(Flat(h.tabs, TabFields))];
    }
  }

  /** The crystal panel, all of it or nothing. */
  method WriteCrystals(h: Horb, panels: map<JsonKey, Json>) returns (m: map<JsonKey, Json>)
    requires Written(panels, h, 12)
    ensures Written(m, h, 16)
  {
    hide FlatCanvas, Flat, Written;
    m := panels;
    WriteNext(m, h, CrysLeftKey);
    if h.crystalLines != [] {
      m := m[CrysLeftKey := JString(h.crystalLeft)];
      WriteNext(m, h, CrysRightKey);
      m := m[CrysRightKey := JString(h.crystalRight)];
      WriteNext(m, h, CrysLinesKey);
      m := m[CrysLinesKey := JList(h.crystalLines)];
      WriteNext(m, h, CrysBuyKey);
      if h.crystalBuy {
        m := m[CrysBuyKey := JBool(true)];
      }
    } else {
      WriteNext(m, h, CrysRightKey);
      WriteNext(m, h, CrysLinesKey);
      WriteNext(m, h, CrysBuyKey);
    }
  }

  method WriteRows(h: Horb, crystals: map<JsonKey, Json>) returns (m: map<JsonKey, Json>)
    requires Written(crystals, h, 16)
    ensures Written(m, h, 18)
  {
    ListsEmpty(h);
    hide FlatCanvas, Flat, Written;
    m := crystals;
    WriteNext(m, h, ListKey);
    if h.list != [] {
      m := m[ListKey := JList(Flat(h.list, ListFields))];
    }
    WriteNext(m, h, RichListKey);
    if h.richList != [] {
      m := m[RichListKey := JList(Flat(h.richList, RichFields))];
    }
  }

  lemma NothingWritten(h: Horb)
    ensures Written(map[], h, 0)
  {
    hide Field;
  }

  lemma AllWritten(m: map<JsonKey, Json>, h: Horb)
    requires Written(m, h, 18)
    ensures Encodes(m, h)
  {
    hide Field;
  }

  /** `Horb::to_json`. */
  method ToJson(h: Horb) returns (m: map<JsonKey, Json>)
    ensures Encodes(m, h)
  {
    m := WriteTexts(h);
    m := WritePanels(h, m);
    m := WriteCrystals(h, m);
    m := WriteRows(h, m);
    hide Written, Encodes;
    AllWritten(m, h);
  }
}
