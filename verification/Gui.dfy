/** The window document that markup builds, and the values its attributes evaluate to. */
module GuiDocument {

  datatype Button = Button(caption: string, action: string)

  datatype Tab = Tab(caption: string, action: string)

  datatype ListRow = ListRow(title: string, subtitle: string, action: string)

  datatype RichRow = RichRow(caption: string, kind: string, values: string, action: string, value: string)

  datatype CanvasElement =
    | Rect(x: int, y: int, width: int, height: int, color: string)
    | TeleportPoint(x: int, y: int, action: string)

  datatype Horb = Horb(
    title: string, text: string, buttons: seq<Button>, tabs: seq<Tab>, list: seq<ListRow>,
    richList: seq<RichRow>, admin: bool, crystalLines: seq<string>, crystalLeft: string,
    crystalRight: string, crystalBuy: bool, canvas: seq<CanvasElement>, css: string, card: string,
    inventory: string, inputPlaceholder: string, inputConsole: bool)

  function NewHorb(title: string): Horb {
    Horb(title, "", [], [], [], [], false, [], "", "", false, [], "", "", "", "", false)
  }

  /** What a Rust expression of an attribute can hold; `Window` is the builder itself. */
  datatype Value =
    | Str(s: string)
    | Num(n: int)
    | Flag(b: bool)
    | List(xs: seq<Value>)
    | Window(h: Horb)
  {
    function AsInt(): int { if Num? then n else 0 }

    predicate AsBool() { Flag? && b }

    function AsList(): seq<Value> { if List? then xs else [] }
  }

  function Digits(n: nat): string {
    if n < 10 then ["0123456789"[n]] else Digits(n / 10) + ["0123456789"[n % 10]]
  }

  function Decimal(n: int): string {
    if n < 0 then "-" + Digits(-n) else Digits(n)
  }

  /** `Display` and `Into<String>`. */
  function Show(v: Value): string {
    match v
    case Str(s) => s
    case Num(n) => Decimal(n)
    case Flag(b) => if b then "true" else "false"
    case List(_) => ""
    case Window(_) => ""
  }

  function ShowAll(vs: seq<Value>): seq<string> {
    seq(|vs|, i requires 0 <= i < |vs| => Show(vs[i]))
  }
}

/** Pure attribute expressions: variables, literals and any applied pure operation. */
module GuiExpressions {
  import opened GuiDocument

  datatype Expr =
    | Lit(v: Value, foldable: bool)  // foldable: a token the compiler may print by itself
    | Var(name: string)
    | Apply(op: string, args: seq<Expr>)

  type Env = map<string, Value>

  /** The surrounding Rust program, as far as it is pure: what operations return and what a
      minimap draws. */
  datatype Host = Host(apply: (string, seq<Value>) -> Value, minimap: seq<Value> -> (seq<CanvasElement>, string))

  function Eval(e: Expr, env: Env, host: Host): Value {
    match e
    case Lit(v, _) => v
    case Var(name) => if name in env then env[name] else Str("")
    case Apply(op, args) => host.apply(op, EvalAll(args, env, host))
  }

  function EvalAll(es: seq<Expr>, env: Env, host: Host): (vs: seq<Value>)
    ensures |vs| == |es|
    ensures forall i :: 0 <= i < |es| ==> vs[i] == Eval(es[i], env, host)
  {
    if es == [] then [] else [Eval(es[0], env, host)] + EvalAll(es[1..], env, host)
  }

  /** The expression does not use the variable. */
  predicate Avoids(e: Expr, name: string) {
    match e
    case Lit(_, _) => true
    case Var(n) => n != name
    case Apply(_, args) => AllAvoid(args, name)
  }

  predicate AllAvoid(es: seq<Expr>, name: string) {
    es == [] || (Avoids(es[0], name) && AllAvoid(es[1..], name))
  }

  /** The two environments agree on every other variable. */
  ghost predicate AgreeExcept(env: Env, env': Env, name: string) {
    forall n :: n != name ==> (n in env <==> n in env') && (n in env ==> env[n] == env'[n])
  }

  lemma {:induction false} EvalAgrees(e: Expr, env: Env, env': Env, name: string, host: Host)
    requires Avoids(e, name) && AgreeExcept(env, env', name)
    ensures Eval(e, env, host) == Eval(e, env', host)
  {
    match e
    case Lit(_, _) =>
    case Var(_) =>
    case Apply(_, args) => EvalAllAgrees(args, env, env', name, host);
  }

  lemma {:induction false} EvalAllAgrees(es: seq<Expr>, env: Env, env': Env, name: string, host: Host)
    requires AllAvoid(es, name) && AgreeExcept(env, env', name)
    ensures EvalAll(es, env, host) == EvalAll(es, env', host)
  {
    if es != [] {
      EvalAgrees(es[0], env, env', name, host);
      EvalAllAgrees(es[1..], env, env', name, host);
    }
  }
}
