/** Literal tokens in attributes: what the macro prints for them while compiling is what the program would
    print when running. */
module GuiLiterals {
  import opened Wrappers
  import opened GuiDocument
  import opened GuiExpressions
  import opened GuiCompiler
  import opened GuiEncoding

  /** A literal of the source text. The digits of a number are the base-ten digits of its value, with a
      minus sign if it has one, whatever notation the text uses. `Other` is any other literal: a float, a
      byte string. */
  datatype Token =
    | StrToken(s: string)
    | IntToken(value: int, suffix: string)
    | BoolToken(b: bool)
    | CharToken(c: char)
    | ByteToken(byte: nat)
    | OtherToken(other: Value)

  /** What the token is worth at run time. A suffix gives a number a type and no other value. */
  function Worth(t: Token): Value {
    match t
    case StrToken(s) => Str(s)
    case IntToken(n, _) => Num(n)
    case BoolToken(b) => Flag(b)
    case CharToken(c) => Str([c])
    case ByteToken(n) => Num(n)
    case OtherToken(v) => v
  }

  predicate AllDigits(s: string) {
    forall i :: 0 <= i < |s| ==> IsDigit(s[i])
  }

  /** `literal_attr`: the text of a literal, if the macro may print it. */
  function Printed(t: Token): Option<string> {
    match t
    case StrToken(s) => Some(s)
    case IntToken(n, suffix) => if suffix == "" && AllDigits(Decimal(n)) then Some(Decimal(n)) else None
    case BoolToken(b) => Some(if b then "true" else "false")
    case CharToken(c) => Some([c])
    case ByteToken(n) => Some(Digits(n))
    case OtherToken(_) => None
  }

  /** The token as an attribute expression. */
  function AsExpr(t: Token): Expr {
    Lit(Worth(t), Printed(t).Some?)
  }

  /** The compiler's text for a literal is the one `literal_attr` finds, and what `Display` would print. */
  lemma LiteralPrints(t: Token)
    ensures LiteralText(AsExpr(t)) == Printed(t)
    ensures Printed(t).Some? ==> Printed(t).value == Show(Worth(t))
  {
  }

  /** Numbers are printed exactly when they have no sign and no suffix. */
  lemma NumbersPrinted(n: int, suffix: string)
    ensures Printed(IntToken(n, suffix)).Some? <==> n >= 0 && suffix == ""
  {
    SignFirst(n);
    if n >= 0 {
      DigitsAreDigits(n);
    }
  }
}
