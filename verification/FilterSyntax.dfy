/** Tokens, lexemes and the expression tree of the filter language (pkg/filter/tokens.go, pkg/filter/ast.go). */
module FilterSyntax {

  datatype Token =
    | Illegal | Eol
    | And | Or | Not | In
    | Equal | Gte | Greater | Lte | Less | NotEqual
    | Like | NotLike
    | LBracket | RBracket
    | StringLit | RegexLit | Quantity | Identifier | Boolean
    | Comma | LSquare | RSquare
    | Like2 | Contains

  /** What the parser looks at: a token and its text. */
  datatype Sym = Sym(tok: Token, val: string)

  /** A symbol together with the offset at which it starts. */
  datatype Lexeme = Lexeme(pos: nat, sym: Sym)

  function Syms(ls: seq<Lexeme>): (ss: seq<Sym>)
    ensures |ss| == |ls|
    ensures forall i :: 0 <= i < |ls| ==> ss[i] == ls[i].sym
  {
    seq(|ls|, i requires 0 <= i < |ls| => ls[i].sym)
  }

  datatype QuantityUnit = NoUnit | Kb | Mb | Gb | Tb

  datatype Expression =
    | BinaryExpr(left: Expression, op: Token, right: Expression)
    | StringExpr(text: string)
    | VarExpr(name: string)
    | BoolExpr(truth: bool)
    | RegexExpr(pattern: string)
    | QuantityExpr(amount: real, unit: QuantityUnit)
    | InExpr(subject: Expression, values: seq<string>, negated: bool)
    | ContainsExpr(subject: Expression, element: string, negated: bool)

  function LowerChar(c: char): (r: char)
  {
    if 'A' <= c <= 'Z' then (c as int + 32) as char else c
  }

  /** strings.ToLower on ASCII text; identifiers and literals that reach it hold ASCII letters only. */
  function Lower(s: string): (r: string)
    ensures |r| == |s|
  {
    seq(|s|, i requires 0 <= i < |s| => LowerChar(s[i]))
  }

  predicate IsDigit(c: char) { '0' <= c <= '9' }

  predicate DigitsBetween(s: string, i: nat, j: nat)
    requires j <= |s|
  {
    forall x :: i <= x < j ==> IsDigit(s[x])
  }

  /** The number written by the digits s[i..j]. */
  function DigitsValue(s: string, i: nat, j: nat): nat
    requires i <= j <= |s| && DigitsBetween(s, i, j)
  {
    if i == j then 0 else DigitsValue(s, i, j - 1) * 10 + (s[j - 1] as int - '0' as int)
  }

  function Pow10(n: nat): (r: nat)
    ensures r > 0
  {
    if n == 0 then 1 else 10 * Pow10(n - 1)
  }

  /** Index of the first dot, or |s|. */
  function DotIndex(s: string): (d: nat)
    ensures d <= |s|
    ensures d < |s| ==> s[d] == '.'
    ensures forall i :: 0 <= i < d ==> s[i] != '.'
  {
    if s == "" then 0 else if s[0] == '.' then 0 else 1 + DotIndex(s[1..])
  }

  /** Digits, optionally followed by one dot and more digits. */
  predicate IsDecimal(s: string)
  {
    var d := DotIndex(s);
    d > 0 && DigitsBetween(s, 0, d) && DigitsBetween(s, d + 1, |s|)
  }

  /** strconv.ParseFloat with its error ignored: the exact value of a decimal, 0 for anything else. */
  function ParseDecimal(s: string): real
  {
    if !IsDecimal(s) then 0.0
    else
      var d := DotIndex(s);
      DigitsValue(s, 0, d) as real +
      (if d < |s| then DigitsValue(s, d + 1, |s|) as real / Pow10(|s| - d - 1) as real else 0.0)
  }

  function UnitOfSuffix(suffix: string): QuantityUnit
  {
    if suffix == "kb" then Kb
    else if suffix == "mb" then Mb
    else if suffix == "gb" then Gb
    else if suffix == "tb" then Tb
    else NoUnit
  }

  /** newQuantityExpression */
  function QuantityOf(val: string): (e: Expression)
    ensures e.QuantityExpr?
  {
    if |val| < 3 then QuantityExpr(ParseDecimal(val), NoUnit)
    else
      var unit := UnitOfSuffix(Lower(val[|val| - 2..]));
      QuantityExpr(ParseDecimal(if unit == NoUnit then val else val[..|val| - 2]), unit)
  }
}
