/** The recursive descent of pkg/filter/parser.go as functions on the symbols still to be read.
    A failure carries how many symbols were left at the offending one. */
module FilterGrammar {
  import opened FilterSyntax
  import opened FilterLexer

  const MAX_LEVELS := 100

  datatype Parsed<+T> = Ok(value: T, rest: seq<Sym>) | Err(left: nat) {
    predicate IsFailure() { Err? }
    function PropagateFailure<U>(): Parsed<U>
      requires Err?
    {
      Err(left)
    }
    function Extract(): (T, seq<Sym>)
      requires Ok?
    {
      (value, rest)
    }
  }

  /** What a scan delivers: only its last symbol is Eol or Illegal. */
  ghost predicate Stream(s: seq<Sym>)
  {
    && |s| >= 1 && EndsStream(s[|s| - 1].tok)
    && forall i :: 0 <= i < |s| - 1 ==> !EndsStream(s[i].tok)
  }

  /** A stream whose first symbol the parser has taken in as its current token. */
  ghost predicate Live(s: seq<Sym>)
  {
    |s| >= 1 && Stream(s) && s[0].tok != Illegal
  }

  /** p.next() with a current token that is not the end of input. */
  function Advance(s: seq<Sym>): (r: Parsed<()>)
    requires Stream(s) && !EndsStream(s[0].tok)
    ensures r.Ok? ==> Live(r.rest) && r.rest == s[1..]
    ensures r.Err? ==> 1 <= r.left <= |s|
  {
    if s[1].tok == Illegal then Err(|s| - 1) else Ok((), s[1..])
  }

  /** p.expect(tok) and then p.next(), giving the text of the token passed over. */
  function Take(s: seq<Sym>, tok: Token): (r: Parsed<string>)
    requires Live(s) && !EndsStream(tok)
    ensures r.Ok? ==> Live(r.rest) && r.rest == s[1..] && s[0] == Sym(tok, r.value)
    ensures r.Err? ==> 1 <= r.left <= |s|
  {
    if s[0].tok != tok then Err(|s|)
    else
      var (_, s1) :- Advance(s);
      Ok(s[0].val, s1)
  }

  /** The literal a symbol denotes, if it is one. */
  function LiteralOf(x: Sym, re: string -> bool): (e: Parsed<Expression>)
  {
    match x.tok
    case StringLit => Ok(StringExpr(x.val), [])
    case Quantity => Ok(QuantityOf(x.val), [])
    case Boolean => Ok(BoolExpr(Lower(x.val) == "true"), [])
    case RegexLit => if re(x.val) then Ok(RegexExpr(x.val), []) else Err(0)
    case _ => Err(0)
  }

  function PValue(s: seq<Sym>, re: string -> bool): (r: Parsed<Expression>)
    requires Live(s)
    ensures r.Ok? ==> Live(r.rest) && |r.rest| < |s|
    ensures r.Err? ==> 1 <= r.left <= |s|
  {
    var l := LiteralOf(s[0], re);
    if l.Err? then Err(|s|)
    else
      var (_, s1) :- Advance(s);
      Ok(l.value, s1)
  }

  function PListRest(values: seq<string>, s: seq<Sym>): (r: Parsed<seq<string>>)
    requires Live(s)
    ensures r.Ok? ==> Live(r.rest) && |r.rest| < |s|
    ensures r.Err? ==> 1 <= r.left <= |s|
    decreases |s|
  {
    if s[0].tok == Comma then
      var (_, s1) :- Advance(s);
      var (v, s2) :- Take(s1, StringLit);
      PListRest(values + [v], s2)
    else
      var (_, s1) :- Take(s, RSquare);
      Ok(values, s1)
  }

  function PList(s: seq<Sym>): (r: Parsed<seq<string>>)
    requires Live(s)
    ensures r.Ok? ==> Live(r.rest) && |r.rest| < |s|
    ensures r.Err? ==> 1 <= r.left <= |s|
  {
    var (_, s1) :- Take(s, LSquare);
    if s1[0].tok == RSquare then
      var (_, s2) :- Advance(s1);
      Ok([], s2)
    else
      var (v, s2) :- Take(s1, StringLit);
      PListRest([v], s2)
  }

  predicate IsComparison(t: Token) { t in {Equal, NotEqual, Greater, Gte, Less, Lte} }

  /** What the token after the operator must be; the comparison operators accept any literal. */
  predicate OperandAllowed(op: Token, operand: Token)
  {
    || IsComparison(op)
    || ((op == Like || op == NotLike) && operand == RegexLit)
    || (op == Like2 && operand == StringLit)
  }

  predicate IsOperator(t: Token) { IsComparison(t) || t in {Like, NotLike, Like2} }

  /** From the keyword in on. */
  function PIn(name: string, s: seq<Sym>, negated: bool): (r: Parsed<Expression>)
    requires Live(s) && s[0].tok == In
    ensures r.Ok? ==> Live(r.rest) && |r.rest| < |s|
    ensures r.Err? ==> 1 <= r.left <= |s|
  {
    var (_, s1) :- Advance(s);
    var (values, s2) :- PList(s1);
    Ok(InExpr(VarExpr(name), values, negated), s2)
  }

  /** From the keyword contains on. */
  function PContains(name: string, s: seq<Sym>, negated: bool): (r: Parsed<Expression>)
    requires Live(s)
    ensures r.Ok? ==> Live(r.rest) && |r.rest| < |s|
    ensures r.Err? ==> 1 <= r.left <= |s|
  {
    var (_, s1) :- Take(s, Contains);
    var (v, s2) :- Take(s1, StringLit);
    Ok(ContainsExpr(VarExpr(name), v, negated), s2)
  }

  /** From the operator on. */
  function PCompare(name: string, s: seq<Sym>, re: string -> bool): (r: Parsed<Expression>)
    requires Live(s)
    ensures r.Ok? ==> Live(r.rest) && |r.rest| < |s|
    ensures r.Err? ==> 1 <= r.left <= |s|
  {
    if !IsOperator(s[0].tok) then Err(|s|)
    else
      var (_, s1) :- Advance(s);
      if !OperandAllowed(s[0].tok, s1[0].tok) then Err(|s1|)
      else
        var (right, s2) :- PValue(s1, re);
        Ok(BinaryExpr(VarExpr(name), s[0].tok, right), s2)
  }

  /** The part of equality after the identifier. */
  function PPredicate(name: string, s: seq<Sym>, re: string -> bool): (r: Parsed<Expression>)
    requires Live(s)
    ensures r.Ok? ==> Live(r.rest) && |r.rest| < |s|
    ensures r.Err? ==> 1 <= r.left <= |s|
  {
    if s[0].tok == In then PIn(name, s, false)
    else if s[0].tok == Not then
      var (_, s1) :- Advance(s);
      if s1[0].tok == In then PIn(name, s1, true) else PContains(name, s1, true)
    else if s[0].tok == Contains then PContains(name, s, false)
    else PCompare(name, s, re)
  }

  function PEquality(s: seq<Sym>, re: string -> bool): (r: Parsed<Expression>)
    requires Live(s)
    ensures r.Ok? ==> Live(r.rest) && |r.rest| < |s|
    ensures r.Err? ==> 1 <= r.left <= |s|
  {
    var (name, s1) :- Take(s, Identifier);
    PPredicate(name, s1, re)
  }

  function PFactor(s: seq<Sym>, level: nat, re: string -> bool): (r: Parsed<Expression>)
    requires Live(s)
    ensures r.Ok? ==> Live(r.rest) && |r.rest| < |s|
    ensures r.Err? ==> 1 <= r.left <= |s|
    decreases |s|, 0
  {
    if s[0].tok == LBracket then
      var (_, s1) :- Advance(s);
      var (e, s2) :- PExpression(s1, level, re);
      var (_, s3) :- Take(s2, RBracket);
      Ok(e, s3)
    else PEquality(s, re)
  }

  function PTerm(s: seq<Sym>, level: nat, re: string -> bool): (r: Parsed<Expression>)
    requires Live(s)
    ensures r.Ok? ==> Live(r.rest) && |r.rest| < |s|
    ensures r.Err? ==> 1 <= r.left <= |s|
    decreases |s|, 1
  {
    var (e, s1) :- PFactor(s, level, re);
    AndLoop(e, s1, level, re)
  }

  function AndLoop(left: Expression, s: seq<Sym>, level: nat, re: string -> bool): (r: Parsed<Expression>)
    requires Live(s)
    ensures r.Ok? ==> Live(r.rest) && |r.rest| <= |s|
    ensures r.Err? ==> 1 <= r.left <= |s|
    decreases |s|, 2
  {
    if s[0].tok == And then
      var (_, s1) :- Advance(s);
      var (right, s2) :- PFactor(s1, level, re);
      AndLoop(BinaryExpr(left, And, right), s2, level, re)
    else Ok(left, s)
  }

  function OrLoop(left: Expression, s: seq<Sym>, level: nat, re: string -> bool): (r: Parsed<Expression>)
    requires Live(s)
    ensures r.Ok? ==> Live(r.rest) && |r.rest| <= |s|
    ensures r.Err? ==> 1 <= r.left <= |s|
    decreases |s|, 2
  {
    if s[0].tok == Or then
      var (_, s1) :- Advance(s);
      var (right, s2) :- PTerm(s1, level, re);
      OrLoop(BinaryExpr(left, Or, right), s2, level, re)
    else Ok(left, s)
  }

  /** The terms of an expression whose level has been counted. */
  function PTerms(s: seq<Sym>, level: nat, re: string -> bool): (r: Parsed<Expression>)
    requires Live(s)
    ensures r.Ok? ==> Live(r.rest) && |r.rest| < |s|
    ensures r.Err? ==> 1 <= r.left <= |s|
    decreases |s|, 2
  {
    var (e, s1) :- PTerm(s, level, re);
    OrLoop(e, s1, level, re)
  }

  /** expression, called with countExpression == level. */
  function PExpression(s: seq<Sym>, level: nat, re: string -> bool): (r: Parsed<Expression>)
    requires Live(s)
    ensures r.Ok? ==> Live(r.rest) && |r.rest| < |s|
    ensures r.Err? ==> 1 <= r.left <= |s|
    decreases |s|, 3
  {
    if level + 1 > MAX_LEVELS then Err(|s|) else PTerms(s, level + 1, re)
  }

  /** parse, from the first symbol on. */
  function PFilter(s: seq<Sym>, re: string -> bool): (r: Parsed<Expression>)
    requires Stream(s)
    ensures r.Err? ==> 1 <= r.left <= |s|
  {
    if s[0].tok == Illegal then Err(|s|)
    else
      var (e, s1) :- PExpression(s, 0, re);
      if s1[0].tok == Eol then Ok(e, []) else Err(|s1|)
  }
}
