/** The grammar of the filter language as syntax trees, and the parser as exactly its recogniser. */
module FilterGrammarLaws {
  import opened FilterSyntax
  import opened FilterLexer
  import opened FilterGrammar

  // ----- the grammar: expression, term, factor, comparison -----

  datatype Comparison =
    | Compare(name: string, op: Token, operand: Sym)
    | Member(name: string, values: seq<string>, negated: bool)
    | Has(name: string, element: string, negated: bool)

  datatype OrTree = OneTerm(term: AndTree) | OrMore(init: OrTree, last: AndTree)
  datatype AndTree = OneFactor(factor: Factor) | AndMore(init: AndTree, last: Factor)
  datatype Factor = Group(body: OrTree) | Leaf(cmp: Comparison)

  function Plain(t: Token): Sym { Sym(t, "") }

  function StringSym(v: string): Sym { Sym(StringLit, v) }

  /** The symbols of the values after the first, up to the closing bracket. */
  function ListTail(values: seq<string>): seq<Sym>
  {
    if values == [] then [Plain(RSquare)] else [Plain(Comma), StringSym(values[0])] + ListTail(values[1..])
  }

  function ListSyms(values: seq<string>): seq<Sym>
  {
    if values == [] then [Plain(LSquare), Plain(RSquare)]
    else [Plain(LSquare), StringSym(values[0])] + ListTail(values[1..])
  }

  predicate ValidComparison(c: Comparison, re: string -> bool)
  {
    c.Compare? ==> IsOperator(c.op) && OperandAllowed(c.op, c.operand.tok) && LiteralOf(c.operand, re).Ok?
  }

  function ComparisonSyms(c: Comparison): (ss: seq<Sym>)
  {
    [Sym(Identifier, c.name)] + PredicateSyms(c)
  }

  function PredicateSyms(c: Comparison): (ss: seq<Sym>)
  {
    match c
    case Compare(_, op, operand) => [Plain(op), operand]
    case Member(_, values, negated) => Negation(negated) + ([Plain(In)] + ListSyms(values))
    case Has(_, element, negated) => Negation(negated) + [Plain(Contains), StringSym(element)]
  }

  function Negation(negated: bool): seq<Sym> { if negated then [Plain(Not)] else [] }

  function ComparisonTree(c: Comparison, re: string -> bool): Expression
    requires ValidComparison(c, re)
  {
    match c
    case Compare(name, op, operand) => BinaryExpr(VarExpr(name), op, LiteralOf(operand, re).value)
    case Member(name, values, negated) => InExpr(VarExpr(name), values, negated)
    case Has(name, element, negated) => ContainsExpr(VarExpr(name), element, negated)
  }

  predicate ValidOr(t: OrTree, re: string -> bool)
  {
    match t
    case OneTerm(a) => ValidAnd(a, re)
    case OrMore(l, r) => ValidOr(l, re) && ValidAnd(r, re)
  }

  predicate ValidAnd(t: AndTree, re: string -> bool)
  {
    match t
    case OneFactor(f) => ValidFactor(f, re)
    case AndMore(l, r) => ValidAnd(l, re) && ValidFactor(r, re)
  }

  predicate ValidFactor(f: Factor, re: string -> bool)
  {
    match f
    case Group(e) => ValidOr(e, re)
    case Leaf(c) => ValidComparison(c, re)
  }

  function YieldOr(t: OrTree): seq<Sym>
  {
    match t
    case OneTerm(a) => YieldAnd(a)
    case OrMore(l, r) => YieldOr(l) + ([Plain(Or)] + YieldAnd(r))
  }

  function YieldAnd(t: AndTree): seq<Sym>
  {
    match t
    case OneFactor(f) => YieldFactor(f)
    case AndMore(l, r) => YieldAnd(l) + ([Plain(And)] + YieldFactor(r))
  }

  function YieldFactor(f: Factor): seq<Sym>
  {
    match f
    case Group(e) => [Plain(LBracket)] + (YieldOr(e) + [Plain(RBracket)])
    case Leaf(c) => ComparisonSyms(c)
  }

  /** The meaning of a syntax tree: operators associate to the left, brackets leave no trace. */
  function TreeOr(t: OrTree, re: string -> bool): Expression
    requires ValidOr(t, re)
  {
    match t
    case OneTerm(a) => TreeAnd(a, re)
    case OrMore(l, r) => BinaryExpr(TreeOr(l, re), Or, TreeAnd(r, re))
  }

  function TreeAnd(t: AndTree, re: string -> bool): Expression
    requires ValidAnd(t, re)
  {
    match t
    case OneFactor(f) => TreeFactor(f, re)
    case AndMore(l, r) => BinaryExpr(TreeAnd(l, re), And, TreeFactor(r, re))
  }

  function TreeFactor(f: Factor, re: string -> bool): Expression
    requires ValidFactor(f, re)
  {
    match f
    case Group(e) => TreeOr(e, re)
    case Leaf(c) => ComparisonTree(c, re)
  }

  function Max(a: nat, b: nat): nat { if a < b then b else a }

  /** How many expressions are nested in each other, the outermost included. */
  function LevelsOr(t: OrTree): (n: nat)
    ensures n >= 1
  {
    match t
    case OneTerm(a) => 1 + LevelsAnd(a)
    case OrMore(l, r) => Max(LevelsOr(l), 1 + LevelsAnd(r))
  }

  function LevelsAnd(t: AndTree): nat
  {
    match t
    case OneFactor(f) => LevelsFactor(f)
    case AndMore(l, r) => Max(LevelsAnd(l), LevelsFactor(r))
  }

  function LevelsFactor(f: Factor): nat
  {
    match f
    case Group(e) => LevelsOr(e)
    case Leaf(_) => 0
  }

  /** The symbols derive the tree within the nesting limit. */
  ghost predicate Derives(ss: seq<Sym>, e: Expression, re: string -> bool)
  {
    exists t: OrTree :: DerivesBy(t, ss, e, re)
  }

  ghost predicate DerivesBy(t: OrTree, ss: seq<Sym>, e: Expression, re: string -> bool)
  {
    ValidOr(t, re) && YieldOr(t) == ss && TreeOr(t, re) == e && LevelsOr(t) <= MAX_LEVELS
  }

  // ----- every derivation is found -----

  /** The symbols x in front of a live stream: reading goes through them. */
  lemma LiveCons(x: Sym, s: seq<Sym>)
    requires Live(s) && !EndsStream(x.tok)
    ensures Stream([x] + s) && Live([x] + s) && ([x] + s)[1..] == s
    ensures Advance([x] + s) == Ok((), s)
  {
    var y := [x] + s;
    assert forall i :: 1 <= i < |y| ==> y[i] == s[i - 1];
    assert y[1..] == s;
  }

  lemma TakeCons(t: Token, v: string, s: seq<Sym>)
    requires Live(s) && !EndsStream(t)
    ensures Live([Sym(t, v)] + s) && Take([Sym(t, v)] + s, t) == Ok(v, s)
  {
    LiveCons(Sym(t, v), s);
  }

  lemma ListStep(acc: seq<string>, v: string, s2: seq<Sym>)
    requires Live(s2)
    ensures var s := [Plain(Comma)] + ([StringSym(v)] + s2); Live(s) && PListRest(acc, s) == PListRest(acc + [v], s2)
  {
    hide Live, Stream, Take, Advance;
    TakeCons(StringLit, v, s2);
    LiveCons(Plain(Comma), [StringSym(v)] + s2);
  }

  lemma ListEnd(acc: seq<string>, tail: seq<Sym>)
    requires Live(tail)
    ensures Live(ListTail([]) + tail) && PListRest(acc, ListTail([]) + tail) == Ok(acc, tail)
  {
    hide Live, Stream, Take, Advance;
    TakeCons(RSquare, "", tail);
  }

  lemma ListTailSplit(values: seq<string>, tail: seq<Sym>)
    requires values != []
    ensures ListTail(values) + tail == [Plain(Comma)] + ([StringSym(values[0])] + (ListTail(values[1..]) + tail))
  {
  }

  lemma {:induction false} ListTailParses(acc: seq<string>, values: seq<string>, tail: seq<Sym>)
    requires Live(tail)
    ensures Live(ListTail(values) + tail) && PListRest(acc, ListTail(values) + tail) == Ok(acc + values, tail)
    decreases |values|
  {
    hide Live, Stream, PListRest, ListTail;
    if values == [] {
      ListEnd(acc, tail);
      assert acc + values == acc;
    } else {
      ListTailParses(acc + [values[0]], values[1..], tail);
      ListStep(acc, values[0], ListTail(values[1..]) + tail);
      ListTailSplit(values, tail);
      assert acc + [values[0]] + values[1..] == acc + values;
    }
  }

  lemma EmptyListParses(tail: seq<Sym>)
    requires Live(tail)
    ensures var s := [Plain(LSquare)] + ([Plain(RSquare)] + tail); Live(s) && PList(s) == Ok([], tail)
  {
    hide Live, Stream, Take, Advance, PListRest;
    LiveCons(Plain(RSquare), tail);
    TakeCons(LSquare, "", [Plain(RSquare)] + tail);
  }

  lemma FullListParses(v: string, s2: seq<Sym>)
    requires Live(s2)
    ensures var s := [Plain(LSquare)] + ([StringSym(v)] + s2); Live(s) && PList(s) == PListRest([v], s2)
  {
    hide Live, Stream, Take, Advance, PListRest;
    TakeCons(StringLit, v, s2);
    TakeCons(LSquare, "", [StringSym(v)] + s2);
  }

  lemma ListSymsSplit(values: seq<string>, tail: seq<Sym>)
    ensures ListSyms(values) + tail == [Plain(LSquare)] +
            if values == [] then [Plain(RSquare)] + tail else [StringSym(values[0])] + (ListTail(values[1..]) + tail)
  {
  }

  lemma ListParses(values: seq<string>, tail: seq<Sym>)
    requires Live(tail)
    ensures Live(ListSyms(values) + tail) && PList(ListSyms(values) + tail) == Ok(values, tail)
  {
    hide Live, Stream, PList, PListRest, ListTail, ListSyms;
    ListSymsSplit(values, tail);
    if values == [] {
      EmptyListParses(tail);
    } else {
      ListTailParses([values[0]], values[1..], tail);
      FullListParses(values[0], ListTail(values[1..]) + tail);
      assert [values[0]] + values[1..] == values;
    }
  }

  lemma NegationParses(name: string, negated: bool, s: seq<Sym>, re: string -> bool)
    requires Live(s) && (s[0].tok == In || s[0].tok == Contains)
    ensures Live(Negation(negated) + s)
    ensures PPredicate(name, Negation(negated) + s, re) ==
            if s[0].tok == In then PIn(name, s, negated) else PContains(name, s, negated)
  {
    hide Live, Stream, Advance, Take, PIn, PContains, PCompare;
    LiveCons(Plain(Not), s);
    assert [] + s == s;
  }

  lemma MemberParses(c: Comparison, tail: seq<Sym>, re: string -> bool)
    requires c.Member? && Live(tail)
    ensures Live(PredicateSyms(c) + tail)
    ensures PPredicate(c.name, PredicateSyms(c) + tail, re) == Ok(ComparisonTree(c, re), tail)
  {
    hide Live, Stream, Take, Advance, PList, ListSyms, PPredicate, Negation;
    var s3 := ListSyms(c.values) + tail;
    ListParses(c.values, tail);
    var s2 := [Plain(In)] + s3;
    LiveCons(Plain(In), s3);
    NegationParses(c.name, c.negated, s2, re);
    assert PredicateSyms(c) + tail == Negation(c.negated) + s2;
  }

  lemma ContainsParses(name: string, element: string, negated: bool, tail: seq<Sym>)
    requires Live(tail)
    ensures var s := [Plain(Contains)] + ([StringSym(element)] + tail);
            Live(s) && PContains(name, s, negated) == Ok(ContainsExpr(VarExpr(name), element, negated), tail)
  {
    hide Live, Stream, Take;
    TakeCons(StringLit, element, tail);
    TakeCons(Contains, "", [StringSym(element)] + tail);
  }

  lemma HasSplit(c: Comparison, tail: seq<Sym>)
    requires c.Has?
    ensures PredicateSyms(c) + tail == Negation(c.negated) + ([Plain(Contains)] + ([StringSym(c.element)] + tail))
  {
  }

  lemma HasParses(c: Comparison, tail: seq<Sym>, re: string -> bool)
    requires c.Has? && Live(tail)
    ensures Live(PredicateSyms(c) + tail)
    ensures PPredicate(c.name, PredicateSyms(c) + tail, re) == Ok(ComparisonTree(c, re), tail)
  {
    hide Live, Stream, PPredicate, PContains, PIn, Negation, PredicateSyms;
    ContainsParses(c.name, c.element, c.negated, tail);
    NegationParses(c.name, c.negated, [Plain(Contains)] + ([StringSym(c.element)] + tail), re);
    HasSplit(c, tail);
  }

  lemma CompareParses(c: Comparison, tail: seq<Sym>, re: string -> bool)
    requires c.Compare? && ValidComparison(c, re) && Live(tail)
    ensures Live(PredicateSyms(c) + tail)
    ensures PPredicate(c.name, PredicateSyms(c) + tail, re) == Ok(ComparisonTree(c, re), tail)
  {
    hide Live, Stream, Take, Advance, LiteralOf;
    var s2 := [c.operand] + tail;
    assert !EndsStream(c.operand.tok) by {
      LiteralIsNoEnd(c.operand, re);
    }
    LiveCons(c.operand, tail);
    var s1 := [Plain(c.op)] + s2;
    LiveCons(Plain(c.op), s2);
    assert PredicateSyms(c) + tail == s1;
  }

  lemma LiteralIsNoEnd(x: Sym, re: string -> bool)
    requires LiteralOf(x, re).Ok?
    ensures !EndsStream(x.tok)
  {
  }

  /** A name and what parses after it. */
  lemma EqualityParses(name: string, s1: seq<Sym>, e: Expression, tail: seq<Sym>, level: nat, re: string -> bool)
    requires Live(s1) && PPredicate(name, s1, re) == Ok(e, tail)
    ensures var s := [Sym(Identifier, name)] + s1; Live(s) && PFactor(s, level, re) == Ok(e, tail)
  {
    hide Live, Stream, Take, PPredicate, PExpression;
    TakeCons(Identifier, name, s1);
  }

  lemma ComparisonParses(c: Comparison, tail: seq<Sym>, level: nat, re: string -> bool)
    requires ValidComparison(c, re) && Live(tail)
    ensures Live(ComparisonSyms(c) + tail)
    ensures PFactor(ComparisonSyms(c) + tail, level, re) == Ok(ComparisonTree(c, re), tail)
  {
    hide Live, Stream, PFactor, PPredicate, PredicateSyms, ComparisonTree, ValidComparison;
    match c {
      case Compare(_, _, _) => CompareParses(c, tail, re);
      case Member(_, _, _) => MemberParses(c, tail, re);
      case Has(_, _, _) => HasParses(c, tail, re);
    }
    var s1 := PredicateSyms(c) + tail;
    EqualityParses(c.name, s1, ComparisonTree(c, re), tail, level, re);
    assert ComparisonSyms(c) + tail == [Sym(Identifier, c.name)] + s1;
  }

  lemma OrLoopStops(e: Expression, s: seq<Sym>, level: nat, re: string -> bool)
    requires Live(s) && s[0].tok != Or
    ensures OrLoop(e, s, level, re) == Ok(e, s)
  {
    hide Live;
  }

  lemma GroupParses(s1: seq<Sym>, e: Expression, tail: seq<Sym>, level: nat, re: string -> bool)
    requires Live(s1) && Live(tail) && PExpression(s1, level, re) == Ok(e, [Plain(RBracket)] + tail)
    ensures Live([Plain(LBracket)] + s1) && PFactor([Plain(LBracket)] + s1, level, re) == Ok(e, tail)
  {
    hide Stream, Take, Advance, PExpression, PEquality;
    TakeCons(RBracket, "", tail);
    LiveCons(Plain(LBracket), s1);
  }

  lemma Bracketed<T>(x: T, y: seq<T>, z: T, tail: seq<T>)
    ensures [x] + (y + [z]) + tail == [x] + (y + ([z] + tail))
  {
  }

  lemma Infixed<T>(l: seq<T>, x: T, r: seq<T>, tail: seq<T>)
    ensures l + ([x] + r) + tail == l + ([x] + (r + tail))
  {
  }

  lemma ExpressionOf(s: seq<Sym>, e: Expression, tail: seq<Sym>, level: nat, re: string -> bool)
    requires Live(s) && Live(tail) && tail[0].tok != Or && level < MAX_LEVELS
    requires PTerms(s, level + 1, re) == OrLoop(e, tail, level + 1, re)
    ensures PExpression(s, level, re) == Ok(e, tail)
  {
    hide Live, PTerms, OrLoop;
    OrLoopStops(e, tail, level + 1, re);
  }

  lemma {:induction false} FactorParses(f: Factor, tail: seq<Sym>, level: nat, re: string -> bool)
    requires ValidFactor(f, re) && Live(tail) && level + LevelsFactor(f) <= MAX_LEVELS
    ensures Live(YieldFactor(f) + tail)
    ensures PFactor(YieldFactor(f) + tail, level, re) == Ok(TreeFactor(f, re), tail)
    decreases f, 0
  {
    hide Live, Stream, PFactor, PTerms, PExpression, OrLoop, YieldOr, TreeOr, ComparisonSyms, ComparisonTree;
    match f
    case Leaf(c) => ComparisonParses(c, tail, level, re);
    case Group(e) =>
      var s2 := [Plain(RBracket)] + tail;
      TakeCons(RBracket, "", tail);
      OrParses(e, s2, level + 1, re);
      var s1 := YieldOr(e) + s2;
      ExpressionOf(s1, TreeOr(e, re), s2, level, re);
      GroupParses(s1, TreeOr(e, re), tail, level, re);
      Bracketed(Plain(LBracket), YieldOr(e), Plain(RBracket), tail);
  }

  lemma TermThenLoop(s: seq<Sym>, e: Expression, tail: seq<Sym>, level: nat, re: string -> bool)
    requires Live(s) && Live(tail) && PTerm(s, level, re) == Ok(e, tail)
    ensures PTerms(s, level, re) == OrLoop(e, tail, level, re)
  {
    hide Live, PTerm, OrLoop;
  }

  lemma AndStep(left: Expression, right: Expression, s1: seq<Sym>, tail: seq<Sym>, level: nat, re: string -> bool)
    requires Live(s1) && Live(tail) && |tail| < |s1| && PFactor(s1, level, re) == Ok(right, tail)
    ensures Live([Plain(And)] + s1)
    ensures AndLoop(left, [Plain(And)] + s1, level, re) == AndLoop(BinaryExpr(left, And, right), tail, level, re)
  {
    hide PFactor;
    LiveCons(Plain(And), s1);
  }

  lemma OrStep(left: Expression, right: Expression, s1: seq<Sym>, tail: seq<Sym>, level: nat, re: string -> bool)
    requires Live(s1) && Live(tail) && |tail| < |s1| && PTerm(s1, level, re) == Ok(right, tail)
    ensures Live([Plain(Or)] + s1)
    ensures OrLoop(left, [Plain(Or)] + s1, level, re) == OrLoop(BinaryExpr(left, Or, right), tail, level, re)
  {
    hide PTerm;
    LiveCons(Plain(Or), s1);
  }

  /** Reading a term's symbols leaves the loop of term holding the term's tree. */
  lemma {:induction false} AndParses(t: AndTree, tail: seq<Sym>, level: nat, re: string -> bool)
    requires ValidAnd(t, re) && Live(tail) && level + LevelsAnd(t) <= MAX_LEVELS
    ensures Live(YieldAnd(t) + tail)
    ensures PTerm(YieldAnd(t) + tail, level, re) == AndLoop(TreeAnd(t, re), tail, level, re)
    decreases t, 1
  {
    hide Live, Stream, PFactor, AndLoop, PExpression, YieldFactor, TreeFactor;
    match t
    case OneFactor(f) => FactorParses(f, tail, level, re);
    case AndMore(l, r) =>
      FactorParses(r, tail, level, re);
      var s1 := YieldFactor(r) + tail;
      LiveCons(Plain(And), s1);
      AndParses(l, [Plain(And)] + s1, level, re);
      AndStep(TreeAnd(l, re), TreeFactor(r, re), s1, tail, level, re);
      Infixed(YieldAnd(l), Plain(And), YieldFactor(r), tail);
  }

  /** Reading an expression's symbols leaves the loop of expression holding the expression's tree. */
  lemma {:induction false} OrParses(t: OrTree, tail: seq<Sym>, level: nat, re: string -> bool)
    requires ValidOr(t, re) && Live(tail) && tail[0].tok != And && 1 <= level
    requires level - 1 + LevelsOr(t) <= MAX_LEVELS
    ensures Live(YieldOr(t) + tail)
    ensures PTerms(YieldOr(t) + tail, level, re) == OrLoop(TreeOr(t, re), tail, level, re)
    decreases t, 2
  {
    hide Live, Stream, PTerms, PTerm, AndLoop, OrLoop, YieldAnd, TreeAnd;
    match t
    case OneTerm(a) =>
      AndParses(a, tail, level, re);
      AndLoopStops(TreeAnd(a, re), tail, level, re);
      TermThenLoop(YieldAnd(a) + tail, TreeAnd(a, re), tail, level, re);
    case OrMore(l, r) =>
      AndParses(r, tail, level, re);
      AndLoopStops(TreeAnd(r, re), tail, level, re);
      var s1 := YieldAnd(r) + tail;
      LiveCons(Plain(Or), s1);
      OrParses(l, [Plain(Or)] + s1, level, re);
      OrStep(TreeOr(l, re), TreeAnd(r, re), s1, tail, level, re);
      Infixed(YieldOr(l), Plain(Or), YieldAnd(r), tail);
  }

  lemma AndLoopStops(e: Expression, s: seq<Sym>, level: nat, re: string -> bool)
    requires Live(s) && s[0].tok != And
    ensures AndLoop(e, s, level, re) == Ok(e, s)
  {
  }
}
