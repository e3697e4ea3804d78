/** Printing with as few brackets as the grammar allows, and the exact set of trees the parser can return. */
module FilterPrinting {
  import opened FilterSyntax
  import opened FilterLexer
  import opened FilterLexerLaws
  import opened FilterNumbers
  import opened FilterGrammar
  import opened FilterGrammarLaws
  import opened FilterGrammarSound
  import opened FilterParser

  predicate IsOr(e: Expression) { e.BinaryExpr? && e.op == Or }

  predicate IsAnd(e: Expression) { e.BinaryExpr? && e.op == And }

  /** A comparison some symbols denote. */
  ghost predicate IsLeaf(e: Expression, re: string -> bool)
  {
    exists c: Comparison :: ValidComparison(c, re) && ComparisonTree(c, re) == e
  }

  /** An and/or tree of comparisons. */
  ghost predicate Printable(e: Expression, re: string -> bool)
  {
    if IsOr(e) || IsAnd(e) then Printable(e.left, re) && Printable(e.right, re) else IsLeaf(e, re)
  }

  ghost function AmountText(a: real): string
  {
    if FiniteDecimal(a) then var n: nat, k: nat :| a == Decimal(n, k); DecimalText(n, k) else "0"
  }

  /** How a literal is written. */
  ghost function LiteralSym(e: Expression): Sym
  {
    match e
    case StringExpr(text) => StringSym(text)
    case RegexExpr(pattern) => Sym(RegexLit, pattern)
    case BoolExpr(truth) => Sym(Boolean, if truth then "true" else "false")
    case QuantityExpr(amount, unit) => Sym(Quantity, AmountText(amount) + UnitText(unit))
    case _ => Plain(Illegal)
  }

  lemma AmountTextParses(a: real)
    requires FiniteDecimal(a)
    ensures IsDecimal(AmountText(a)) && ParseDecimal(AmountText(a)) == a
  {
    hide DecimalText, Decimal, IsDecimal, ParseDecimal;
    forall n: nat, k: nat
      ensures IsDecimal(DecimalText(n, k)) && ParseDecimal(DecimalText(n, k)) == Decimal(n, k)
    {
      DecimalTextParses(n, k);
    }
  }

  /** However a literal was written, its own spelling denotes the same and is of the same kind. */
  lemma LiteralSymDenotes(x: Sym, re: string -> bool)
    requires LiteralOf(x, re).Ok?
    ensures LiteralSym(LiteralOf(x, re).value).tok == x.tok
    ensures LiteralOf(LiteralSym(LiteralOf(x, re).value), re) == LiteralOf(x, re)
  {
    hide QuantityOf, AmountText, FiniteDecimal, Lower;
    if x.tok == Quantity {
      var q := QuantityOf(x.val);
      QuantityIsFinite(x.val);
      AmountTextParses(q.amount);
      QuantityTextParses(AmountText(q.amount), q.unit);
    } else if x.tok == Boolean {
      BooleanTexts();
    }
  }

  lemma BooleanTexts()
    ensures Lower("true") == "true" && Lower("false") == "false"
    ensures Lexable(Sym(Boolean, "true")) && Lexable(Sym(Boolean, "false"))
  {
    assert Lower("true") == "true" && Lower("false") == "false";
    assert WordBetween("true", 0, 4) && WordBetween("false", 0, 5);
  }

  /** How a comparison is written. */
  ghost function LeafOf(e: Expression, re: string -> bool): (c: Comparison)
    requires IsLeaf(e, re)
    ensures ValidComparison(c, re) && ComparisonTree(c, re) == e
  {
    LeafDenotes(e, re);
    Spelled(e)
  }

  ghost function Spelled(e: Expression): Comparison
  {
    match e
    case BinaryExpr(VarExpr(name), op, r) => Compare(name, op, LiteralSym(r))
    case InExpr(VarExpr(name), values, negated) => Member(name, values, negated)
    case ContainsExpr(VarExpr(name), element, negated) => Has(name, element, negated)
    case _ => Has("", "", false)
  }

  lemma LeafDenotes(e: Expression, re: string -> bool)
    requires IsLeaf(e, re)
    ensures ValidComparison(Spelled(e), re) && ComparisonTree(Spelled(e), re) == e
  {
    hide LiteralSym, LiteralOf;
    var c: Comparison :| ValidComparison(c, re) && ComparisonTree(c, re) == e;
    if c.Compare? {
      LiteralSymDenotes(c.operand, re);
    }
  }

  /** What a comparison looks like: which operators there are, and which literals each of them takes. */
  ghost predicate LeafShape(e: Expression, re: string -> bool)
  {
    match e
    case BinaryExpr(VarExpr(_), op, r) =>
      (match op
       case Equal => AnyLiteral(r, re)
       case NotEqual => AnyLiteral(r, re)
       case Less => AnyLiteral(r, re)
       case Lte => AnyLiteral(r, re)
       case Greater => AnyLiteral(r, re)
       case Gte => AnyLiteral(r, re)
       case Like => r.RegexExpr? && re(r.pattern)
       case NotLike => r.RegexExpr? && re(r.pattern)
       case Like2 => r.StringExpr?
       case _ => false)
    case InExpr(VarExpr(_), _, _) => true
    case ContainsExpr(VarExpr(_), _, _) => true
    case _ => false
  }

  ghost predicate AnyLiteral(e: Expression, re: string -> bool)
  {
    match e
    case StringExpr(_) => true
    case BoolExpr(_) => true
    case RegexExpr(pattern) => re(pattern)
    case QuantityExpr(amount, _) => FiniteDecimal(amount)
    case _ => false
  }

  lemma LiteralIff(e: Expression, re: string -> bool)
    ensures AnyLiteral(e, re) <==> LiteralOf(LiteralSym(e), re) == Ok(e, [])
  {
    hide QuantityOf, AmountText, FiniteDecimal, Lower;
    match e
    case QuantityExpr(amount, unit) =>
      if FiniteDecimal(amount) {
        AmountTextParses(amount);
        QuantityTextParses(AmountText(amount), unit);
      } else {
        QuantityIsFinite(AmountText(amount) + UnitText(unit));
      }
    case BoolExpr(_) => BooleanTexts();
    case _ =>
  }

  /** The comparisons some symbols denote are exactly those of this shape. */
  lemma LeafIff(e: Expression, re: string -> bool)
    ensures IsLeaf(e, re) <==> LeafShape(e, re)
  {
    hide LiteralSym, LiteralOf, AnyLiteral;
    if IsLeaf(e, re) {
      LeafDenotes(e, re);
      LeafHasShape(e, re);
    } else {
      ShapeIsLeaf(e, re);
    }
  }

  lemma LeafHasShape(e: Expression, re: string -> bool)
    requires ValidComparison(Spelled(e), re) && ComparisonTree(Spelled(e), re) == e
    ensures LeafShape(e, re)
  {
    hide AnyLiteral, AmountText;
    if e.BinaryExpr? {
      LiteralIff(e.right, re);
    }
  }

  lemma ShapeIsLeaf(e: Expression, re: string -> bool)
    ensures LeafShape(e, re) ==> IsLeaf(e, re)
  {
    hide AmountText;
    if LeafShape(e, re) {
      if e.BinaryExpr? {
        LiteralIff(e.right, re);
      }
      assert ValidComparison(Spelled(e), re) && ComparisonTree(Spelled(e), re) == e;
    }
  }

  /** Brackets only around an or-tree below an and, and around a right operand of the same operator. */
  ghost function PrintOr(e: Expression, re: string -> bool): (t: OrTree)
    requires Printable(e, re)
    decreases e, if IsOr(e) then 0 else if IsAnd(e) then 1 else 2
  {
    if IsOr(e) then OrMore(PrintOr(e.left, re), PrintAnd(e.right, re)) else OneTerm(PrintAnd(e, re))
  }

  ghost function PrintAnd(e: Expression, re: string -> bool): (t: AndTree)
    requires Printable(e, re)
    decreases e, if IsOr(e) then 2 else if IsAnd(e) then 0 else 1
  {
    if IsAnd(e) then AndMore(PrintAnd(e.left, re), PrintFactor(e.right, re)) else OneFactor(PrintFactor(e, re))
  }

  ghost function PrintFactor(e: Expression, re: string -> bool): (f: Factor)
    requires Printable(e, re)
    decreases e, if IsOr(e) then 1 else if IsAnd(e) then 2 else 0
  {
    if IsOr(e) || IsAnd(e) then Group(PrintOr(e, re)) else Leaf(LeafOf(e, re))
  }

  /** The three printers give syntax trees that mean what was printed. */
  lemma {:induction false} PrintMeans(e: Expression, re: string -> bool)
    requires Printable(e, re)
    ensures ValidOr(PrintOr(e, re), re) && TreeOr(PrintOr(e, re), re) == e
    ensures ValidAnd(PrintAnd(e, re), re) && TreeAnd(PrintAnd(e, re), re) == e
    ensures ValidFactor(PrintFactor(e, re), re) && TreeFactor(PrintFactor(e, re), re) == e
    decreases e
  {
    hide ValidComparison, ComparisonTree, IsLeaf, LeafOf;
    if IsOr(e) {
      PrintMeans(e.left, re);
      PrintMeans(e.right, re);
      assert ValidOr(PrintOr(e, re), re) && TreeOr(PrintOr(e, re), re) == e;
      assert ValidFactor(PrintFactor(e, re), re) && TreeFactor(PrintFactor(e, re), re) == e;
    } else if IsAnd(e) {
      PrintMeans(e.left, re);
      PrintMeans(e.right, re);
      assert ValidAnd(PrintAnd(e, re), re) && TreeAnd(PrintAnd(e, re), re) == e;
      assert ValidOr(PrintOr(e, re), re) && TreeOr(PrintOr(e, re), re) == e;
    } else {
      assert ValidFactor(PrintFactor(e, re), re) && TreeFactor(PrintFactor(e, re), re) == e;
      assert ValidAnd(PrintAnd(e, re), re) && TreeAnd(PrintAnd(e, re), re) == e;
    }
  }

  /** A tree read from symbols is printable. */
  lemma {:induction false} OrTreeIsPrintable(t: OrTree, re: string -> bool)
    requires ValidOr(t, re)
    ensures Printable(TreeOr(t, re), re)
    decreases t, 2
  {
    match t
    case OneTerm(a) => AndTreeIsPrintable(a, re);
    case OrMore(l, r) =>
      OrTreeIsPrintable(l, re);
      AndTreeIsPrintable(r, re);
  }

  lemma {:induction false} AndTreeIsPrintable(t: AndTree, re: string -> bool)
    requires ValidAnd(t, re)
    ensures Printable(TreeAnd(t, re), re)
    decreases t, 1
  {
    match t
    case OneFactor(f) => FactorIsPrintable(f, re);
    case AndMore(l, r) =>
      AndTreeIsPrintable(l, re);
      FactorIsPrintable(r, re);
  }

  lemma {:induction false} FactorIsPrintable(f: Factor, re: string -> bool)
    requires ValidFactor(f, re)
    ensures Printable(TreeFactor(f, re), re)
    decreases f, 0
  {
    match f
    case Group(e) => OrTreeIsPrintable(e, re);
    case Leaf(c) => ComparisonIsLeaf(c, re);
  }

  lemma ComparisonIsLeaf(c: Comparison, re: string -> bool)
    requires ValidComparison(c, re)
    ensures var e := ComparisonTree(c, re); IsLeaf(e, re) && !IsOr(e) && !IsAnd(e)
  {
  }

  lemma {:induction false} ListTailLength(values: seq<string>)
    ensures |ListTail(values)| == 2 * |values| + 1
  {
    if values != [] {
      ListTailLength(values[1..]);
    }
  }

  /** However a comparison is spelled, it takes the same number of symbols. */
  lemma ComparisonLength(c: Comparison, d: Comparison, re: string -> bool)
    requires ValidComparison(c, re) && ValidComparison(d, re) && ComparisonTree(c, re) == ComparisonTree(d, re)
    ensures |ComparisonSyms(c)| == |ComparisonSyms(d)|
  {
    if c.Member? && c.values != [] {
      ListTailLength(c.values[1..]);
    }
  }

  /** No spelling of a tree is shorter or flatter than its print. */
  lemma {:induction false} PrintIsMinimalOr(t: OrTree, re: string -> bool)
    requires ValidOr(t, re)
    ensures Printable(TreeOr(t, re), re)
    ensures |YieldOr(PrintOr(TreeOr(t, re), re))| <= |YieldOr(t)|
    ensures LevelsOr(PrintOr(TreeOr(t, re), re)) <= LevelsOr(t)
    decreases t, 2
  {
    hide ValidComparison, ComparisonTree, IsLeaf, LeafOf, YieldFactor, LevelsFactor;
    OrTreeIsPrintable(t, re);
    match t
    case OneTerm(a) =>
      PrintIsMinimalAnd(a, re);
      BracketsCost(TreeAnd(a, re), re);
    case OrMore(l, r) =>
      PrintIsMinimalOr(l, re);
      PrintIsMinimalAnd(r, re);
  }

  lemma {:induction false} PrintIsMinimalAnd(t: AndTree, re: string -> bool)
    requires ValidAnd(t, re)
    ensures Printable(TreeAnd(t, re), re)
    ensures |YieldAnd(PrintAnd(TreeAnd(t, re), re))| <= |YieldAnd(t)|
    ensures LevelsAnd(PrintAnd(TreeAnd(t, re), re)) <= LevelsAnd(t)
    decreases t, 1
  {
    hide ValidComparison, ComparisonTree, IsLeaf, LeafOf, YieldFactor, LevelsFactor;
    AndTreeIsPrintable(t, re);
    match t
    case OneFactor(f) =>
      PrintIsMinimalFactor(f, re);
      BracketsCost(TreeFactor(f, re), re);
    case AndMore(l, r) =>
      PrintIsMinimalAnd(l, re);
      PrintIsMinimalFactor(r, re);
  }

  lemma {:induction false} PrintIsMinimalFactor(f: Factor, re: string -> bool)
    requires ValidFactor(f, re)
    ensures Printable(TreeFactor(f, re), re)
    ensures |YieldFactor(PrintFactor(TreeFactor(f, re), re))| <= |YieldFactor(f)|
    ensures LevelsFactor(PrintFactor(TreeFactor(f, re), re)) <= LevelsFactor(f)
    decreases f, 0
  {
    hide IsLeaf, LeafOf, ComparisonSyms, ComparisonTree, ValidComparison;
    FactorIsPrintable(f, re);
    var e := TreeFactor(f, re);
    match f
    case Group(t) =>
      PrintIsMinimalOr(t, re);
      BracketsCost(e, re);
    case Leaf(c) =>
      ComparisonIsLeaf(c, re);
      ComparisonLength(LeafOf(e, re), c, re);
  }

  /** A looser printer never needs more than a tighter one. */
  lemma BracketsCost(e: Expression, re: string -> bool)
    requires Printable(e, re)
    ensures |YieldOr(PrintOr(e, re))| <= |YieldAnd(PrintAnd(e, re))| <= |YieldFactor(PrintFactor(e, re))|
    ensures LevelsOr(PrintOr(e, re)) <= 1 + LevelsAnd(PrintAnd(e, re))
    ensures LevelsAnd(PrintAnd(e, re)) <= LevelsFactor(PrintFactor(e, re))
    ensures !IsOr(e) && !IsAnd(e) ==> |YieldFactor(PrintFactor(e, re))| <= |YieldOr(PrintOr(e, re))|
    ensures IsOr(e) ==> LevelsOr(PrintOr(e, re)) == LevelsAnd(PrintAnd(e, re))
  {
    hide ComparisonSyms, IsLeaf, LeafOf;
  }

  // ----- printing and parsing -----

  /** The print of a tree whose brackets nest within the limit parses to the tree. */
  lemma ParseUndoesPrint(e: Expression, re: string -> bool)
    requires Printable(e, re) && LevelsOr(PrintOr(e, re)) <= MAX_LEVELS
    ensures Stream(YieldOr(PrintOr(e, re)) + [END])
    ensures PFilter(YieldOr(PrintOr(e, re)) + [END], re) == Ok(e, [])
  {
    hide PFilter, PrintOr, TreeOr, YieldOr, ValidOr, LevelsOr, Printable;
    PrintMeans(e, re);
    DerivationParses(PrintOr(e, re), re);
  }

  /** Exactly the and/or trees of comparisons whose print nests at most 100 expressions have a spelling at all. */
  lemma ExactRange(e: Expression, re: string -> bool)
    ensures (exists ss :: Derives(ss, e, re)) <==> Printable(e, re) && LevelsOr(PrintOr(e, re)) <= 100
  {
    hide PrintOr, TreeOr, YieldOr, ValidOr, LevelsOr, Printable;
    if ss :| Derives(ss, e, re) {
      var t :| DerivesBy(t, ss, e, re);
      PrintIsMinimalOr(t, re);
    }
    if Printable(e, re) && LevelsOr(PrintOr(e, re)) <= MAX_LEVELS {
      PrintMeans(e, re);
      assert DerivesBy(PrintOr(e, re), YieldOr(PrintOr(e, re)), e, re);
      assert Derives(YieldOr(PrintOr(e, re)), e, re);
    }
  }

  // ----- texts -----

  lemma LexableIsCanonical(ss: seq<Sym>)
    requires forall i :: 0 <= i < |ss| ==> Lexable(ss[i])
    ensures Canonical(ss)
  {
    hide IsWord, IsQuantityText, WordSym;
  }

  /** A text parses to a tree exactly when its tokens are all legal and derive the tree. */
  lemma TextParsesIffDerives(src: string, e: Expression, re: string -> bool)
    ensures var ls := Lexemes(src, 0);
            ParseText(src, re) == Success(e) <==>
            ls[|ls| - 1].sym.tok == Eol && Derives(Syms(ls[..|ls| - 1]), e, re)
  {
    hide Lexemes, PFilter, Derives, Lexable, Stream;
    var ls := Lexemes(src, 0);
    var n := |ls| - 1;
    LexemesStream(src, 0);
    LexemesAreLexable(src, 0);
    var ss := Syms(ls[..n]);
    LexableIsCanonical(ss);
    assert Syms(ls) == ss + [ls[n].sym];
    LastIsPlain(src, 0);
    if ls[n].sym.tok == Eol {
      ParsesIffDerives(ss, e, re);
      OnlyRestIsEmpty(Syms(ls), re);
    } else {
      IllegalFails(ss, ls[n].sym, re);
    }
  }

  lemma OnlyRestIsEmpty(s: seq<Sym>, re: string -> bool)
    requires Stream(s)
    ensures PFilter(s, re).Ok? ==> PFilter(s, re).rest == []
  {
    hide PExpression;
  }

  lemma {:induction false} LastIsPlain(src: string, k: nat)
    requires k <= |src|
    ensures var l := Lexemes(src, k)[|Lexemes(src, k)| - 1]; l.sym == Plain(l.sym.tok)
    decreases |src| - k
  {
    hide ScanToken, SkipSpace;
    var (l, end) := ScanAt(src, k);
    if !EndsStream(l.sym.tok) {
      LastIsPlain(src, end);
    }
  }

  /** The last symbol stays last. */
  lemma LastOfRest(a: seq<Sym>, rest: seq<Sym>, ss: seq<Sym>, last: Sym)
    requires Live(rest) && a + rest == ss + [last] && last.tok == Illegal
    ensures rest[0].tok != Eol
  {
    assert (a + rest)[|a + rest| - 1] == rest[|rest| - 1];
    assert |rest| == 1 || !EndsStream(rest[0].tok);
  }

  lemma IllegalFails(ss: seq<Sym>, last: Sym, re: string -> bool)
    requires Stream(ss + [last]) && last == Plain(Illegal) && Canonical(ss)
    ensures PFilter(ss + [last], re).Err?
  {
    var s := ss + [last];
    hide PExpression, Stream, Canonical, YieldOr;
    if s[0].tok != Illegal && PExpression(s, 0, re).Ok? {
      CanonicalButLast(ss, last);
      var t := ExpressionSound(s, 0, re);
      LastOfRest(YieldOr(t), PExpression(s, 0, re).rest, ss, last);
    }
  }

  lemma CanonicalButLast(ss: seq<Sym>, last: Sym)
    requires Canonical(ss) && last.val == ""
    ensures Canonical(ss + [last])
  {
  }

  /** A valid syntax tree within the limit, spelled out, parses to the tree it stands for. */
  lemma ParseUndoesSpelling(t: OrTree, re: string -> bool)
    requires ValidOr(t, re) && LevelsOr(t) <= MAX_LEVELS && AllLexable(YieldOr(t))
    ensures ParseText(Render(YieldOr(t)), re) == Success(TreeOr(t, re))
  {
    hide Lexemes, PFilter, Lexable, Render, YieldOr, TreeOr, ValidOr, LevelsOr;
    ScanUndoesRender(YieldOr(t));
    DerivationParses(t, re);
  }

  // ----- trees that have a text -----

  /** A word the scanner does not take for a keyword. */
  ghost predicate SpellableName(name: string) { Lexable(Sym(Identifier, name)) }

  ghost predicate SpellableLiteral(e: Expression)
  {
    match e
    case StringExpr(text) => Quotable(text)
    case RegexExpr(pattern) => Quotable(pattern)
    case QuantityExpr(amount, _) => FiniteDecimal(amount)
    case BoolExpr(_) => true
    case _ => false
  }

  /** Names are words and no keywords; strings and patterns hold no zero byte and do not end in a backslash; amounts are
      finite decimals. */
  ghost predicate SpellableTree(e: Expression)
  {
    match e
    case BinaryExpr(l, op, r) =>
      if op == And || op == Or then SpellableTree(l) && SpellableTree(r)
      else l.VarExpr? && SpellableName(l.name) && SpellableLiteral(r)
    case InExpr(subject, values, _) =>
      subject.VarExpr? && SpellableName(subject.name) && forall v :: v in values ==> Quotable(v)
    case ContainsExpr(subject, element, _) => subject.VarExpr? && SpellableName(subject.name) && Quotable(element)
    case _ => false
  }

  lemma LexableParts(a: seq<Sym>, b: seq<Sym>)
    ensures AllLexable(a + b) <==> AllLexable(a) && AllLexable(b)
  {
    hide Lexable;
    if AllLexable(a + b) {
      assert forall s :: s in a || s in b ==> s in a + b;
    }
  }

  lemma LexableOne(s: Sym)
    ensures AllLexable([s]) <==> Lexable(s)
  {
    hide Lexable;
    assert s in [s];
  }

  lemma {:induction false} ListTailSpells(values: seq<string>)
    ensures AllLexable(ListTail(values)) <==> forall v :: v in values ==> Quotable(v)
    decreases |values|
  {
    hide Quotable, AllLexable, IsWord, IsQuantityText, WordSym;
    if values == [] {
      LexableOne(Plain(RSquare));
    } else {
      assert [Plain(Comma), StringSym(values[0])] == [Plain(Comma)] + [StringSym(values[0])];
      LexableParts([Plain(Comma), StringSym(values[0])], ListTail(values[1..]));
      LexableParts([Plain(Comma)], [StringSym(values[0])]);
      LexableOne(Plain(Comma));
      LexableOne(StringSym(values[0]));
      ListTailSpells(values[1..]);
      assert values == [values[0]] + values[1..];
    }
  }

  lemma ListSpells(values: seq<string>)
    ensures AllLexable(ListSyms(values)) <==> forall v :: v in values ==> Quotable(v)
  {
    hide Quotable, AllLexable, IsWord, IsQuantityText, WordSym, ListTail;
    LexableOne(Plain(LSquare));
    if values == [] {
      assert ListSyms(values) == [Plain(LSquare)] + [Plain(RSquare)];
      LexableParts([Plain(LSquare)], [Plain(RSquare)]);
      LexableOne(Plain(RSquare));
    } else {
      var head := [Plain(LSquare)] + [StringSym(values[0])];
      assert ListSyms(values) == head + ListTail(values[1..]);
      LexableParts(head, ListTail(values[1..]));
      LexableParts([Plain(LSquare)], [StringSym(values[0])]);
      LexableOne(StringSym(values[0]));
      ListTailSpells(values[1..]);
      assert values == [values[0]] + values[1..];
    }
  }

  lemma NegationSpells(negated: bool)
    ensures AllLexable(Negation(negated))
  {
  }

  /** The symbols of a comparison are spellable exactly when its name and what follows are. */
  lemma ComparisonSpells(c: Comparison, re: string -> bool)
    requires ValidComparison(c, re)
    ensures AllLexable(ComparisonSyms(c)) <==>
            SpellableName(c.name) &&
            match c
            case Compare(_, _, operand) => Lexable(operand)
            case Member(_, values, _) => forall v :: v in values ==> Quotable(v)
            case Has(_, element, _) => Quotable(element)
  {
    hide Quotable, AllLexable, IsWord, IsQuantityText, WordSym, ListSyms, LiteralOf;
    LexableParts([Sym(Identifier, c.name)], PredicateSyms(c));
    LexableOne(Sym(Identifier, c.name));
    match c
    case Compare(_, op, operand) =>
      assert PredicateSyms(c) == [Plain(op)] + [operand];
      LexableParts([Plain(op)], [operand]);
      LexableOne(Plain(op));
      LexableOne(operand);
    case Member(_, values, negated) =>
      NegationSpells(negated);
      LexableParts(Negation(negated), [Plain(In)] + ListSyms(values));
      LexableParts([Plain(In)], ListSyms(values));
      LexableOne(Plain(In));
      ListSpells(values);
    case Has(_, element, negated) =>
      NegationSpells(negated);
      assert [Plain(Contains), StringSym(element)] == [Plain(Contains)] + [StringSym(element)];
      LexableParts(Negation(negated), [Plain(Contains), StringSym(element)]);
      LexableParts([Plain(Contains)], [StringSym(element)]);
      LexableOne(Plain(Contains));
      LexableOne(StringSym(element));
  }

  lemma QuantityTextLexes(amount: real, unit: QuantityUnit)
    requires FiniteDecimal(amount)
    ensures Lexable(LiteralSym(QuantityExpr(amount, unit)))
  {
    hide FiniteDecimal, IsDecimal, AmountText;
    AmountTextParses(amount);
    var s, u := AmountText(amount), UnitText(unit);
    assert (s + u)[..|s|] == s && (s + u)[|s|..] == u;
    assert s != "" by { DecimalEnd(s); }
    assert IsUnitText(u);
  }

  /** A literal has a lexable spelling exactly when it is spellable. */
  lemma LiteralSpells(e: Expression)
    requires SpellableLiteral(e)
    ensures Lexable(LiteralSym(e))
  {
    hide Quotable, FiniteDecimal, AmountText, IsWord;
    match e
    case QuantityExpr(amount, unit) => QuantityTextLexes(amount, unit);
    case BoolExpr(truth) => BooleanTexts();
    case _ =>
  }

  lemma OperandSpells(x: Sym, re: string -> bool)
    requires LiteralOf(x, re).Ok? && Lexable(x)
    ensures SpellableLiteral(LiteralOf(x, re).value)
  {
    hide Quotable, FiniteDecimal, QuantityOf, IsWord, WordSym, IsQuantityText, Lower;
    if x.tok == Quantity {
      QuantityIsFinite(x.val);
    }
  }

  /** What was read from spellable symbols is a spellable tree. */
  lemma LeafIsSpellable(c: Comparison, re: string -> bool)
    requires ValidComparison(c, re) && AllLexable(ComparisonSyms(c))
    ensures SpellableTree(ComparisonTree(c, re))
  {
    hide AllLexable, Lexable, Quotable, ComparisonSyms, LiteralOf, SpellableLiteral;
    ComparisonSpells(c, re);
    if c.Compare? {
      OperandSpells(c.operand, re);
    }
  }

  lemma {:induction false} OrIsSpellable(t: OrTree, re: string -> bool)
    requires ValidOr(t, re) && AllLexable(YieldOr(t))
    ensures SpellableTree(TreeOr(t, re))
    decreases t, 2
  {
    hide AllLexable, SpellableName, SpellableLiteral, Quotable;
    match t
    case OneTerm(a) => AndIsSpellable(a, re);
    case OrMore(l, r) =>
      LexableParts(YieldOr(l), [Plain(Or)] + YieldAnd(r));
      LexableParts([Plain(Or)], YieldAnd(r));
      OrIsSpellable(l, re);
      AndIsSpellable(r, re);
  }

  lemma {:induction false} AndIsSpellable(t: AndTree, re: string -> bool)
    requires ValidAnd(t, re) && AllLexable(YieldAnd(t))
    ensures SpellableTree(TreeAnd(t, re))
    decreases t, 1
  {
    hide AllLexable, SpellableName, SpellableLiteral, Quotable;
    match t
    case OneFactor(f) => FactorIsSpellable(f, re);
    case AndMore(l, r) =>
      LexableParts(YieldAnd(l), [Plain(And)] + YieldFactor(r));
      LexableParts([Plain(And)], YieldFactor(r));
      AndIsSpellable(l, re);
      FactorIsSpellable(r, re);
  }

  lemma {:induction false} FactorIsSpellable(f: Factor, re: string -> bool)
    requires ValidFactor(f, re) && AllLexable(YieldFactor(f))
    ensures SpellableTree(TreeFactor(f, re))
    decreases f, 0
  {
    hide AllLexable, SpellableTree, ComparisonSyms;
    match f
    case Group(e) =>
      LexableParts([Plain(LBracket)], YieldOr(e) + [Plain(RBracket)]);
      LexableParts(YieldOr(e), [Plain(RBracket)]);
      OrIsSpellable(e, re);
    case Leaf(c) => LeafIsSpellable(c, re);
  }

  /** The print of a spellable comparison is spellable. */
  lemma LeafSpells(e: Expression, re: string -> bool)
    requires IsLeaf(e, re) && SpellableTree(e) && !IsOr(e) && !IsAnd(e)
    ensures AllLexable(ComparisonSyms(LeafOf(e, re)))
  {
    hide IsLeaf, AllLexable, Lexable, Quotable, ComparisonSyms, LiteralOf, LiteralSym, SpellableLiteral;
    ComparisonSpells(LeafOf(e, re), re);
    if e.BinaryExpr? {
      LiteralSpells(e.right);
    }
  }

  /** The prints of a spellable tree are spellable. */
  lemma {:induction false} PrintSpells(e: Expression, re: string -> bool)
    requires Printable(e, re) && SpellableTree(e)
    ensures AllLexable(YieldOr(PrintOr(e, re))) && AllLexable(YieldAnd(PrintAnd(e, re)))
    ensures AllLexable(YieldFactor(PrintFactor(e, re)))
    decreases e
  {
    hide AllLexable, ComparisonSyms, LeafOf, IsLeaf, SpellableName, SpellableLiteral, Quotable;
    LexableOne(Plain(LBracket));
    LexableOne(Plain(RBracket));
    if IsOr(e) || IsAnd(e) {
      PrintSpells(e.left, re);
      PrintSpells(e.right, re);
      JoinSpells(e, re);
    } else {
      LeafSpells(e, re);
      assert AllLexable(YieldFactor(PrintFactor(e, re)));
      assert AllLexable(YieldAnd(PrintAnd(e, re)));
    }
  }

  lemma JoinSpells(e: Expression, re: string -> bool)
    requires Printable(e, re) && (IsOr(e) || IsAnd(e))
    requires AllLexable(YieldOr(PrintOr(e.left, re))) && AllLexable(YieldAnd(PrintAnd(e.left, re)))
    requires AllLexable(YieldAnd(PrintAnd(e.right, re))) && AllLexable(YieldFactor(PrintFactor(e.right, re)))
    ensures AllLexable(YieldOr(PrintOr(e, re))) && AllLexable(YieldAnd(PrintAnd(e, re)))
    ensures AllLexable(YieldFactor(PrintFactor(e, re)))
  {
    hide AllLexable, ComparisonSyms, LeafOf, IsLeaf;
    LexableOne(Plain(e.op));
    if IsOr(e) {
      var l, r := YieldOr(PrintOr(e.left, re)), YieldAnd(PrintAnd(e.right, re));
      LexableParts(l, [Plain(Or)] + r);
      LexableParts([Plain(Or)], r);
    } else {
      var l, r := YieldAnd(PrintAnd(e.left, re)), YieldFactor(PrintFactor(e.right, re));
      LexableParts(l, [Plain(And)] + r);
      LexableParts([Plain(And)], r);
    }
    BracketsSpell(YieldOr(PrintOr(e, re)));
  }

  lemma BracketsSpell(ss: seq<Sym>)
    ensures AllLexable([Plain(LBracket)] + (ss + [Plain(RBracket)])) <==> AllLexable(ss)
  {
    hide AllLexable;
    LexableOne(Plain(LBracket));
    LexableOne(Plain(RBracket));
    LexableParts([Plain(LBracket)], ss + [Plain(RBracket)]);
    LexableParts(ss, [Plain(RBracket)]);
  }

  /** The text of the print of a spellable tree within the limit parses to the tree. */
  lemma ParseUndoesPrintedText(e: Expression, re: string -> bool)
    requires Printable(e, re) && LevelsOr(PrintOr(e, re)) <= MAX_LEVELS && SpellableTree(e)
    ensures ParseText(Render(YieldOr(PrintOr(e, re))), re) == Success(e)
  {
    hide ParseText, AllLexable, Render, PrintOr, TreeOr, YieldOr, ValidOr, LevelsOr, Printable, SpellableTree;
    PrintMeans(e, re);
    PrintSpells(e, re);
    ParseUndoesSpelling(PrintOr(e, re), re);
  }

  lemma DerivedIsSpellable(ss: seq<Sym>, e: Expression, re: string -> bool)
    requires Derives(ss, e, re) && AllLexable(ss)
    ensures SpellableTree(e)
  {
    hide AllLexable, TreeOr, YieldOr, ValidOr, LevelsOr, SpellableTree;
    var t :| DerivesBy(t, ss, e, re);
    OrIsSpellable(t, re);
  }

  lemma LexemesAllLexable(src: string)
    ensures var ls := Lexemes(src, 0); AllLexable(Syms(ls[..|ls| - 1]))
  {
    hide Lexemes, Lexable;
    LexemesAreLexable(src, 0);
  }

  /** Exactly which trees some text parses to: and/or trees of comparisons whose print nests within the limit and whose
      names, literals and amounts have a spelling. */
  lemma ExactTextRange(e: Expression, re: string -> bool)
    ensures (exists src :: ParseText(src, re) == Success(e)) <==>
            Printable(e, re) && LevelsOr(PrintOr(e, re)) <= 100 && SpellableTree(e)
  {
    hide ParseText, Lexemes, AllLexable, Render, PrintOr, YieldOr, LevelsOr, Printable, SpellableTree, Derives;
    if src :| ParseText(src, re) == Success(e) {
      var ls := Lexemes(src, 0);
      var ss := Syms(ls[..|ls| - 1]);
      TextParsesIffDerives(src, e, re);
      LexemesAllLexable(src);
      DerivedIsSpellable(ss, e, re);
      ExactRange(e, re);
    }
    if Printable(e, re) && LevelsOr(PrintOr(e, re)) <= MAX_LEVELS && SpellableTree(e) {
      ParseUndoesPrintedText(e, re);
    }
  }
}
