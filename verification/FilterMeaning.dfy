/** What a filter means, and that its translation means the same. */
module FilterMeaning {
  import opened FilterSyntax
  import opened FilterGrammar
  import opened FilterGrammarLaws
  import opened FilterSql
  import opened SqlLogic

  /** A literal, and the token kind it is written with. */
  predicate IsLiteral(e: Expression)
  {
    e.StringExpr? || e.BoolExpr? || e.RegexExpr? || e.QuantityExpr?
  }

  function LiteralKind(e: Expression): Token
    requires IsLiteral(e)
  {
    match e
    case StringExpr(_) => StringLit
    case BoolExpr(_) => Boolean
    case RegexExpr(_) => RegexLit
    case QuantityExpr(_, _) => Quantity
  }

  /** The trees the parser builds: and/or over comparisons of a name. */
  predicate IsFilter(e: Expression)
  {
    match e
    case BinaryExpr(l, op, r) =>
      if op == And || op == Or then IsFilter(l) && IsFilter(r)
      else l.VarExpr? && IsOperator(op) && IsLiteral(r) && OperandAllowed(op, LiteralKind(r))
    case InExpr(subject, _, _) => subject.VarExpr?
    case ContainsExpr(subject, _, _) => subject.VarExpr?
    case _ => false
  }

  lemma ComparisonIsFilter(c: Comparison, re: string -> bool)
    requires ValidComparison(c, re)
    ensures IsFilter(ComparisonTree(c, re))
  {
  }

  lemma {:induction false} ParsedOrIsFilter(t: OrTree, re: string -> bool)
    requires ValidOr(t, re)
    ensures IsFilter(TreeOr(t, re))
    decreases t, 2
  {
    match t
    case OneTerm(a) => ParsedAndIsFilter(a, re);
    case OrMore(l, r) =>
      ParsedOrIsFilter(l, re);
      ParsedAndIsFilter(r, re);
  }

  lemma {:induction false} ParsedAndIsFilter(t: AndTree, re: string -> bool)
    requires ValidAnd(t, re)
    ensures IsFilter(TreeAnd(t, re))
    decreases t, 1
  {
    match t
    case OneFactor(f) => ParsedFactorIsFilter(f, re);
    case AndMore(l, r) =>
      ParsedAndIsFilter(l, re);
      ParsedFactorIsFilter(r, re);
  }

  lemma {:induction false} ParsedFactorIsFilter(f: Factor, re: string -> bool)
    requires ValidFactor(f, re)
    ensures IsFilter(TreeFactor(f, re))
    decreases f, 0
  {
    match f
    case Group(e) => ParsedOrIsFilter(e, re);
    case Leaf(c) => ComparisonIsFilter(c, re);
  }

  // ----- when translation succeeds -----

  /** The literal fits the declared type of the field. */
  predicate Fits(ft: FieldType, literal: Token)
  {
    || ft == AnyField
    || (ft == StringField && (literal == StringLit || literal == RegexLit))
    || (ft == NumericField && literal == Quantity)
    || (ft == BooleanField && literal == Boolean)
  }

  predicate FieldOfType(f: Field, ft: FieldType) { f.Known? && (f.ft == ft || f.ft == AnyField) }

  /** Every name is known and every literal fits its field. */
  predicate WellTyped(e: Expression, mf: Mapper)
    requires IsFilter(e)
  {
    match e
    case BinaryExpr(l, op, r) =>
      if op == And || op == Or then WellTyped(l, mf) && WellTyped(r, mf)
      else var f := mf(Lower(l.name)); f.Known? && Fits(f.ft, LiteralKind(r))
    case InExpr(subject, _, _) => FieldOfType(mf(Lower(subject.name)), StringField)
    case ContainsExpr(subject, _, _) => FieldOfType(mf(Lower(subject.name)), ArrayField)
  }

  /** On every tree the parser builds, translation never panics, and it succeeds exactly on well-typed trees. */
  lemma {:induction false} TranslatesIffWellTyped(e: Expression, mf: Mapper)
    requires IsFilter(e)
    ensures !ToSql(e, mf).Panicked?
    ensures ToSql(e, mf).Sql? <==> WellTyped(e, mf)
    decreases e
  {
    hide Infix, Call, ListCondition, ContainsCondition, Lower;
    match e
    case BinaryExpr(l, op, r) =>
      if op == And || op == Or {
        TranslatesIffWellTyped(l, mf);
        TranslatesIffWellTyped(r, mf);
      } else {
        assert ToSql(r, mf).Sql?;
      }
    case InExpr(_, _, _) =>
    case ContainsExpr(_, _, _) =>
  }

  // ----- what a filter means -----

  /** One kilobyte is a 1024th of a megabyte, and so on upwards; a bare number counts as it stands. */
  function Kilobytes(unit: QuantityUnit): real
  {
    match unit
    case Kb => 1.0
    case Mb => 1024.0
    case Gb => 1024.0 * 1024.0
    case Tb => 1024.0 * 1024.0 * 1024.0
    case NoUnit => 1024.0
  }

  function LiteralValue(e: Expression): Value
    requires IsLiteral(e)
  {
    match e
    case StringExpr(text) => TextV(text)
    case BoolExpr(truth) => BoolV(truth)
    case RegexExpr(pattern) => TextV(pattern)
    case QuantityExpr(amount, unit) => NumberV(amount * Kilobytes(unit) / 1024.0)
  }

  function FieldValue(name: string, mf: Mapper, row: Row): Value
  {
    var f := mf(Lower(name));
    if f.Known? then row(f.column) else NullV
  }

  ghost predicate OneOf(v: Value, values: seq<string>, sem: Semantics)
  {
    exists i :: 0 <= i < |values| && sem.compare(Equal, v, TextV(values[i]))
  }

  /** The value of a comparison operator on a field that holds a value. */
  function Holds(op: Token, v: Value, literal: Expression, sem: Semantics): bool
    requires IsLiteral(literal)
  {
    match op
    case Like => sem.regexp(v, LiteralValue(literal))
    case NotLike => !sem.regexp(v, LiteralValue(literal))
    case Like2 => sem.like(v, TextV("%" + Shown(LiteralValue(literal)) + "%"))
    case _ => sem.compare(op, v, LiteralValue(literal))
  }

  /** True, false or unknown of a row: a comparison with NULL is unknown, membership in an empty list is false
      whatever the field holds, and a NULL list does not contain anything. */
  ghost function Meaning(e: Expression, mf: Mapper, row: Row, sem: Semantics): Truth
    requires IsFilter(e)
  {
    match e
    case BinaryExpr(l, op, r) =>
      if op == And then And3(Meaning(l, mf, row, sem), Meaning(r, mf, row, sem))
      else if op == Or then Or3(Meaning(l, mf, row, sem), Meaning(r, mf, row, sem))
      else
        var v := FieldValue(l.name, mf, row);
        if v.NullV? then Maybe else Truly(Holds(op, v, r, sem))
    case InExpr(subject, values, negated) =>
      var v := FieldValue(subject.name, mf, row);
      if values == [] then Truly(negated)
      else if v.NullV? then Maybe
      else Truly(OneOf(v, values, sem) != negated)
    case ContainsExpr(subject, element, negated) =>
      var v := FieldValue(subject.name, mf, row);
      if v.NullV? then (if negated then Yes else Maybe)
      else if sem.cast(v).NullV? then Maybe
      else Truly(sem.member(sem.cast(v), TextV(element)) != negated)
  }

  // ----- the condition the text of a translation reads as -----

  function LiteralOperand(e: Expression, h: nat): Operand
    requires IsLiteral(e)
  {
    if e.BoolExpr? then Constant(BoolV(e.truth)) else Bound(h)
  }

  function Bounds(h: nat, n: nat): seq<Operand>
  {
    seq(n, i requires 0 <= i < n => Bound(h + i))
  }

  function ArgCount(e: Expression, mf: Mapper): nat
  {
    var t := ToSql(e, mf);
    if t.Sql? then |t.args| else 0
  }

  function CondOf(e: Expression, mf: Mapper, h: nat): Cond
    requires IsFilter(e) && ToSql(e, mf).Sql?
  {
    match e
    case BinaryExpr(l, op, r) =>
      if op == And then CAnd(CondOf(l, mf, h), CondOf(r, mf, h + ArgCount(l, mf)))
      else if op == Or then COr(CondOf(l, mf, h), CondOf(r, mf, h + ArgCount(l, mf)))
      else
        var a, b := Column(mf(Lower(l.name)).column), LiteralOperand(r, h);
        if op == Like then CRegexp(a, b)
        else if op == NotLike then CNot(CRegexp(a, b))
        else if op == Like2 then CLike(a, b)
        else CCompare(op, a, b)
    case InExpr(subject, values, negated) =>
      var col := mf(Lower(subject.name)).column;
      if values == [] then
        CCompare(Equal, Constant(NumberV(1.0)), Constant(NumberV(if negated then 1.0 else 0.0)))
      else if negated then CNot(CIn(Column(col), Bounds(h, |values|)))
      else CIn(Column(col), Bounds(h, |values|))
    case ContainsExpr(subject, element, negated) =>
      var col := mf(Lower(subject.name)).column;
      if negated then COr(CIsNull(Column(col)), CNot(CListContains(CastList(col), Bound(h))))
      else CListContains(CastList(col), Bound(h))
  }

  // ----- reading the text -----

  lemma SkipCons(t: SqlTok, s: seq<SqlTok>, h: nat)
    ensures Skip([t] + s, t, h) == Got((), s, h)
  {
    assert ([t] + s)[1..] == s;
  }

  /** A token sequence that reads as one operand. */
  ghost predicate ReadsAs(ts: seq<SqlTok>, o: Operand, h: nat, h': nat, tail: seq<SqlTok>)
  {
    ReadOperand(ts + tail, h) == Got(o, tail, h')
  }

  lemma OneTokenReads(t: SqlTok, tail: seq<SqlTok>, h: nat)
    ensures t == HOLE ==> ReadsAs([t], Bound(h), h, h + 1, tail)
    ensures t.COL? ==> ReadsAs([t], Column(t.name), h, h, tail)
    ensures t.NUM? ==> ReadsAs([t], Constant(NumberV(t.n as real)), h, h, tail)
    ensures t == TRUE ==> ReadsAs([t], Constant(BoolV(true)), h, h, tail)
    ensures t == FALSE ==> ReadsAs([t], Constant(BoolV(false)), h, h, tail)
  {
    assert ([t] + tail)[1..] == tail;
  }

  lemma CastReads(col: string, tail: seq<SqlTok>, h: nat)
    ensures ReadsAs(Casted(col), CastList(col), h, h, tail)
  {
    var s := Casted(col) + tail;
    assert s[0] == CAST && s[1] == LP && s[2] == COL(col) && s[3] == AS && s[4] == VARCHAR_LIST && s[5] == RP;
    assert s[6..] == tail;
  }

  lemma PairReads(a: seq<SqlTok>, b: seq<SqlTok>, x: Operand, y: Operand, h: nat, h1: nat, h2: nat, tail: seq<SqlTok>)
    requires ReadsAs(a, x, h, h1, [COMMA] + (b + ([RP] + tail)))
    requires ReadsAs(b, y, h1, h2, [RP] + tail)
    ensures ReadPair([LP] + (a + ([COMMA] + (b + ([RP] + tail)))), h) == Got((x, y), tail, h2)
  {
    hide ReadOperand;
    SkipCons(LP, a + ([COMMA] + (b + ([RP] + tail))), h);
    SkipCons(COMMA, b + ([RP] + tail), h1);
    SkipCons(RP, tail, h2);
  }

  lemma CallSplit(f: SqlTok, a: seq<SqlTok>, b: seq<SqlTok>, tail: seq<SqlTok>)
    ensures Call(f, a, b) + tail == [f] + ([LP] + (a + ([COMMA] + (b + ([RP] + tail)))))
  {
  }

  lemma InfixSplit(a: seq<SqlTok>, op: SqlTok, b: seq<SqlTok>, tail: seq<SqlTok>)
    ensures Infix(a, op, b) + tail == [LP] + (a + ([op] + (b + ([RP] + tail))))
  {
  }

  lemma CallReads(f: SqlTok, a: seq<SqlTok>, b: seq<SqlTok>, x: Operand, y: Operand,
                  h: nat, h1: nat, h2: nat, tail: seq<SqlTok>)
    requires f == REGEXP_MATCHES || f == LIST_CONTAINS
    requires ReadsAs(a, x, h, h1, [COMMA] + (b + ([RP] + tail)))
    requires ReadsAs(b, y, h1, h2, [RP] + tail)
    ensures ReadNot(Call(f, a, b) + tail, h) ==
            Got(if f == REGEXP_MATCHES then CRegexp(x, y) else CListContains(x, y), tail, h2)
  {
    hide ReadsAs, ReadPair, Call;
    CallSplit(f, a, b, tail);
    PairReads(a, b, x, y, h, h1, h2, tail);
    var s := [LP] + (a + ([COMMA] + (b + ([RP] + tail))));
    assert ([f] + s)[1..] == s;
  }

  lemma NotReads(s: seq<SqlTok>, c: Cond, h: nat, h': nat, tail: seq<SqlTok>)
    requires ReadNot(s + tail, h) == Got(c, tail, h')
    ensures ReadNot(([NOT] + s) + tail, h) == Got(CNot(c), tail, h')
  {
    hide ReadPrimary;
    assert (([NOT] + s) + tail)[1..] == s + tail;
  }

  lemma ReadOrOfNot(s: seq<SqlTok>, h: nat, c: Cond, rest: seq<SqlTok>, h': nat)
    requires ReadNot(s, h) == Got(c, [RP] + rest, h')
    ensures ReadOr(s, h) == Got(c, [RP] + rest, h')
  {
    hide ReadNot;
    assert AndRest(c, [RP] + rest, h') == Got(c, [RP] + rest, h');
    assert ReadAnd(s, h) == Got(c, [RP] + rest, h');
  }

  lemma BracketReads(s: seq<SqlTok>, h: nat, c: Cond, tail: seq<SqlTok>, h': nat)
    requires ReadOr(s, h) == Got(c, [RP] + tail, h')
    ensures ReadNot([LP] + s, h) == Got(c, tail, h')
  {
    hide ReadOr;
    SkipCons(RP, tail, h');
    assert ([LP] + s)[1..] == s;
  }

  /** (a op b) with operands a and b and a comparison or LIKE between them. */
  lemma CompareReads(a: seq<SqlTok>, op: SqlTok, b: seq<SqlTok>, x: Operand, y: Operand,
                     h: nat, h1: nat, h2: nat, tail: seq<SqlTok>)
    requires op.OP? || op == LIKE
    requires a != [] && (a[0].COL? || a[0].NUM?)
    requires ReadsAs(a, x, h, h1, [op] + (b + ([RP] + tail)))
    requires ReadsAs(b, y, h1, h2, [RP] + tail)
    ensures ReadNot(Infix(a, op, b) + tail, h) ==
            Got(if op == LIKE then CLike(x, y) else CCompare(op.op, x, y), tail, h2)
  {
    hide ReadOperand, Infix;
    InfixSplit(a, op, b, tail);
    var s1 := [op] + (b + ([RP] + tail));
    assert s1[1..] == b + ([RP] + tail);
    var c := if op == LIKE then CLike(x, y) else CCompare(op.op, x, y);
    var s := a + s1;
    assert s[0] == a[0];
    assert ReadPredicate(s, h) == Got(c, [RP] + tail, h2);
    assert ReadNot(s, h) == Got(c, [RP] + tail, h2);
    ReadOrOfNot(s, h, c, tail, h2);
    BracketReads(s, h, c, tail, h2);
  }

  /** (l AND r) and (l OR r) of two conditions. */
  lemma JoinReads(l: seq<SqlTok>, op: SqlTok, r: seq<SqlTok>, c: Cond, d: Cond,
                  h: nat, h1: nat, h2: nat, tail: seq<SqlTok>)
    requires op == AND || op == OR
    requires ReadNot(l + ([op] + (r + ([RP] + tail))), h) == Got(c, [op] + (r + ([RP] + tail)), h1)
    requires ReadNot(r + ([RP] + tail), h1) == Got(d, [RP] + tail, h2)
    ensures ReadNot(Infix(l, op, r) + tail, h) == Got(if op == AND then CAnd(c, d) else COr(c, d), tail, h2)
  {
    hide ReadNot, Infix;
    InfixSplit(l, op, r, tail);
    var s2 := r + ([RP] + tail);
    var s1 := [op] + s2;
    assert s1[1..] == s2;
    var j := if op == AND then CAnd(c, d) else COr(c, d);
    assert AndRest(d, [RP] + tail, h2) == Got(d, [RP] + tail, h2);
    if op == AND {
      assert AndRest(c, s1, h1) == Got(j, [RP] + tail, h2);
    } else {
      assert ReadAnd(s2, h1) == Got(d, [RP] + tail, h2);
      assert OrRest(c, s1, h1) == Got(j, [RP] + tail, h2);
    }
    BracketReads(l + s1, h, j, tail, h2);
  }

  lemma ItemStep(items: seq<Operand>, s1: seq<SqlTok>, h: nat)
    ensures ReadItems(items, [COMMA] + ([HOLE] + s1), h) == ReadItems(items + [Bound(h)], s1, h + 1)
  {
    hide ReadOperand;
    assert ([COMMA] + ([HOLE] + s1))[1..] == [HOLE] + s1;
    OneTokenReads(HOLE, s1, h);
  }

  lemma HolesSplit(n: nat, tail: seq<SqlTok>)
    requires n > 0
    ensures MoreHoles(n) + tail == [COMMA] + ([HOLE] + (MoreHoles(n - 1) + tail))
  {
  }

  lemma BoundsSplit(items: seq<Operand>, h: nat, n: nat)
    requires n > 0
    ensures items + [Bound(h)] + Bounds(h + 1, n - 1) == items + Bounds(h, n)
  {
  }

  lemma {:induction false} ItemsRead(items: seq<Operand>, n: nat, h: nat, tail: seq<SqlTok>)
    ensures ReadItems(items, MoreHoles(n) + tail, h) == Got(items + Bounds(h, n), tail, h + n)
    decreases n
  {
    hide ReadOperand;
    if n == 0 {
      assert MoreHoles(n) + tail == [RP] + tail;
      SkipCons(RP, tail, h);
      assert items + Bounds(h, 0) == items;
    } else {
      hide ReadItems, MoreHoles, Bounds;
      var s1 := MoreHoles(n - 1) + tail;
      HolesSplit(n, tail);
      ItemStep(items, s1, h);
      ItemsRead(items + [Bound(h)], n - 1, h + 1, tail);
      BoundsSplit(items, h, n);
    }
  }

  lemma HolesRead(n: nat, h: nat, tail: seq<SqlTok>)
    requires n > 0
    ensures ReadList(([LP, HOLE] + MoreHoles(n - 1)) + tail, h) == Got(Bounds(h, n), tail, h + n)
  {
    hide ReadItems, ReadOperand;
    var s2 := MoreHoles(n - 1) + tail;
    assert ([LP, HOLE] + MoreHoles(n - 1)) + tail == [LP] + ([HOLE] + s2);
    SkipCons(LP, [HOLE] + s2, h);
    OneTokenReads(HOLE, s2, h);
    ItemsRead([Bound(h)], n - 1, h + 1, tail);
    assert [Bound(h)] + Bounds(h + 1, n - 1) == Bounds(h, n);
  }

  lemma PredicateReads(col: string, s1: seq<SqlTok>, h: nat, r: Read<Cond>)
    requires ReadTail(Column(col), s1, h) == r
    ensures ReadNot([COL(col)] + s1, h) == r
  {
    hide ReadTail;
    OneTokenReads(COL(col), s1, h);
    assert ([COL(col)] + s1)[0] == COL(col);
    assert ReadPredicate([COL(col)] + s1, h) == r;
  }

  lemma InTailReads(a: Operand, s2: seq<SqlTok>, items: seq<Operand>, tail: seq<SqlTok>, h: nat, h': nat)
    requires ReadList(s2, h) == Got(items, tail, h')
    ensures ReadTail(a, [IN] + s2, h) == Got(CIn(a, items), tail, h')
    ensures ReadTail(a, [NOT] + ([IN] + s2), h) == Got(CNot(CIn(a, items)), tail, h')
  {
    hide ReadList;
    assert ([IN] + s2)[1..] == s2;
    assert ([NOT] + ([IN] + s2))[1..] == [IN] + s2;
    SkipCons(IN, s2, h);
  }

  lemma ListConditionSplit(col: string, n: nat, negated: bool, tail: seq<SqlTok>)
    requires n > 0
    ensures var s2 := ([LP, HOLE] + MoreHoles(n - 1)) + tail;
            ListCondition(col, n, negated) + tail == [COL(col)] + if negated then [NOT] + ([IN] + s2) else [IN] + s2
  {
  }

  lemma MemberReads(col: string, n: nat, negated: bool, h: nat, tail: seq<SqlTok>)
    requires n > 0
    ensures ReadNot(ListCondition(col, n, negated) + tail, h) ==
            Got(Negated(negated, CIn(Column(col), Bounds(h, n))), tail, h + n)
  {
    hide ReadNot, ReadTail, ReadList, MoreHoles, ListCondition;
    var s2 := ([LP, HOLE] + MoreHoles(n - 1)) + tail;
    HolesRead(n, h, tail);
    InTailReads(Column(col), s2, Bounds(h, n), tail, h, h + n);
    ListConditionSplit(col, n, negated, tail);
    PredicateReads(col, if negated then [NOT] + ([IN] + s2) else [IN] + s2, h,
                   Got(Negated(negated, CIn(Column(col), Bounds(h, n))), tail, h + n));
  }

  function Negated(negated: bool, c: Cond): Cond { if negated then CNot(c) else c }

  lemma EmptyListReads(col: string, negated: bool, h: nat, tail: seq<SqlTok>)
    ensures ReadNot(ListCondition(col, 0, negated) + tail, h) ==
            Got(CCompare(Equal, Constant(NumberV(1.0)), Constant(NumberV(if negated then 1.0 else 0.0))), tail, h)
  {
    hide ReadNot;
    var m := if negated then 1 else 0;
    OneTokenReads(NUM(1), [OP(Equal)] + ([NUM(m)] + ([RP] + tail)), h);
    OneTokenReads(NUM(m), [RP] + tail, h);
    CompareReads([NUM(1)], OP(Equal), [NUM(m)], Constant(NumberV(1.0)), Constant(NumberV(m as real)), h, h, h, tail);
    assert ListCondition(col, 0, negated) == Infix([NUM(1)], OP(Equal), [NUM(m)]);
  }

  lemma ListContainsReads(col: string, h: nat, tail: seq<SqlTok>)
    ensures ReadNot(Call(LIST_CONTAINS, Casted(col), [HOLE]) + tail, h) ==
            Got(CListContains(CastList(col), Bound(h)), tail, h + 1)
  {
    hide ReadNot, Call, Casted;
    CastReads(col, [COMMA] + ([HOLE] + ([RP] + tail)), h);
    OneTokenReads(HOLE, [RP] + tail, h);
    CallReads(LIST_CONTAINS, Casted(col), [HOLE], CastList(col), Bound(h), h, h, h + 1, tail);
  }

  lemma IsNullReads(col: string, h: nat, tail: seq<SqlTok>)
    ensures ReadNot([COL(col), IS, NULL] + tail, h) == Got(CIsNull(Column(col)), tail, h)
  {
    hide ReadNot, ReadTail;
    var s1 := [IS] + ([NULL] + tail);
    NullTailReads(Column(col), h, tail);
    assert [COL(col), IS, NULL] + tail == [COL(col)] + s1;
    PredicateReads(col, s1, h, Got(CIsNull(Column(col)), tail, h));
  }

  lemma NullTailReads(a: Operand, h: nat, tail: seq<SqlTok>)
    ensures ReadTail(a, [IS] + ([NULL] + tail), h) == Got(CIsNull(a), tail, h)
  {
    SkipCons(NULL, tail, h);
    assert ([IS] + ([NULL] + tail))[1..] == [NULL] + tail;
  }

  lemma ContainsReads(col: string, negated: bool, h: nat, tail: seq<SqlTok>)
    ensures ReadNot(ContainsCondition(col, negated) + tail, h) ==
            Got(if negated then COr(CIsNull(Column(col)), CNot(CListContains(CastList(col), Bound(h))))
                else CListContains(CastList(col), Bound(h)), tail, h + 1)
  {
    hide ReadNot, Call, Casted, Infix;
    var call := Call(LIST_CONTAINS, Casted(col), [HOLE]);
    if negated {
      ListContainsReads(col, h, [RP] + tail);
      NotReads(call, CListContains(CastList(col), Bound(h)), h, h + 1, [RP] + tail);
      IsNullReads(col, h, [OR] + (([NOT] + call) + ([RP] + tail)));
      JoinReads([COL(col), IS, NULL], OR, [NOT] + call, CIsNull(Column(col)),
                CNot(CListContains(CastList(col), Bound(h))), h, h, h + 1, tail);
    } else {
      ListContainsReads(col, h, tail);
    }
  }

  lemma LiteralReads(e: Expression, mf: Mapper, h: nat, tail: seq<SqlTok>)
    requires IsLiteral(e)
    ensures ToSql(e, mf).Sql? && ReadsAs(ToSql(e, mf).text, LiteralOperand(e, h), h, h + ArgCount(e, mf), tail)
  {
    hide ReadsAs;
    OneTokenReads(HOLE, tail, h);
    OneTokenReads(TRUE, tail, h);
    OneTokenReads(FALSE, tail, h);
  }

  lemma MatchReads(col: string, r: seq<SqlTok>, y: Operand, negated: bool, h: nat, h': nat, tail: seq<SqlTok>)
    requires ReadsAs(r, y, h, h', [RP] + tail)
    ensures var call := Call(REGEXP_MATCHES, [COL(col)], r);
            ReadNot((if negated then [NOT] + call else call) + tail, h) ==
            Got(Negated(negated, CRegexp(Column(col), y)), tail, h')
  {
    hide ReadNot, ReadsAs, Call;
    OneTokenReads(COL(col), [COMMA] + (r + ([RP] + tail)), h);
    CallReads(REGEXP_MATCHES, [COL(col)], r, Column(col), y, h, h, h', tail);
    NotReads(Call(REGEXP_MATCHES, [COL(col)], r), CRegexp(Column(col), y), h, h', tail);
  }

  lemma OperatorReads(col: string, op: SqlTok, r: seq<SqlTok>, y: Operand, h: nat, h': nat, tail: seq<SqlTok>)
    requires (op.OP? || op == LIKE) && ReadsAs(r, y, h, h', [RP] + tail)
    ensures ReadNot(Infix([COL(col)], op, r) + tail, h) ==
            Got(if op == LIKE then CLike(Column(col), y) else CCompare(op.op, Column(col), y), tail, h')
  {
    hide ReadNot, ReadsAs, Infix;
    OneTokenReads(COL(col), [op] + (r + ([RP] + tail)), h);
    CompareReads([COL(col)], op, r, Column(col), y, h, h, h', tail);
  }

  /** What the translation of a comparison is made of. */
  lemma ComparisonShape(e: Expression, mf: Mapper)
    requires IsFilter(e) && e.BinaryExpr? && !IsJoin(e) && ToSql(e, mf).Sql?
    ensures mf(Lower(e.left.name)).Known? && ToSql(e.right, mf).Sql?
    ensures var col, r := COL(mf(Lower(e.left.name)).column), ToSql(e.right, mf);
            var f := ToSql(e, mf);
            && |f.args| == |r.args|
            && f.text == if e.op == Like then Call(REGEXP_MATCHES, [col], r.text)
                         else if e.op == NotLike then [NOT] + Call(REGEXP_MATCHES, [col], r.text)
                         else Infix([col], if e.op == Like2 then LIKE else OP(e.op), r.text)
  {
    hide Call, Infix, Lower, CheckValueType;
    assert ToSql(e.left, mf) == Sql([COL(mf(Lower(e.left.name)).column)], []);
  }

  lemma ComparisonReads(e: Expression, mf: Mapper, h: nat, tail: seq<SqlTok>)
    requires IsFilter(e) && e.BinaryExpr? && !IsJoin(e) && ToSql(e, mf).Sql?
    ensures ReadNot(ToSql(e, mf).text + tail, h) == Got(CondOf(e, mf, h), tail, h + ArgCount(e, mf))
  {
    hide ToSql, ReadNot, ReadsAs, Call, Infix, Lower;
    ComparisonShape(e, mf);
    var col := mf(Lower(e.left.name)).column;
    LiteralReads(e.right, mf, h, [RP] + tail);
    var r, y := ToSql(e.right, mf), LiteralOperand(e.right, h);
    if e.op == Like || e.op == NotLike {
      MatchReads(col, r.text, y, e.op == NotLike, h, h + |r.args|, tail);
    } else {
      OperatorReads(col, if e.op == Like2 then LIKE else OP(e.op), r.text, y, h, h + |r.args|, tail);
    }
  }

  predicate IsJoin(e: Expression) { e.BinaryExpr? && (e.op == And || e.op == Or) }

  lemma LeafReads(e: Expression, mf: Mapper, h: nat, tail: seq<SqlTok>)
    requires IsFilter(e) && !IsJoin(e) && ToSql(e, mf).Sql?
    ensures ReadNot(ToSql(e, mf).text + tail, h) == Got(CondOf(e, mf, h), tail, h + ArgCount(e, mf))
  {
    hide ReadNot, ListCondition, ContainsCondition, Infix, Call, Lower;
    match e
    case BinaryExpr(_, _, _) => ComparisonReads(e, mf, h, tail);
    case InExpr(subject, values, negated) =>
      var col := mf(Lower(subject.name)).column;
      if values == [] {
        EmptyListReads(col, negated, h, tail);
      } else {
        MemberReads(col, |values|, negated, h, tail);
      }
    case ContainsExpr(subject, element, negated) =>
      ContainsReads(mf(Lower(subject.name)).column, negated, h, tail);
  }

  /** A join is translated when both sides are. */
  lemma JoinParts(e: Expression, mf: Mapper)
    requires IsFilter(e) && IsJoin(e) && ToSql(e, mf).Sql?
    ensures IsFilter(e.left) && IsFilter(e.right) && ToSql(e.left, mf).Sql? && ToSql(e.right, mf).Sql?
    ensures ToSql(e, mf) == Sql(Infix(ToSql(e.left, mf).text, if e.op == And then AND else OR, ToSql(e.right, mf).text),
                                ToSql(e.left, mf).args + ToSql(e.right, mf).args)
  {
    hide Infix;
  }

  lemma JoinCond(e: Expression, mf: Mapper, h: nat)
    requires IsFilter(e) && IsJoin(e) && ToSql(e, mf).Sql?
    requires IsFilter(e.left) && IsFilter(e.right) && ToSql(e.left, mf).Sql? && ToSql(e.right, mf).Sql?
    ensures var c, d := CondOf(e.left, mf, h), CondOf(e.right, mf, h + ArgCount(e.left, mf));
            CondOf(e, mf, h) == if e.op == And then CAnd(c, d) else COr(c, d)
  {
    hide ToSql, IsFilter;
  }

  /** The text of a translation reads back, in front of anything, as one condition with one hole per argument. */
  lemma {:induction false} TranslationReads(e: Expression, mf: Mapper, h: nat, tail: seq<SqlTok>)
    requires IsFilter(e) && ToSql(e, mf).Sql?
    ensures ReadNot(ToSql(e, mf).text + tail, h) == Got(CondOf(e, mf, h), tail, h + ArgCount(e, mf))
    decreases e
  {
    hide ReadNot, ToSql, Infix, IsFilter, CondOf;
    if IsJoin(e) {
      JoinParts(e, mf);
      JoinCond(e, mf, h);
      var t := if e.op == And then AND else OR;
      var rt := ToSql(e.right, mf).text;
      TranslationReads(e.left, mf, h, [t] + (rt + ([RP] + tail)));
      var h1 := h + ArgCount(e.left, mf);
      TranslationReads(e.right, mf, h1, [RP] + tail);
      JoinReads(ToSql(e.left, mf).text, t, rt, CondOf(e.left, mf, h), CondOf(e.right, mf, h1),
                h, h1, h1 + ArgCount(e.right, mf), tail);
    } else {
      LeafReads(e, mf, h, tail);
    }
  }

  // ----- evaluating the condition -----

  /** The arguments a fragment brings stand at h among all arguments. */
  ghost predicate Placed(mine: seq<Value>, args: seq<Value>, h: nat)
  {
    h + |mine| <= |args| && args[h..h + |mine|] == mine
  }

  lemma PlacedParts(a: seq<Value>, b: seq<Value>, args: seq<Value>, h: nat)
    requires Placed(a + b, args, h)
    ensures Placed(a, args, h) && Placed(b, args, h + |a|)
  {
    assert a == (a + b)[..|a|] && b == (a + b)[|a|..];
  }

  lemma PlacedAt(mine: seq<Value>, args: seq<Value>, h: nat, i: nat)
    requires Placed(mine, args, h) && i < |mine|
    ensures h + i < |args| && args[h + i] == mine[i]
  {
    assert args[h..h + |mine|][i] == mine[i];
  }

  lemma InStep(v: Value, values: seq<string>, args: seq<Value>, h: nat, row: Row, sem: Semantics)
    requires values != [] && h < |args| && args[h] == TextV(values[0])
    ensures InList(v, Bounds(h, |values|), args, row, sem) ==
            Or3(if v.NullV? then Maybe else Truly(sem.compare(Equal, v, TextV(values[0]))),
                InList(v, Bounds(h + 1, |values| - 1), args, row, sem))
  {
    assert Bounds(h, |values|)[0] == Bound(h);
    assert Bounds(h, |values|)[1..] == Bounds(h + 1, |values| - 1);
  }

  lemma TextsCons(values: seq<string>)
    requires values != []
    ensures Texts(values) == [TextV(values[0])] + Texts(values[1..])
  {
  }

  /** IN over bound texts is membership. */
  lemma {:induction false} InListMeans(v: Value, values: seq<string>, args: seq<Value>, h: nat, row: Row, sem: Semantics)
    requires values != [] && Placed(Texts(values), args, h)
    ensures InList(v, Bounds(h, |values|), args, row, sem) ==
            if v.NullV? then Maybe else Truly(OneOf(v, values, sem))
    decreases |values|
  {
    hide Placed, OneOf, InList, Texts;
    TextsCons(values);
    PlacedParts([TextV(values[0])], Texts(values[1..]), args, h);
    PlacedAt([TextV(values[0])], args, h, 0);
    InStep(v, values, args, h, row, sem);
    OneOfCons(v, values, sem);
    if |values| == 1 {
      NothingIn(v, values[1..], args, h + 1, row, sem);
    } else {
      InListMeans(v, values[1..], args, h + 1, row, sem);
    }
  }

  lemma NothingIn(v: Value, values: seq<string>, args: seq<Value>, h: nat, row: Row, sem: Semantics)
    requires values == []
    ensures !OneOf(v, values, sem) && InList(v, Bounds(h, 0), args, row, sem) == No
  {
  }

  lemma OneOfCons(v: Value, values: seq<string>, sem: Semantics)
    requires values != []
    ensures OneOf(v, values, sem) <==> sem.compare(Equal, v, TextV(values[0])) || OneOf(v, values[1..], sem)
  {
    if i :| 0 <= i < |values| && sem.compare(Equal, v, TextV(values[i])) {
      if i > 0 {
        assert values[1..][i - 1] == values[i];
      }
    }
    if i :| 0 <= i < |values[1..]| && sem.compare(Equal, v, TextV(values[1..][i])) {
      assert values[i + 1] == values[1..][i];
    }
  }

  lemma LiteralMeans(e: Expression, mf: Mapper, args: seq<Value>, h: nat, row: Row, sem: Semantics)
    requires IsLiteral(e) && ToSql(e, mf).Sql? && Placed(ToSql(e, mf).args, args, h)
    ensures ValueOf(LiteralOperand(e, h), args, row, sem) == LiteralValue(e) && !LiteralValue(e).NullV?
  {
    if !e.BoolExpr? {
      PlacedAt(ToSql(e, mf).args, args, h, 0);
    }
  }

  lemma LikeShape(e: Expression, mf: Mapper)
    requires IsFilter(e) && e.BinaryExpr? && e.op == Like2 && ToSql(e, mf).Sql?
    ensures e.left.VarExpr? && e.right.StringExpr? && mf(Lower(e.left.name)).Known?
    ensures ToSql(e, mf).args == [TextV("%" + e.right.text + "%")]
  {
    hide Lower, Call, Infix, CheckValueType;
    assert [] + [TextV("%" + e.right.text + "%")] == [TextV("%" + e.right.text + "%")];
  }

  lemma LikeMeans(e: Expression, mf: Mapper, args: seq<Value>, h: nat, row: Row, sem: Semantics)
    requires IsFilter(e) && e.BinaryExpr? && e.op == Like2 && ToSql(e, mf).Sql?
    requires Placed(ToSql(e, mf).args, args, h)
    ensures Eval(CondOf(e, mf, h), args, row, sem) == Meaning(e, mf, row, sem)
  {
    hide Lower, Placed, ToSql, IsFilter;
    LikeShape(e, mf);
    PlacedAt(ToSql(e, mf).args, args, h, 0);
  }

  lemma ComparisonMeans(e: Expression, mf: Mapper, args: seq<Value>, h: nat, row: Row, sem: Semantics)
    requires IsFilter(e) && e.BinaryExpr? && e.op != And && e.op != Or && ToSql(e, mf).Sql?
    requires Placed(ToSql(e, mf).args, args, h)
    ensures Eval(CondOf(e, mf, h), args, row, sem) == Meaning(e, mf, row, sem)
  {
    hide Lower, Call, Infix, Placed, CheckValueType, LiteralValue, OperandAllowed, InMegabytes, Shown;
    if e.op == Like2 {
      LikeMeans(e, mf, args, h, row, sem);
    } else {
      assert ToSql(e.left, mf) == Sql([COL(mf(Lower(e.left.name)).column)], []);
      assert [] + ToSql(e.right, mf).args == ToSql(e.right, mf).args;
      LiteralMeans(e.right, mf, args, h, row, sem);
    }
  }

  lemma MemberMeans(e: Expression, mf: Mapper, args: seq<Value>, h: nat, row: Row, sem: Semantics)
    requires IsFilter(e) && e.InExpr? && ToSql(e, mf).Sql? && Lawful(sem) && Placed(ToSql(e, mf).args, args, h)
    ensures Eval(CondOf(e, mf, h), args, row, sem) == Meaning(e, mf, row, sem)
  {
    hide Lower, ListCondition, Placed;
    var col := mf(Lower(e.subject.name)).column;
    if e.values != [] {
      InListMeans(row(col), e.values, args, h, row, sem);
      assert Eval(CIn(Column(col), Bounds(h, |e.values|)), args, row, sem) ==
             if row(col).NullV? then Maybe else Truly(OneOf(row(col), e.values, sem));
    }
  }

  lemma ContainsMeans(e: Expression, mf: Mapper, args: seq<Value>, h: nat, row: Row, sem: Semantics)
    requires IsFilter(e) && e.ContainsExpr? && ToSql(e, mf).Sql? && Placed(ToSql(e, mf).args, args, h)
    ensures Eval(CondOf(e, mf, h), args, row, sem) == Meaning(e, mf, row, sem)
  {
    hide Lower, ContainsCondition, Placed;
    PlacedAt(ToSql(e, mf).args, args, h, 0);
    var call := CListContains(CastList(mf(Lower(e.subject.name)).column), Bound(h));
    assert Eval(CNot(call), args, row, sem) == Not3(Eval(call, args, row, sem));
  }

  /** The condition a translation reads as has the meaning of the tree. */
  lemma {:induction false} TranslationMeans(e: Expression, mf: Mapper, args: seq<Value>, h: nat, row: Row, sem: Semantics)
    requires IsFilter(e) && ToSql(e, mf).Sql? && Lawful(sem) && Placed(ToSql(e, mf).args, args, h)
    ensures Eval(CondOf(e, mf, h), args, row, sem) == Meaning(e, mf, row, sem)
    decreases e
  {
    if IsJoin(e) {
      hide ToSql, Infix, IsFilter, Placed;
      JoinParts(e, mf);
      PlacedParts(ToSql(e.left, mf).args, ToSql(e.right, mf).args, args, h);
      TranslationMeans(e.left, mf, args, h, row, sem);
      TranslationMeans(e.right, mf, args, h + ArgCount(e.left, mf), row, sem);
    } else {
      hide ToSql, Placed, CondOf, Meaning, Eval;
      match e
      case BinaryExpr(_, _, _) => ComparisonMeans(e, mf, args, h, row, sem);
      case InExpr(_, _, _) => MemberMeans(e, mf, args, h, row, sem);
      case ContainsExpr(_, _, _) => ContainsMeans(e, mf, args, h, row, sem);
    }
  }

  /** Reading the emitted text as SQL, binding its arguments from left to right and evaluating it in three-valued
      logic gives, on every row, the truth value of the filter itself; every argument has its hole and no more. */
  lemma TranslationKeepsMeaning(e: Expression, mf: Mapper, row: Row, sem: Semantics)
    requires IsFilter(e) && ToSql(e, mf).Sql? && Lawful(sem)
    ensures var f := ToSql(e, mf);
            var c := ReadSql(f.text);
            && c.Got? && c.holes == |f.args|
            && Eval(c.value, f.args, row, sem) == Meaning(e, mf, row, sem)
  {
    hide ReadNot, ToSql, CondOf, Eval, Meaning;
    var f := ToSql(e, mf);
    TranslationReads(e, mf, 0, []);
    assert f.text + [] == f.text;
    var c := CondOf(e, mf, 0);
    assert AndRest(c, [], |f.args|) == Got(c, [], |f.args|);
    assert ReadAnd(f.text, 0) == Got(c, [], |f.args|);
    assert OrRest(c, [], |f.args|) == Got(c, [], |f.args|);
    assert f.args[0..0 + |f.args|] == f.args;
    TranslationMeans(e, mf, f.args, 0, row, sem);
  }
}
