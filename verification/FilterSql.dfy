/** Translation of a filter tree to SQL text with bound arguments (pkg/filter/sql.go). The text is a sequence of
    SQL tokens; the arguments fill its holes from left to right. */
module FilterSql {
  import opened FilterSyntax

  datatype FieldType = AnyField | StringField | NumericField | BooleanField | ArrayField

  datatype Field = Known(column: string, ft: FieldType) | Unknown

  /** MapFunc: any partial function from lower-case names to columns. */
  type Mapper = string -> Field

  datatype Value = NullV | TextV(s: string) | NumberV(r: real) | BoolV(b: bool) | ListV(items: seq<string>)

  datatype SqlTok =
    | COL(name: string) | HOLE | NUM(n: int)
    | LP | RP | COMMA
    | AND | OR | NOT | IN | IS | NULL | LIKE | TRUE | FALSE
    | REGEXP_MATCHES | LIST_CONTAINS | CAST | AS | VARCHAR_LIST
    | OP(op: Token)

  datatype Translation = Sql(text: seq<SqlTok>, args: seq<Value>) | Rejected | Panicked

  /** checkValueType */
  predicate CheckValueType(ft: FieldType, value: Expression)
  {
    match ft
    case AnyField => true
    case StringField => value.StringExpr? || value.RegexExpr?
    case NumericField => value.QuantityExpr?
    case BooleanField => value.BoolExpr?
    case ArrayField => false
  }

  /** Quantities are compared in megabytes. */
  function InMegabytes(amount: real, unit: QuantityUnit): real
  {
    match unit
    case Kb => amount / 1024.0
    case Mb => amount
    case Gb => amount * 1024.0
    case Tb => amount * 1024.0 * 1024.0
    case NoUnit => amount
  }

  /** The argument as fmt prints it into a LIKE pattern; only strings get there. */
  function Shown(v: Value): string { if v.TextV? then v.s else "" }

  function Texts(values: seq<string>): (vs: seq<Value>)
    ensures |vs| == |values| && forall i :: 0 <= i < |values| ==> vs[i] == TextV(values[i])
  {
    seq(|values|, i requires 0 <= i < |values| => TextV(values[i]))
  }

  /** The holes of an IN list after the first, and its closing bracket. */
  function MoreHoles(n: nat): seq<SqlTok>
  {
    if n == 0 then [RP] else [COMMA, HOLE] + MoreHoles(n - 1)
  }

  /** squirrel's Eq and NotEq on a list: an empty list is a constant. */
  function ListCondition(column: string, n: nat, negated: bool): seq<SqlTok>
  {
    if n == 0 then [LP, NUM(1), OP(Equal), NUM(if negated then 1 else 0), RP]
    else [COL(column)] + ((if negated then [NOT, IN] else [IN]) + ([LP, HOLE] + MoreHoles(n - 1)))
  }

  function Casted(column: string): seq<SqlTok> { [CAST, LP, COL(column), AS, VARCHAR_LIST, RP] }

  function Call(f: SqlTok, a: seq<SqlTok>, b: seq<SqlTok>): seq<SqlTok>
  {
    [f, LP] + (a + ([COMMA] + (b + [RP])))
  }

  function Infix(a: seq<SqlTok>, op: SqlTok, b: seq<SqlTok>): seq<SqlTok>
  {
    [LP] + (a + ([op] + (b + [RP])))
  }

  function ContainsCondition(column: string, negated: bool): seq<SqlTok>
  {
    if negated then Infix([COL(column), IS, NULL], OR, [NOT] + Call(LIST_CONTAINS, Casted(column), [HOLE]))
    else Call(LIST_CONTAINS, Casted(column), [HOLE])
  }

  /** The operator's switch at the end of the binary case. */
  function Combine(op: Token, l: Translation, r: Translation): Translation
    requires l.Sql? && r.Sql?
  {
    var args := l.args + r.args;
    match op
    case Like => Sql(Call(REGEXP_MATCHES, l.text, r.text), args)
    case NotLike => Sql([NOT] + Call(REGEXP_MATCHES, l.text, r.text), args)
    case And => Sql(Infix(l.text, AND, r.text), args)
    case Or => Sql(Infix(l.text, OR, r.text), args)
    case Like2 =>
      if r.args == [] then Panicked
      else Sql(Infix(l.text, LIKE, [HOLE]), l.args + [TextV("%" + Shown(r.args[0]) + "%")])
    case _ => Sql(Infix(l.text, OP(op), r.text), args)
  }

  function ToSql(e: Expression, mf: Mapper): Translation
  {
    match e
    case BinaryExpr(left, op, right) =>
      if op != And && op != Or && left.VarExpr? && !FieldAccepts(mf(Lower(left.name)), right) then Rejected
      else
        var l := ToSql(left, mf);
        if !l.Sql? then l
        else
          var r := ToSql(right, mf);
          if !r.Sql? then r else Combine(op, l, r)
    case VarExpr(name) =>
      var f := mf(Lower(name));
      if f.Unknown? then Rejected else Sql([COL(f.column)], [])
    case StringExpr(text) => Sql([HOLE], [TextV(text)])
    case BoolExpr(truth) => Sql([if truth then TRUE else FALSE], [])
    case RegexExpr(pattern) => Sql([HOLE], [TextV(pattern)])
    case QuantityExpr(amount, unit) => Sql([HOLE], [NumberV(InMegabytes(amount, unit))])
    case InExpr(subject, values, negated) =>
      if !subject.VarExpr? then Panicked
      else
        var f := mf(Lower(subject.name));
        if f.Unknown? || (f.ft != StringField && f.ft != AnyField) then Rejected
        else Sql(ListCondition(f.column, |values|, negated), Texts(values))
    case ContainsExpr(subject, element, negated) =>
      if !subject.VarExpr? then Panicked
      else
        var f := mf(Lower(subject.name));
        if f.Unknown? || (f.ft != ArrayField && f.ft != AnyField) then Rejected
        else Sql(ContainsCondition(f.column, negated), [TextV(element)])
  }

  predicate FieldAccepts(f: Field, value: Expression)
  {
    f.Known? && CheckValueType(f.ft, value)
  }
}

/** A reader for the boolean SQL the translation emits: OR, AND, NOT in rising order of binding, holes numbered
    from left to right, and evaluation in three-valued logic (SQL-92, sections 8.2, 8.4, 8.5 and 8.12). */
module SqlLogic {
  import opened FilterSyntax
  import opened FilterSql

  datatype Operand = Column(name: string) | Bound(i: nat) | Constant(v: Value) | CastList(column: string)

  datatype Cond =
    | CAnd(l: Cond, r: Cond) | COr(l: Cond, r: Cond) | CNot(c: Cond)
    | CCompare(op: Token, a: Operand, b: Operand)
    | CLike(a: Operand, b: Operand)
    | CRegexp(a: Operand, b: Operand)
    | CIn(a: Operand, items: seq<Operand>)
    | CIsNull(a: Operand)
    | CListContains(a: Operand, b: Operand)

  /** What was read, what is left, and how many holes were met so far. */
  datatype Read<+T> = Got(value: T, rest: seq<SqlTok>, holes: nat) | Bad {
    predicate IsFailure() { Bad? }
    function PropagateFailure<U>(): Read<U>
      requires Bad?
    {
      Bad
    }
    function Extract(): (T, seq<SqlTok>, nat)
      requires Got?
    {
      (value, rest, holes)
    }
  }

  function Skip(s: seq<SqlTok>, t: SqlTok, h: nat): (r: Read<()>)
    ensures r.Got? ==> |r.rest| < |s|
  {
    if s != [] && s[0] == t then Got((), s[1..], h) else Bad
  }

  function ReadOperand(s: seq<SqlTok>, h: nat): (r: Read<Operand>)
    ensures r.Got? ==> |r.rest| < |s|
  {
    if s == [] then Bad
    else
      match s[0]
      case HOLE => Got(Bound(h), s[1..], h + 1)
      case COL(name) => Got(Column(name), s[1..], h)
      case NUM(n) => Got(Constant(NumberV(n as real)), s[1..], h)
      case TRUE => Got(Constant(BoolV(true)), s[1..], h)
      case FALSE => Got(Constant(BoolV(false)), s[1..], h)
      case CAST =>
        if |s| >= 6 && s[1] == LP && s[2].COL? && s[3] == AS && s[4] == VARCHAR_LIST && s[5] == RP
        then Got(CastList(s[2].name), s[6..], h)
        else Bad
      case _ => Bad
  }

  function ReadItems(items: seq<Operand>, s: seq<SqlTok>, h: nat): (r: Read<seq<Operand>>)
    ensures r.Got? ==> |r.rest| < |s|
    decreases |s|
  {
    if s != [] && s[0] == COMMA then
      var (x, s1, h1) :- ReadOperand(s[1..], h);
      ReadItems(items + [x], s1, h1)
    else
      var (_, s1, h1) :- Skip(s, RP, h);
      Got(items, s1, h1)
  }

  function ReadList(s: seq<SqlTok>, h: nat): (r: Read<seq<Operand>>)
    ensures r.Got? ==> |r.rest| < |s|
  {
    var (_, s1, h1) :- Skip(s, LP, h);
    var (x, s2, h2) :- ReadOperand(s1, h1);
    ReadItems([x], s2, h2)
  }

  /** The two arguments of a function call. */
  function ReadPair(s: seq<SqlTok>, h: nat): (r: Read<(Operand, Operand)>)
    ensures r.Got? ==> |r.rest| < |s|
  {
    var (_, s1, h1) :- Skip(s, LP, h);
    var (a, s2, h2) :- ReadOperand(s1, h1);
    var (_, s3, h3) :- Skip(s2, COMMA, h2);
    var (b, s4, h4) :- ReadOperand(s3, h3);
    var (_, s5, h5) :- Skip(s4, RP, h4);
    Got((a, b), s5, h5)
  }

  /** What follows an operand that starts a predicate. */
  function ReadTail(a: Operand, s: seq<SqlTok>, h: nat): (r: Read<Cond>)
    ensures r.Got? ==> |r.rest| < |s|
  {
    if s == [] then Bad
    else
      match s[0]
      case OP(op) =>
        var (b, s1, h1) :- ReadOperand(s[1..], h);
        Got(CCompare(op, a, b), s1, h1)
      case LIKE =>
        var (b, s1, h1) :- ReadOperand(s[1..], h);
        Got(CLike(a, b), s1, h1)
      case IN =>
        var (items, s1, h1) :- ReadList(s[1..], h);
        Got(CIn(a, items), s1, h1)
      case NOT =>
        var (_, s1, h1) :- Skip(s[1..], IN, h);
        var (items, s2, h2) :- ReadList(s1, h1);
        Got(CNot(CIn(a, items)), s2, h2)
      case IS =>
        var (_, s1, h1) :- Skip(s[1..], NULL, h);
        Got(CIsNull(a), s1, h1)
      case _ => Bad
  }

  /** A predicate that starts with an operand. */
  function ReadPredicate(s: seq<SqlTok>, h: nat): (r: Read<Cond>)
    ensures r.Got? ==> |r.rest| < |s|
  {
    var (a, s1, h1) :- ReadOperand(s, h);
    ReadTail(a, s1, h1)
  }

  function ReadPrimary(s: seq<SqlTok>, h: nat): (r: Read<Cond>)
    ensures r.Got? ==> |r.rest| < |s|
    decreases |s|, 0
  {
    if s == [] then Bad
    else
      match s[0]
      case LP =>
        var (c, s1, h1) :- ReadOr(s[1..], h);
        var (_, s2, h2) :- Skip(s1, RP, h1);
        Got(c, s2, h2)
      case REGEXP_MATCHES =>
        var (p, s1, h1) :- ReadPair(s[1..], h);
        Got(CRegexp(p.0, p.1), s1, h1)
      case LIST_CONTAINS =>
        var (p, s1, h1) :- ReadPair(s[1..], h);
        Got(CListContains(p.0, p.1), s1, h1)
      case _ => ReadPredicate(s, h)
  }

  function ReadNot(s: seq<SqlTok>, h: nat): (r: Read<Cond>)
    ensures r.Got? ==> |r.rest| < |s|
    decreases |s|, 1
  {
    if s != [] && s[0] == NOT then
      var (c, s1, h1) :- ReadNot(s[1..], h);
      Got(CNot(c), s1, h1)
    else ReadPrimary(s, h)
  }

  function AndRest(l: Cond, s: seq<SqlTok>, h: nat): (r: Read<Cond>)
    ensures r.Got? ==> |r.rest| <= |s|
    decreases |s|, 2
  {
    if s != [] && s[0] == AND then
      var (c, s1, h1) :- ReadNot(s[1..], h);
      AndRest(CAnd(l, c), s1, h1)
    else Got(l, s, h)
  }

  function ReadAnd(s: seq<SqlTok>, h: nat): (r: Read<Cond>)
    ensures r.Got? ==> |r.rest| < |s|
    decreases |s|, 2
  {
    var (c, s1, h1) :- ReadNot(s, h);
    AndRest(c, s1, h1)
  }

  function OrRest(l: Cond, s: seq<SqlTok>, h: nat): (r: Read<Cond>)
    ensures r.Got? ==> |r.rest| <= |s|
    decreases |s|, 3
  {
    if s != [] && s[0] == OR then
      var (c, s1, h1) :- ReadAnd(s[1..], h);
      OrRest(COr(l, c), s1, h1)
    else Got(l, s, h)
  }

  function ReadOr(s: seq<SqlTok>, h: nat): (r: Read<Cond>)
    ensures r.Got? ==> |r.rest| < |s|
    decreases |s|, 3
  {
    var (c, s1, h1) :- ReadAnd(s, h);
    OrRest(c, s1, h1)
  }

  /** A whole search condition. */
  function ReadSql(s: seq<SqlTok>): Read<Cond>
  {
    var (c, rest, h) :- ReadOr(s, 0);
    if rest == [] then Got(c, [], h) else Bad
  }

  // ----- three-valued evaluation -----

  datatype Truth = Yes | No | Maybe

  function And3(a: Truth, b: Truth): Truth
  {
    if a == No || b == No then No else if a == Yes && b == Yes then Yes else Maybe
  }

  function Or3(a: Truth, b: Truth): Truth
  {
    if a == Yes || b == Yes then Yes else if a == No && b == No then No else Maybe
  }

  function Not3(a: Truth): Truth
  {
    match a case Yes => No case No => Yes case Maybe => Maybe
  }

  /** Unknown stands between false and true. */
  function Rank(t: Truth): nat { match t case No => 0 case Maybe => 1 case Yes => 2 }

  /** Conjunction is the lesser, disjunction the greater of two truth values, and negation turns the order around. */
  lemma TruthTables(a: Truth, b: Truth)
    ensures Rank(And3(a, b)) == if Rank(a) <= Rank(b) then Rank(a) else Rank(b)
    ensures Rank(Or3(a, b)) == if Rank(a) <= Rank(b) then Rank(b) else Rank(a)
    ensures Rank(Not3(a)) == 2 - Rank(a)
  {
  }

  function Truly(b: bool): Truth { if b then Yes else No }

  type Row = string -> Value

  /** How the database compares, matches and casts values that are not NULL. */
  datatype Semantics = Semantics(
    compare: (Token, Value, Value) -> bool,
    like: (Value, Value) -> bool,
    regexp: (Value, Value) -> bool,
    cast: Value -> Value,
    member: (Value, Value) -> bool)

  /** Numbers are equal when they are the same number. */
  ghost predicate Lawful(sem: Semantics)
  {
    forall x: real, y: real :: sem.compare(Equal, NumberV(x), NumberV(y)) <==> x == y
  }

  /** A predicate of two values is unknown as soon as one of them is NULL. */
  function Strict(a: Value, b: Value, holds: bool): Truth
  {
    if a.NullV? || b.NullV? then Maybe else Truly(holds)
  }

  /** Unknown exactly when a value is missing. */
  lemma UnknownIffNull(a: Value, b: Value, holds: bool)
    ensures Strict(a, b, holds) == Maybe <==> a == NullV || b == NullV
    ensures a != NullV && b != NullV ==> (Strict(a, b, holds) == Yes <==> holds)
  {
  }

  function ValueOf(o: Operand, args: seq<Value>, row: Row, sem: Semantics): Value
  {
    match o
    case Column(name) => row(name)
    case Bound(i) => if i < |args| then args[i] else NullV
    case Constant(v) => v
    case CastList(column) => if row(column).NullV? then NullV else sem.cast(row(column))
  }

  /** x IN (y, ...) is x = y OR ... */
  function InList(a: Value, items: seq<Operand>, args: seq<Value>, row: Row, sem: Semantics): Truth
  {
    if items == [] then No
    else
      var b := ValueOf(items[0], args, row, sem);
      Or3(Strict(a, b, sem.compare(Equal, a, b)), InList(a, items[1..], args, row, sem))
  }

  function Eval(c: Cond, args: seq<Value>, row: Row, sem: Semantics): Truth
  {
    match c
    case CAnd(l, r) => And3(Eval(l, args, row, sem), Eval(r, args, row, sem))
    case COr(l, r) => Or3(Eval(l, args, row, sem), Eval(r, args, row, sem))
    case CNot(d) => Not3(Eval(d, args, row, sem))
    case CCompare(op, a, b) =>
      var x, y := ValueOf(a, args, row, sem), ValueOf(b, args, row, sem);
      Strict(x, y, sem.compare(op, x, y))
    case CLike(a, b) =>
      var x, y := ValueOf(a, args, row, sem), ValueOf(b, args, row, sem);
      Strict(x, y, sem.like(x, y))
    case CRegexp(a, b) =>
      var x, y := ValueOf(a, args, row, sem), ValueOf(b, args, row, sem);
      Strict(x, y, sem.regexp(x, y))
    case CIn(a, items) => InList(ValueOf(a, args, row, sem), items, args, row, sem)
    case CIsNull(a) => Truly(ValueOf(a, args, row, sem).NullV?)
    case CListContains(a, b) =>
      var x, y := ValueOf(a, args, row, sem), ValueOf(b, args, row, sem);
      Strict(x, y, sem.member(x, y))
  }
}
