/** The filter compiler from text to SQL (filter.Parse): scanner, parser and translator end to end. */
module FilterCompiler {
  import opened FilterSyntax
  import opened FilterLexer
  import opened FilterLexerLaws
  import opened FilterGrammarLaws
  import opened FilterParser
  import opened FilterPrinting
  import opened FilterSql
  import opened FilterMeaning
  import opened SqlLogic

  datatype Compiled =
    | Query(text: seq<SqlTok>, args: seq<Value>)
    | SyntaxError(position: nat)
    | FieldError
    | Crash

  function CompileText(src: string, mf: Mapper, re: string -> bool): Compiled
  {
    match ParseText(src, re)
    case Failure(position) => SyntaxError(position)
    case Success(e) =>
      match ToSql(e, mf)
      case Sql(text, args) => Query(text, args)
      case Rejected => FieldError
      case Panicked => Crash
  }

  method Compile(src: string, mf: Mapper, re: string -> bool) returns (r: Compiled)
    ensures r == CompileText(src, mf, re) && r != Crash
    ensures r.SyntaxError? ==> r.position <= |src|
  {
    hide ParseText, ToSql;
    CompileNeverCrashes(src, mf, re);
    var e := Parse(src, re);
    if e.Failure? {
      return SyntaxError(e.position);
    }
    var t := ToSql(e.value, mf);
    r := if t.Sql? then Query(t.text, t.args) else if t.Rejected? then FieldError else Crash;
  }

  /** The empty text is no filter. */
  lemma EmptyTextFails(re: string -> bool)
    ensures ParseText("", re).Failure?
  {
    NothingLeft("");
    assert Syms(Lexemes("", 0)) == [Sym(Eol, "")];
  }

  /** A parsed tree is a filter that derives from the tokens of the text. */
  lemma ParsedIsFilter(src: string, re: string -> bool)
    requires ParseText(src, re).Success?
    ensures IsFilter(ParseText(src, re).value)
  {
    hide ParseText, Lexemes, Derives, IsFilter;
    var e := ParseText(src, re).value;
    var ls := Lexemes(src, 0);
    TextParsesIffDerives(src, e, re);
    DerivedIsFilter(Syms(ls[..|ls| - 1]), e, re);
  }

  lemma DerivedIsFilter(ss: seq<Sym>, e: Expression, re: string -> bool)
    requires Derives(ss, e, re)
    ensures IsFilter(e)
  {
    hide YieldOr, TreeOr, ValidOr, LevelsOr, IsFilter;
    var t :| DerivesBy(t, ss, e, re);
    ParsedOrIsFilter(t, re);
  }

  /** Whatever the text and the mapper, compiling ends in a query or a reported error, never in a failed type
      assertion or a missing argument. */
  lemma CompileNeverCrashes(src: string, mf: Mapper, re: string -> bool)
    ensures CompileText(src, mf, re) != Crash
    ensures CompileText(src, mf, re).SyntaxError? ==> CompileText(src, mf, re).position <= |src|
  {
    hide ParseText, ToSql, IsFilter;
    if ParseText(src, re).Success? {
      ParsedIsFilter(src, re);
      TranslatesIffWellTyped(ParseText(src, re).value, mf);
    }
  }

  /** A text compiles to a query exactly when its tokens derive a well-typed filter; the filter is unique. */
  lemma CompilesIffWellTyped(src: string, mf: Mapper, re: string -> bool)
    ensures CompileText(src, mf, re).Query? <==>
            (ParseText(src, re).Success? && IsFilter(ParseText(src, re).value) && WellTyped(ParseText(src, re).value, mf))
  {
    hide ParseText, ToSql, IsFilter, WellTyped;
    if ParseText(src, re).Success? {
      ParsedIsFilter(src, re);
      TranslatesIffWellTyped(ParseText(src, re).value, mf);
    }
  }

  /** The compiled query selects what the filter derived from the text means: read as SQL, with its arguments bound
      from left to right, it has the filter's truth value on every row. */
  lemma CompiledQueryMeansFilter(src: string, mf: Mapper, re: string -> bool, row: Row, sem: Semantics)
    requires CompileText(src, mf, re).Query? && Lawful(sem)
    ensures var ls := Lexemes(src, 0);
            var q := CompileText(src, mf, re);
            var c := ReadSql(q.text);
            exists e :: && IsFilter(e) && Derives(Syms(ls[..|ls| - 1]), e, re)
                        && c.Got? && c.holes == |q.args|
                        && Eval(c.value, q.args, row, sem) == Meaning(e, mf, row, sem)
  {
    hide ParseText, ToSql, IsFilter, Lexemes, Derives, ReadSql, Eval, Meaning;
    var e := ParseText(src, re).value;
    ParsedIsFilter(src, re);
    TextParsesIffDerives(src, e, re);
    TranslationKeepsMeaning(e, mf, row, sem);
  }
}
