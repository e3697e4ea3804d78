/** The stateful parser of pkg/filter/parser.go over the stateful scanner, and what a text parses to.
    The panics that carry a ParseError are results here. */
module FilterParser {
  import opened FilterSyntax
  import opened FilterLexer
  import opened FilterGrammar

  /** A value, or the position of a ParseError. */
  datatype Result<+T> = Success(value: T) | Failure(position: nat) {
    predicate IsFailure() { Failure? }
    function PropagateFailure<U>(): Result<U>
      requires Failure?
    {
      Failure(position)
    }
    function Extract(): T
      requires Success?
    {
      value
    }
  }

  lemma LexemesStream(src: string, k: nat)
    requires k <= |src|
    ensures Stream(Syms(Lexemes(src, k)))
  {
  }

  function PositionOf(ls: seq<Lexeme>, left: nat): nat
    requires 1 <= left <= |ls|
  {
    ls[|ls| - left].pos
  }

  /** parse(src); re says which patterns compile. */
  function ParseText(src: string, re: string -> bool): (r: Result<Expression>)
    ensures r.Failure? ==> r.position <= |src|
  {
    var ls := Lexemes(src, 0);
    LexemesStream(src, 0);
    match PFilter(Syms(ls), re)
    case Ok(e, _) => Success(e)
    case Err(left) => Failure(PositionOf(ls, left))
  }

  ghost predicate Suffix(after: seq<Lexeme>, before: seq<Lexeme>)
  {
    |after| <= |before| && after == before[|before| - |after|..]
  }

  lemma SuffixReflexive(a: seq<Lexeme>)
    ensures Suffix(a, a)
  {
  }

  lemma SuffixTransitive(c: seq<Lexeme>, b: seq<Lexeme>, a: seq<Lexeme>)
    requires Suffix(c, b) && Suffix(b, a)
    ensures Suffix(c, a)
    ensures forall left :: 1 <= left <= |b| ==> PositionOf(b, left) == PositionOf(a, left)
  {
  }

  /** The result and the lexemes still to be read are those of the functional reading p. */
  ghost predicate Outcome<T(!new)>(r: Result<T>, p: Parsed<T>, before: seq<Lexeme>, after: seq<Lexeme>)
  {
    match p
    case Ok(e, rest) => r == Success(e) && Suffix(after, before) && Syms(after) == rest
    case Err(left) => 1 <= left <= |before| && r == Failure(PositionOf(before, left))
  }

  /** An outcome reached after a first part of the input was read well. */
  lemma OutcomeLater<T(!new)>(r: Result<T>, p: Parsed<T>, before: seq<Lexeme>, mid: seq<Lexeme>, after: seq<Lexeme>)
    requires Suffix(mid, before) && Outcome(r, p, mid, after)
    ensures Outcome(r, p, before, after)
  {
    if p.Ok? {
      SuffixTransitive(after, mid, before);
    }
  }

  lemma SymsTail(before: seq<Lexeme>)
    requires before != []
    ensures Syms(before)[1..] == Syms(before[1..])
  {
  }

  /** Stepping over one lexeme is what the grammar calls advancing. */
  lemma AdvanceOutcome(before: seq<Lexeme>, after: seq<Lexeme>, r: Result<()>)
    requires |before| >= 2 && after == before[1..] && Live(Syms(before))
    requires r == if after[0].sym.tok == Illegal then Failure(after[0].pos) else Success(())
    ensures Outcome(r, FilterGrammar.Advance(Syms(before)), before, after)
  {
    hide Stream;
    SymsTail(before);
  }

  lemma MoreToCome(s: seq<Sym>)
    requires Live(s) && !EndsStream(s[0].tok)
    ensures |s| >= 2
  {
  }

  class Parser {
    const lexer: Lexer
    const re: string -> bool
    var pos: nat
    var tok: Token
    var val: string
    var countExpression: nat

    /** The current token and everything the scanner has still to deliver. */
    ghost function Rest(): (ls: seq<Lexeme>)
      reads this, lexer
      ensures |ls| >= 1 && ls[0] == Lexeme(pos, Sym(tok, val))
    {
      [Lexeme(pos, Sym(tok, val))] +
      if EndsStream(tok) || lexer.pos > |lexer.src| then [] else Lexemes(lexer.src, lexer.pos)
    }

    ghost predicate Valid()
      reads this, lexer
    {
      lexer.Valid() && Live(Syms(Rest()))
    }

    constructor (src: string, re: string -> bool)
      ensures fresh(lexer) && lexer.Valid() && lexer.src == src && lexer.pos == 0
      ensures this.re == re && countExpression == 0
    {
      this.lexer := new Lexer(src);
      this.re := re;
      pos, tok, val, countExpression := 0, Illegal, "", 0;
    }

    method Next() returns (r: Result<()>)
      requires lexer.Valid()
      modifies this, lexer
      ensures Rest() == Lexemes(lexer.src, old(lexer.pos)) && countExpression == old(countExpression)
      ensures r == if tok == Illegal then Failure(pos) else Success(())
      ensures r.Success? ==> Valid()
    {
      hide ScanAt, Stream;
      var l := lexer.Scan();
      pos, tok, val := l.pos, l.sym.tok, l.sym.val;
      LexemesStream(lexer.src, old(lexer.pos));
      r := if tok == Illegal then Failure(pos) else Success(());
    }

    /** Next with a current token that is not the last. */
    method Advance() returns (r: Result<()>)
      requires Valid() && !EndsStream(tok)
      modifies this, lexer
      ensures countExpression == old(countExpression)
      ensures Outcome(r, FilterGrammar.Advance(old(Syms(Rest()))), old(Rest()), Rest())
      ensures r.Success? ==> Valid()
    {
      hide Lexemes, Outcome, Stream, Live, FilterGrammar.Advance, EndsOnce;
      ghost var before := Rest();
      MoreToCome(Syms(before));
      r := Next();
      assert Rest() == before[1..];
      AdvanceOutcome(before, Rest(), r);
    }

    method Take(t: Token) returns (r: Result<string>)
      requires Valid() && !EndsStream(t)
      modifies this, lexer
      ensures countExpression == old(countExpression)
      ensures Outcome(r, FilterGrammar.Take(old(Syms(Rest())), t), old(Rest()), Rest())
      ensures r.Success? ==> Valid()
    {
      hide Lexemes, FilterGrammar.Advance;
      if tok != t {
        return Failure(pos);
      }
      var v := val;
      var u := Advance();
      r := if u.Failure? then Failure(u.position) else Success(v);
    }

    method Value() returns (r: Result<Expression>)
      requires Valid()
      modifies this, lexer
      ensures countExpression == old(countExpression)
      ensures Outcome(r, PValue(old(Syms(Rest())), re), old(Rest()), Rest())
      ensures r.Success? ==> Valid()
    {
      hide Lexemes, FilterGrammar.Advance, QuantityOf, Lower, Stream;
      var expr;
      match tok {
        case StringLit => expr := StringExpr(val);
        case Quantity => expr := QuantityOf(val);
        case Boolean => expr := BoolExpr(Lower(val) == "true");
        case RegexLit =>
          if !re(val) {
            return Failure(pos);
          }
          expr := RegexExpr(val);
        case _ => return Failure(pos);
      }
      var u := Advance();
      r := if u.Failure? then Failure(u.position) else Success(expr);
    }

    method List() returns (r: Result<seq<string>>)
      requires Valid()
      modifies this, lexer
      ensures countExpression == old(countExpression)
      ensures Outcome(r, PList(old(Syms(Rest()))), old(Rest()), Rest())
      ensures r.Success? ==> Valid()
    {
      hide Rest, Stream, Suffix, FilterGrammar.Advance, FilterGrammar.Take, PListRest;
      ghost var before := Rest();
      var open := Take(LSquare);
      if open.Failure? {
        return Failure(open.position);
      }
      ghost var mid := Rest();
      if tok == RSquare {
        var u := Advance();
        OutcomeLater(u, FilterGrammar.Advance(Syms(mid)), before, mid, Rest());
        return if u.Failure? then Failure(u.position) else Success([]);
      }
      var first := Take(StringLit);
      OutcomeLater(first, FilterGrammar.Take(Syms(mid), StringLit), before, mid, Rest());
      if first.Failure? {
        return Failure(first.position);
      }
      ghost var last := Rest();
      r := ListRest(first.value);
      OutcomeLater(r, PListRest([first.value], Syms(last)), before, last, Rest());
    }

    /** The loop of list over the values after the first. */
    method ListRest(first: string) returns (r: Result<seq<string>>)
      requires Valid()
      modifies this, lexer
      ensures countExpression == old(countExpression)
      ensures Outcome(r, PListRest([first], old(Syms(Rest()))), old(Rest()), Rest())
      ensures r.Success? ==> Valid()
    {
      hide Rest, Stream, Suffix, FilterGrammar.Advance, FilterGrammar.Take;
      ghost var before := Rest();
      ghost var whole := PListRest([first], Syms(before));
      var values := [first];
      SuffixReflexive(before);
      while tok == Comma
        invariant Valid() && countExpression == old(countExpression)
        invariant Suffix(Rest(), before) && PListRest(values, Syms(Rest())) == whole
        decreases |Rest()|
      {
        ghost var here := Rest();
        var u := Advance();
        OutcomeLater(u, FilterGrammar.Advance(Syms(here)), before, here, Rest());
        if u.Failure? {
          return Failure(u.position);
        }
        ghost var mid := Rest();
        var v := Take(StringLit);
        OutcomeLater(v, FilterGrammar.Take(Syms(mid), StringLit), before, mid, Rest());
        if v.Failure? {
          return Failure(v.position);
        }
        values := values + [v.value];
      }
      ghost var end := Rest();
      var close := Take(RSquare);
      OutcomeLater(close, FilterGrammar.Take(Syms(end), RSquare), before, end, Rest());
      r := if close.Failure? then Failure(close.position) else Success(values);
    }

    method Membership(name: string, negated: bool) returns (r: Result<Expression>)
      requires Valid() && tok == In
      modifies this, lexer
      ensures countExpression == old(countExpression)
      ensures Outcome(r, PIn(name, old(Syms(Rest())), negated), old(Rest()), Rest())
      ensures r.Success? ==> Valid()
    {
      hide Rest, Stream, Suffix, FilterGrammar.Advance, PList;
      ghost var before := Rest();
      var u := Advance();
      if u.Failure? {
        return Failure(u.position);
      }
      ghost var mid := Rest();
      var values := List();
      OutcomeLater(values, PList(Syms(mid)), before, mid, Rest());
      r := if values.Failure? then Failure(values.position)
           else Success(InExpr(VarExpr(name), values.value, negated));
    }

    method Containment(name: string, negated: bool) returns (r: Result<Expression>)
      requires Valid()
      modifies this, lexer
      ensures countExpression == old(countExpression)
      ensures Outcome(r, PContains(name, old(Syms(Rest())), negated), old(Rest()), Rest())
      ensures r.Success? ==> Valid()
    {
      hide Rest, Stream, Suffix, FilterGrammar.Take;
      ghost var before := Rest();
      var u := Take(Contains);
      if u.Failure? {
        return Failure(u.position);
      }
      ghost var mid := Rest();
      var v := Take(StringLit);
      OutcomeLater(v, FilterGrammar.Take(Syms(mid), StringLit), before, mid, Rest());
      r := if v.Failure? then Failure(v.position) else Success(ContainsExpr(VarExpr(name), v.value, negated));
    }

    method Comparison(name: string) returns (r: Result<Expression>)
      requires Valid()
      modifies this, lexer
      ensures countExpression == old(countExpression)
      ensures Outcome(r, PCompare(name, old(Syms(Rest())), re), old(Rest()), Rest())
      ensures r.Success? ==> Valid()
    {
      hide Rest, Stream, FilterGrammar.Advance, PValue;
      ghost var before := Rest();
      if !IsOperator(tok) {
        return Failure(pos);
      }
      var op := tok;
      var u := Advance();
      if u.Failure? {
        return Failure(u.position);
      }
      ghost var mid := Rest();
      if !OperandAllowed(op, tok) {
        return Failure(pos);
      }
      var right := Value();
      OutcomeLater(right, PValue(Syms(mid), re), before, mid, Rest());
      r := if right.Failure? then Failure(right.position) else Success(BinaryExpr(VarExpr(name), op, right.value));
    }

    /** equality after its identifier. */
    method Predicate(name: string) returns (r: Result<Expression>)
      requires Valid()
      modifies this, lexer
      ensures countExpression == old(countExpression)
      ensures Outcome(r, PPredicate(name, old(Syms(Rest())), re), old(Rest()), Rest())
      ensures r.Success? ==> Valid()
    {
      hide Rest, Stream, Suffix, FilterGrammar.Advance, PIn, PContains, PCompare;
      ghost var before := Rest();
      if tok == In {
        r := Membership(name, false);
      } else if tok == Not {
        var u := Advance();
        if u.Failure? {
          return Failure(u.position);
        }
        ghost var mid := Rest();
        if tok == In {
          r := Membership(name, true);
          OutcomeLater(r, PIn(name, Syms(mid), true), before, mid, Rest());
        } else {
          r := Containment(name, true);
          OutcomeLater(r, PContains(name, Syms(mid), true), before, mid, Rest());
        }
      } else if tok == Contains {
        r := Containment(name, false);
      } else {
        r := Comparison(name);
      }
    }

    method Equality() returns (r: Result<Expression>)
      requires Valid()
      modifies this, lexer
      ensures countExpression == old(countExpression)
      ensures Outcome(r, PEquality(old(Syms(Rest())), re), old(Rest()), Rest())
      ensures r.Success? ==> Valid()
    {
      hide Rest, Stream, Suffix, FilterGrammar.Take, PPredicate;
      ghost var before := Rest();
      var name := Take(Identifier);
      if name.Failure? {
        return Failure(name.position);
      }
      ghost var mid := Rest();
      r := Predicate(name.value);
      OutcomeLater(r, PPredicate(name.value, Syms(mid), re), before, mid, Rest());
    }

    method Factor() returns (r: Result<Expression>)
      requires Valid()
      modifies this, lexer
      ensures Outcome(r, PFactor(old(Syms(Rest())), old(countExpression), re), old(Rest()), Rest())
      ensures countExpression == old(countExpression) && (r.Success? ==> Valid())
      decreases |Rest()|, 0
    {
      hide Rest, Stream, Suffix, FilterGrammar.Advance, FilterGrammar.Take, PExpression, PEquality;
      ghost var before := Rest();
      if tok != LBracket {
        r := Equality();
        return;
      }
      var u := Advance();
      if u.Failure? {
        return Failure(u.position);
      }
      ghost var mid := Rest();
      r := Expression();
      OutcomeLater(r, PExpression(Syms(mid), countExpression, re), before, mid, Rest());
      if r.Failure? {
        return;
      }
      ghost var end := Rest();
      var close := Take(RBracket);
      OutcomeLater(close, FilterGrammar.Take(Syms(end), RBracket), before, end, Rest());
      if close.Failure? {
        return Failure(close.position);
      }
    }

    method Term() returns (r: Result<Expression>)
      requires Valid()
      modifies this, lexer
      ensures Outcome(r, PTerm(old(Syms(Rest())), old(countExpression), re), old(Rest()), Rest())
      ensures countExpression == old(countExpression) && (r.Success? ==> Valid())
      decreases |Rest()|, 1
    {
      hide Rest, Stream, Suffix, FilterGrammar.Advance, PFactor;
      ghost var before := Rest();
      ghost var whole := PTerm(Syms(before), countExpression, re);
      r := Factor();
      if r.Failure? {
        return;
      }
      var expr := r.value;
      while tok == And
        invariant Valid() && countExpression == old(countExpression) && |Rest()| < |before|
        invariant Suffix(Rest(), before) && AndLoop(expr, Syms(Rest()), countExpression, re) == whole
        decreases |Rest()|
      {
        ghost var here := Rest();
        var u := Advance();
        OutcomeLater(u, FilterGrammar.Advance(Syms(here)), before, here, Rest());
        if u.Failure? {
          return Failure(u.position);
        }
        ghost var mid := Rest();
        var right := Factor();
        OutcomeLater(right, PFactor(Syms(mid), old(countExpression), re), before, mid, Rest());
        if right.Failure? {
          return right;
        }
        expr := BinaryExpr(expr, And, right.value);
      }
      r := Success(expr);
    }

    method Expression() returns (r: Result<Expression>)
      requires Valid()
      modifies this, lexer
      ensures Outcome(r, PExpression(old(Syms(Rest())), old(countExpression), re), old(Rest()), Rest())
      ensures countExpression == old(countExpression) && (r.Success? ==> Valid())
      decreases |Rest()|, 3
    {
      hide Lexemes, Stream, Suffix, PTerms;
      if countExpression + 1 > MAX_LEVELS {
        return Failure(pos);
      }
      countExpression := countExpression + 1;
      r := Alternatives();
      countExpression := countExpression - 1;
    }

    /** The terms of an expression whose level has been counted. */
    method Alternatives() returns (r: Result<Expression>)
      requires Valid()
      modifies this, lexer
      ensures Outcome(r, PTerms(old(Syms(Rest())), old(countExpression), re), old(Rest()), Rest())
      ensures countExpression == old(countExpression) && (r.Success? ==> Valid())
      decreases |Rest()|, 2
    {
      hide Rest, Stream, Suffix, FilterGrammar.Advance, PTerm;
      ghost var before := Rest();
      ghost var whole := PTerms(Syms(before), countExpression, re);
      r := Term();
      if r.Failure? {
        return;
      }
      var expr := r.value;
      while tok == Or
        invariant Valid() && countExpression == old(countExpression) && |Rest()| < |before|
        invariant Suffix(Rest(), before) && OrLoop(expr, Syms(Rest()), countExpression, re) == whole
        decreases |Rest()|
      {
        ghost var here := Rest();
        var u := Advance();
        OutcomeLater(u, FilterGrammar.Advance(Syms(here)), before, here, Rest());
        if u.Failure? {
          return Failure(u.position);
        }
        ghost var mid := Rest();
        var right := Term();
        OutcomeLater(right, PTerm(Syms(mid), old(countExpression), re), before, mid, Rest());
        if right.Failure? {
          return right;
        }
        expr := BinaryExpr(expr, Or, right.value);
      }
      r := Success(expr);
    }
  }

  /** parse: a fresh scanner and parser over the text. */
  method Parse(src: string, re: string -> bool) returns (r: Result<Expression>)
    ensures r == ParseText(src, re)
  {
    hide Lexemes, Stream, PExpression;
    var p := new Parser(src, re);
    LexemesStream(src, 0);
    var u := p.Next();
    if u.Failure? {
      return Failure(u.position);
    }
    r := p.Expression();
    if r.Success? && p.tok != Eol {
      r := Failure(p.pos);
    }
  }
}
