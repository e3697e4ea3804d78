/** Whatever the parser accepts, it derived: the other half of the parser being the grammar's recogniser,
    and the theorem that joins the halves. */
module FilterGrammarSound {
  import opened FilterSyntax
  import opened FilterLexer
  import opened FilterGrammar
  import opened FilterGrammarLaws

  predicate CarriesText(t: Token) { t in {Identifier, Boolean, Quantity, StringLit, RegexLit} }

  /** Only names and literals carry text, as the scanner has it. */
  ghost predicate Canonical(s: seq<Sym>)
  {
    forall i :: 0 <= i < |s| ==> CarriesText(s[i].tok) || s[i].val == ""
  }

  lemma CanonicalTail(s: seq<Sym>)
    requires Canonical(s) && s != []
    ensures Canonical(s[1..])
    ensures !CarriesText(s[0].tok) ==> s[0] == Plain(s[0].tok)
  {
  }

  lemma AdvanceSound(s: seq<Sym>)
    requires Stream(s) && !EndsStream(s[0].tok) && Canonical(s) && Advance(s).Ok?
    ensures s == [s[0]] + Advance(s).rest && Canonical(Advance(s).rest)
    ensures !CarriesText(s[0].tok) ==> s[0] == Plain(s[0].tok)
  {
    CanonicalTail(s);
    assert s == [s[0]] + s[1..];
  }

  lemma TakeSound(s: seq<Sym>, tok: Token)
    requires Live(s) && !EndsStream(tok) && Canonical(s) && Take(s, tok).Ok?
    ensures s == [Sym(tok, Take(s, tok).value)] + Take(s, tok).rest && Canonical(Take(s, tok).rest)
    ensures !CarriesText(tok) ==> Take(s, tok).value == ""
  {
    AdvanceSound(s);
  }

  /** One round of the loop over a list. */
  lemma ListRestStep(acc: seq<string>, s: seq<Sym>) returns (v: string, s2: seq<Sym>)
    requires Live(s) && Canonical(s) && PListRest(acc, s).Ok? && s[0].tok == Comma
    ensures s == [Plain(Comma)] + ([StringSym(v)] + s2) && |s2| < |s| && Live(s2) && Canonical(s2)
    ensures PListRest(acc, s) == PListRest(acc + [v], s2)
  {
    hide Stream, Canonical, Take, Advance;
    AdvanceSound(s);
    var s1 := Advance(s).rest;
    TakeSound(s1, StringLit);
    v, s2 := Take(s1, StringLit).value, Take(s1, StringLit).rest;
  }

  lemma ListRestLast(acc: seq<string>, s: seq<Sym>)
    requires Live(s) && Canonical(s) && PListRest(acc, s).Ok? && s[0].tok != Comma
    ensures PListRest(acc, s).value == acc
    ensures s == [Plain(RSquare)] + PListRest(acc, s).rest && Canonical(PListRest(acc, s).rest)
  {
    hide Stream, Canonical, Take;
    TakeSound(s, RSquare);
  }

  lemma {:induction false} ListRestSound(acc: seq<string>, s: seq<Sym>) returns (more: seq<string>)
    requires Live(s) && Canonical(s) && PListRest(acc, s).Ok?
    ensures PListRest(acc, s).value == acc + more
    ensures s == ListTail(more) + PListRest(acc, s).rest && Canonical(PListRest(acc, s).rest)
    decreases |s|
  {
    hide Live, Canonical, PListRest, ListTail;
    if s[0].tok == Comma {
      var v, s2 := ListRestStep(acc, s);
      var more' := ListRestSound(acc + [v], s2);
      more := [v] + more';
      AppendAgain(acc, v, more');
      ListTailCons(v, more', PListRest(acc, s).rest);
    } else {
      ListRestLast(acc, s);
      more := [];
      assert acc + [] == acc && ListTail([]) == [Plain(RSquare)] by { NothingMore(); }
    }
  }

  lemma AppendAgain(a: seq<string>, v: string, b: seq<string>)
    ensures a + [v] + b == a + ([v] + b)
  {
  }

  lemma NothingMore()
    ensures ListTail([]) == [Plain(RSquare)]
  {
  }

  lemma ListTailCons(v: string, more: seq<string>, rest: seq<Sym>)
    ensures [Plain(Comma)] + ([StringSym(v)] + (ListTail(more) + rest)) == ListTail([v] + more) + rest
  {
    assert ([v] + more)[1..] == more;
  }

  lemma ListSound(s: seq<Sym>)
    requires Live(s) && Canonical(s) && PList(s).Ok?
    ensures s == ListSyms(PList(s).value) + PList(s).rest && Canonical(PList(s).rest)
  {
    hide Stream, Canonical, Take, Advance, PListRest, ListTail, ListSyms;
    TakeSound(s, LSquare);
    var s1 := Take(s, LSquare).rest;
    if s1[0].tok == RSquare {
      AdvanceSound(s1);
      NothingListed(PList(s).rest);
    } else {
      TakeSound(s1, StringLit);
      var v, s2 := Take(s1, StringLit).value, Take(s1, StringLit).rest;
      var more := ListRestSound([v], s2);
      ListSymsCons(v, more, PList(s).rest);
    }
  }

  lemma NothingListed(rest: seq<Sym>)
    ensures ListSyms([]) + rest == [Plain(LSquare)] + ([Plain(RSquare)] + rest)
  {
  }

  lemma ListSymsCons(v: string, more: seq<string>, rest: seq<Sym>)
    ensures [Plain(LSquare)] + ([StringSym(v)] + (ListTail(more) + rest)) == ListSyms([v] + more) + rest
  {
    assert ([v] + more)[1..] == more;
  }

  lemma InSound(name: string, s: seq<Sym>, negated: bool)
    requires Live(s) && Canonical(s) && s[0].tok == In && PIn(name, s, negated).Ok?
    ensures var r := PIn(name, s, negated);
            && r.value.InExpr? && r.value == InExpr(VarExpr(name), r.value.values, negated)
            && s == ([Plain(In)] + ListSyms(r.value.values)) + r.rest && Canonical(r.rest)
  {
    hide Stream, Canonical, Advance, PList, ListSyms;
    AdvanceSound(s);
    ListSound(Advance(s).rest);
  }

  lemma ContainsSound(name: string, s: seq<Sym>, negated: bool)
    requires Live(s) && Canonical(s) && PContains(name, s, negated).Ok?
    ensures var r := PContains(name, s, negated);
            && r.value.ContainsExpr? && r.value == ContainsExpr(VarExpr(name), r.value.element, negated)
            && s == [Plain(Contains), StringSym(r.value.element)] + r.rest && Canonical(r.rest)
  {
    hide Stream, Canonical, Take;
    TakeSound(s, Contains);
    TakeSound(Take(s, Contains).rest, StringLit);
  }

  lemma CompareSound(name: string, s: seq<Sym>, re: string -> bool) returns (c: Comparison)
    requires Live(s) && Canonical(s) && PCompare(name, s, re).Ok?
    ensures ValidComparison(c, re) && c.name == name && ComparisonTree(c, re) == PCompare(name, s, re).value
    ensures s == PredicateSyms(c) + PCompare(name, s, re).rest && Canonical(PCompare(name, s, re).rest)
  {
    hide Stream, Canonical, Advance, LiteralOf;
    AdvanceSound(s);
    var s1 := Advance(s).rest;
    assert !EndsStream(s1[0].tok) by {
      LiteralIsNoEnd(s1[0], re);
    }
    AdvanceSound(s1);
    c := Compare(name, s[0].tok, s1[0]);
  }

  lemma NegatedSyms(ss: seq<Sym>, rest: seq<Sym>)
    ensures [Plain(Not)] + (ss + rest) == (Negation(true) + ss) + rest
    ensures Negation(false) + ss == ss
  {
  }

  lemma PredicateSound(name: string, s: seq<Sym>, re: string -> bool) returns (c: Comparison)
    requires Live(s) && Canonical(s) && PPredicate(name, s, re).Ok?
    ensures ValidComparison(c, re) && c.name == name && ComparisonTree(c, re) == PPredicate(name, s, re).value
    ensures s == PredicateSyms(c) + PPredicate(name, s, re).rest && Canonical(PPredicate(name, s, re).rest)
  {
    hide Stream, Canonical, Advance, PIn, PContains, PCompare, ListSyms, Negation;
    var r := PPredicate(name, s, re);
    if s[0].tok == Not {
      AdvanceSound(s);
      var s1 := Advance(s).rest;
      if s1[0].tok == In {
        InSound(name, s1, true);
        c := Member(name, r.value.values, true);
        NegatedSyms([Plain(In)] + ListSyms(c.values), r.rest);
      } else {
        ContainsSound(name, s1, true);
        c := Has(name, r.value.element, true);
        NegatedSyms([Plain(Contains), StringSym(c.element)], r.rest);
      }
    } else if s[0].tok == In {
      InSound(name, s, false);
      c := Member(name, r.value.values, false);
      NegatedSyms([Plain(In)] + ListSyms(c.values), r.rest);
    } else if s[0].tok == Contains {
      ContainsSound(name, s, false);
      c := Has(name, r.value.element, false);
      NegatedSyms([Plain(Contains), StringSym(c.element)], r.rest);
    } else {
      c := CompareSound(name, s, re);
    }
  }

  lemma EqualitySound(s: seq<Sym>, re: string -> bool) returns (c: Comparison)
    requires Live(s) && Canonical(s) && PEquality(s, re).Ok?
    ensures ValidComparison(c, re) && ComparisonTree(c, re) == PEquality(s, re).value
    ensures s == ComparisonSyms(c) + PEquality(s, re).rest && Canonical(PEquality(s, re).rest)
  {
    hide Stream, Canonical, Take, PPredicate, PredicateSyms, ComparisonTree, ValidComparison;
    TakeSound(s, Identifier);
    c := PredicateSound(Take(s, Identifier).value, Take(s, Identifier).rest, re);
  }

  lemma Regroup(a: seq<Sym>, b: seq<Sym>, c: seq<Sym>, d: seq<Sym>)
    ensures a + (b + (c + d)) == (a + (b + c)) + d
  {
  }

  lemma {:induction false} FactorSound(s: seq<Sym>, level: nat, re: string -> bool) returns (f: Factor)
    requires Live(s) && Canonical(s) && level <= MAX_LEVELS && PFactor(s, level, re).Ok?
    ensures ValidFactor(f, re) && TreeFactor(f, re) == PFactor(s, level, re).value
    ensures level + LevelsFactor(f) <= MAX_LEVELS
    ensures s == YieldFactor(f) + PFactor(s, level, re).rest && Canonical(PFactor(s, level, re).rest)
    decreases |s|, 0
  {
    hide Stream, Canonical, Take, Advance, PEquality, PExpression, YieldOr, TreeOr, ComparisonSyms;
    if s[0].tok == LBracket {
      AdvanceSound(s);
      var s1 := Advance(s).rest;
      var e := ExpressionSound(s1, level, re);
      TakeSound(PExpression(s1, level, re).rest, RBracket);
      f := Group(e);
    } else {
      var c := EqualitySound(s, re);
      f := Leaf(c);
    }
  }

  lemma {:induction false} TermSound(s: seq<Sym>, level: nat, re: string -> bool) returns (t: AndTree)
    requires Live(s) && Canonical(s) && level <= MAX_LEVELS && PTerm(s, level, re).Ok?
    ensures ValidAnd(t, re) && TreeAnd(t, re) == PTerm(s, level, re).value
    ensures level + LevelsAnd(t) <= MAX_LEVELS
    ensures s == YieldAnd(t) + PTerm(s, level, re).rest && Canonical(PTerm(s, level, re).rest)
    decreases |s|, 1
  {
    hide Stream, Canonical, PFactor, AndLoop, YieldFactor;
    var f := FactorSound(s, level, re);
    t := AndLoopSound(OneFactor(f), PFactor(s, level, re).rest, level, re);
  }

  lemma {:induction false} AndLoopSound(l: AndTree, s: seq<Sym>, level: nat, re: string -> bool) returns (t: AndTree)
    requires ValidAnd(l, re) && level + LevelsAnd(l) <= MAX_LEVELS
    requires Live(s) && Canonical(s) && level <= MAX_LEVELS && AndLoop(TreeAnd(l, re), s, level, re).Ok?
    ensures ValidAnd(t, re) && TreeAnd(t, re) == AndLoop(TreeAnd(l, re), s, level, re).value
    ensures level + LevelsAnd(t) <= MAX_LEVELS
    ensures YieldAnd(l) + s == YieldAnd(t) + AndLoop(TreeAnd(l, re), s, level, re).rest
    ensures Canonical(AndLoop(TreeAnd(l, re), s, level, re).rest)
    decreases |s|, 2
  {
    hide Stream, Canonical, Advance, PFactor, YieldFactor, TreeFactor;
    if s[0].tok == And {
      AdvanceSound(s);
      var s1 := Advance(s).rest;
      var f := FactorSound(s1, level, re);
      var s2 := PFactor(s1, level, re).rest;
      t := AndLoopSound(AndMore(l, f), s2, level, re);
      Regroup(YieldAnd(l), [Plain(And)], YieldFactor(f), s2);
    } else {
      t := l;
    }
  }

  lemma {:induction false} OrLoopSound(l: OrTree, s: seq<Sym>, level: nat, re: string -> bool) returns (t: OrTree)
    requires ValidOr(l, re) && 1 <= level && level - 1 + LevelsOr(l) <= MAX_LEVELS
    requires Live(s) && Canonical(s) && OrLoop(TreeOr(l, re), s, level, re).Ok?
    ensures ValidOr(t, re) && TreeOr(t, re) == OrLoop(TreeOr(l, re), s, level, re).value
    ensures level - 1 + LevelsOr(t) <= MAX_LEVELS
    ensures YieldOr(l) + s == YieldOr(t) + OrLoop(TreeOr(l, re), s, level, re).rest
    ensures Canonical(OrLoop(TreeOr(l, re), s, level, re).rest)
    decreases |s|, 2
  {
    hide Stream, Canonical, Advance, PTerm, YieldAnd, TreeAnd;
    if s[0].tok == Or {
      AdvanceSound(s);
      var s1 := Advance(s).rest;
      var a := TermSound(s1, level, re);
      var s2 := PTerm(s1, level, re).rest;
      t := OrLoopSound(OrMore(l, a), s2, level, re);
      Regroup(YieldOr(l), [Plain(Or)], YieldAnd(a), s2);
    } else {
      t := l;
    }
  }

  lemma {:induction false} ExpressionSound(s: seq<Sym>, level: nat, re: string -> bool) returns (t: OrTree)
    requires Live(s) && Canonical(s) && PExpression(s, level, re).Ok?
    ensures ValidOr(t, re) && TreeOr(t, re) == PExpression(s, level, re).value
    ensures level + LevelsOr(t) <= MAX_LEVELS
    ensures s == YieldOr(t) + PExpression(s, level, re).rest && Canonical(PExpression(s, level, re).rest)
    decreases |s|, 3
  {
    hide Stream, Canonical, PTerm, OrLoop, YieldAnd;
    var a := TermSound(s, level + 1, re);
    t := OrLoopSound(OneTerm(a), PTerm(s, level + 1, re).rest, level + 1, re);
  }

  // ----- the parser recognises exactly the grammar -----

  const END := Plain(Eol)

  lemma LiveEnd()
    ensures Live([END])
  {
  }

  lemma LonelyEnd(s: seq<Sym>)
    requires Live(s) && s[0].tok == Eol && Canonical(s)
    ensures s == [END]
  {
    assert |s| == 1 || !EndsStream(s[0].tok);
  }

  /** A sequence of symbols parses to a tree exactly when it derives the tree in the grammar, with AND binding
      tighter than OR, within the nesting limit. */
  lemma ParsesIffDerives(ss: seq<Sym>, e: Expression, re: string -> bool)
    requires Stream(ss + [END]) && Canonical(ss)
    ensures PFilter(ss + [END], re) == Ok(e, []) <==> Derives(ss, e, re)
  {
    hide Stream, Live, PExpression, YieldOr, TreeOr, LevelsOr, ValidOr;
    var s := ss + [END];
    if PFilter(s, re) == Ok(e, []) {
      FirstIsLive(ss);
      CanonicalEnd(ss);
      var t := ExpressionSound(s, 0, re);
      LonelyEnd(PExpression(s, 0, re).rest);
      SameEnd(ss, YieldOr(t));
      assert DerivesBy(t, ss, e, re);
    }
    if Derives(ss, e, re) {
      var t :| DerivesBy(t, ss, e, re);
      DerivationParses(t, re);
    }
  }

  lemma FirstIsLive(ss: seq<Sym>)
    requires Stream(ss + [END]) && (ss + [END])[0].tok != Illegal
    ensures Live(ss + [END])
  {
  }

  lemma CanonicalEnd(ss: seq<Sym>)
    requires Canonical(ss)
    ensures Canonical(ss + [END])
  {
  }

  lemma SameEnd(a: seq<Sym>, b: seq<Sym>)
    requires a + [END] == b + [END]
    ensures a == b
  {
    assert a == (a + [END])[..|a|] && b == (b + [END])[..|b|];
  }

  lemma DerivationParses(t: OrTree, re: string -> bool)
    requires ValidOr(t, re) && LevelsOr(t) <= MAX_LEVELS
    ensures Stream(YieldOr(t) + [END])
    ensures PFilter(YieldOr(t) + [END], re) == Ok(TreeOr(t, re), [])
  {
    hide Stream, PTerms, OrLoop, YieldOr, TreeOr, ValidOr, LevelsOr;
    LiveEnd();
    OrParses(t, [END], 1, re);
    OrLoopStops(TreeOr(t, re), [END], 1, re);
  }

  /** The grammar is unambiguous: no symbols derive two trees. */
  lemma DerivationIsUnique(ss: seq<Sym>, e1: Expression, e2: Expression, re: string -> bool)
    requires Derives(ss, e1, re) && Derives(ss, e2, re)
    ensures e1 == e2
  {
    hide YieldOr, TreeOr, ValidOr, LevelsOr;
    var t1 :| DerivesBy(t1, ss, e1, re);
    var t2 :| DerivesBy(t2, ss, e2, re);
    DerivationParses(t1, re);
    DerivationParses(t2, re);
  }
}
