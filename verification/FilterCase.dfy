/** Upper and lower case: keywords, units, booleans and field names are the same however their letters are cased. */
module FilterCase {
  import opened FilterSyntax
  import opened FilterNumbers
  import opened FilterLexer
  import opened FilterLexerLaws
  import opened FilterGrammar
  import opened FilterSql
  import opened SqlLogic
  import opened FilterMeaning

  /** The same character, or the two cases of one ASCII letter. */
  predicate SameLetter(a: char, b: char)
  {
    || a == b
    || ('a' <= a <= 'z' && b as int == a as int - 'a' as int + 'A' as int)
    || ('A' <= a <= 'Z' && b as int == a as int - 'A' as int + 'a' as int)
  }

  predicate SameUpToCase(s: string, t: string)
  {
    |s| == |t| && forall i :: 0 <= i < |s| ==> SameLetter(s[i], t[i])
  }

  lemma LowerCharIff(a: char, b: char)
    ensures SameLetter(a, b) <==> LowerChar(a) == LowerChar(b)
  {
  }

  /** Lower-casing identifies exactly the texts that differ only in case. */
  lemma LowerIff(s: string, t: string)
    ensures SameUpToCase(s, t) <==> Lower(s) == Lower(t)
  {
    hide SameLetter, LowerChar;
    forall i | 0 <= i < |s| && i < |t|
      ensures SameLetter(s[i], t[i]) <==> LowerChar(s[i]) == LowerChar(t[i])
    {
      LowerCharIff(s[i], t[i]);
    }
    if Lower(s) == Lower(t) {
      assert |s| == |Lower(s)| == |t|;
      forall i | 0 <= i < |s|
        ensures SameLetter(s[i], t[i])
      {
        assert LowerChar(s[i]) == Lower(s)[i] == Lower(t)[i] == LowerChar(t[i]);
      }
    }
  }

  // ----- words -----

  /** All in lower case. */
  predicate IsLower(s: string) { forall i :: 0 <= i < |s| ==> 'a' <= s[i] <= 'z' }

  lemma LowerOfLower(s: string)
    requires IsLower(s)
    ensures Lower(s) == s
  {
  }

  lemma CasedLower(name: string, word: string)
    requires IsLower(word)
    ensures SameUpToCase(name, word) <==> Lower(name) == word
  {
    LowerIff(name, word);
    LowerOfLower(word);
  }

  /** The words with a meaning of their own. */
  const RESERVED := ["and", "or", "not", "in", "contains", "like", "true", "false"]

  /** A word is a keyword or a boolean exactly if it is one of eight words in any case, and then which one. */
  lemma WordsInAnyCase(name: string)
    ensures SameUpToCase(name, "and") ==> WordSym(name) == Sym(And, "")
    ensures SameUpToCase(name, "or") ==> WordSym(name) == Sym(Or, "")
    ensures SameUpToCase(name, "not") ==> WordSym(name) == Sym(Not, "")
    ensures SameUpToCase(name, "in") ==> WordSym(name) == Sym(In, "")
    ensures SameUpToCase(name, "contains") ==> WordSym(name) == Sym(Contains, "")
    ensures SameUpToCase(name, "like") ==> WordSym(name) == Sym(Like2, "")
    ensures SameUpToCase(name, "true") || SameUpToCase(name, "false") ==> WordSym(name) == Sym(Boolean, name)
    ensures (forall w :: w in RESERVED ==> !SameUpToCase(name, w)) ==> WordSym(name) == Sym(Identifier, name)
  {
    hide SameUpToCase, Lower;
    forall w | w in RESERVED
      ensures SameUpToCase(name, w) <==> Lower(name) == w
    {
      assert IsLower(w);
      CasedLower(name, w);
    }
    assert RESERVED[0] in RESERVED && RESERVED[1] in RESERVED && RESERVED[2] in RESERVED && RESERVED[3] in RESERVED;
    assert RESERVED[4] in RESERVED && RESERVED[5] in RESERVED && RESERVED[6] in RESERVED && RESERVED[7] in RESERVED;
  }

  /** A boolean literal is true exactly if it spells true in any case. */
  lemma BooleansInAnyCase(name: string, re: string -> bool)
    ensures LiteralOf(Sym(Boolean, name), re) == Ok(BoolExpr(SameUpToCase(name, "true")), [])
  {
    CasedLower(name, "true");
  }

  lemma CasedIsWord(name: string, word: string)
    requires IsLower(word) && word != "" && SameUpToCase(name, word)
    ensures IsWord(name)
  {
    assert forall i :: 0 <= i < |name| ==> SameLetter(name[i], word[i]);
    assert forall i :: 0 <= i < |name| ==> IsWordStart(name[i]);
  }

  /** Wherever it stands, a reserved word in any case scans as one token, and that token is the one it spells. */
  lemma CasedWordScans(src: string, k: nat, name: string, word: string)
    requires word in RESERVED && SameUpToCase(name, word) && Occurs(name, src, k) && BlankAt(src, k + |name|)
    ensures k < |src| && src[k] != '\0' && ScanToken(src, k) == (WordSym(name), k + |name|)
  {
    hide Occurs, ScanToken, WordSym, IsWord;
    assert IsLower(word) && word != "";
    CasedIsWord(name, word);
    WordScans(src, k, name);
  }

  // ----- quantities -----

  lemma CasedUnit(u: string, unit: QuantityUnit)
    requires unit != NoUnit && SameUpToCase(u, UnitText(unit))
    ensures |u| == 2 && UnitOfSuffix(Lower(u)) == unit && IsUnitText(u)
  {
    assert IsLower(UnitText(unit));
    CasedLower(u, UnitText(unit));
    UnitRecognized(unit);
    assert SameLetter(u[0], UnitText(unit)[0]) && SameLetter(u[1], UnitText(unit)[1]);
  }

  /** A decimal followed by a unit in any case denotes that amount in that unit. */
  lemma QuantitiesInAnyCase(s: string, u: string, unit: QuantityUnit)
    requires IsDecimal(s) && unit != NoUnit && SameUpToCase(u, UnitText(unit))
    ensures QuantityOf(s + u) == QuantityExpr(ParseDecimal(s), unit)
  {
    hide IsDecimal, ParseDecimal, SameUpToCase;
    CasedUnit(u, unit);
    DecimalEnd(s);
    var val := s + u;
    assert val[|val| - 2..] == u && val[..|val| - 2] == s;
  }

  /** And it scans as one token, wherever it stands. */
  lemma CasedQuantityScans(src: string, k: nat, s: string, u: string, unit: QuantityUnit)
    requires IsDecimal(s) && unit != NoUnit && SameUpToCase(u, UnitText(unit))
    requires Occurs(s + u, src, k) && BlankAt(src, k + |s + u|)
    ensures k < |src| && src[k] != '\0' && ScanToken(src, k) == (Sym(Quantity, s + u), k + |s + u|)
  {
    hide IsDecimal, SameUpToCase, Occurs, ScanToken;
    CasedUnit(u, unit);
    DecimalEnd(s);
    assert (s + u)[..|s|] == s && (s + u)[|s|..] == u;
    assert IsQuantityText(s + u);
    QuantityScans(src, k, s + u);
  }

  // ----- names -----

  /** The same tree but for the case of its field names. */
  predicate SameButNames(e: Expression, f: Expression)
  {
    match e
    case BinaryExpr(l, op, r) => f.BinaryExpr? && f.op == op && SameButNames(l, f.left) && SameButNames(r, f.right)
    case VarExpr(name) => f.VarExpr? && SameUpToCase(name, f.name)
    case InExpr(subject, values, negated) =>
      f.InExpr? && f.values == values && f.negated == negated && SameButNames(subject, f.subject)
    case ContainsExpr(subject, element, negated) =>
      f.ContainsExpr? && f.element == element && f.negated == negated && SameButNames(subject, f.subject)
    case _ => f == e
  }

  lemma SameVariable(e: Expression, f: Expression)
    requires SameButNames(e, f)
    ensures e.VarExpr? <==> f.VarExpr?
    ensures e.VarExpr? ==> Lower(e.name) == Lower(f.name)
  {
    if e.VarExpr? {
      LowerIff(e.name, f.name);
    }
  }

  lemma SameAccepted(ft: FieldType, e: Expression, f: Expression)
    requires SameButNames(e, f)
    ensures CheckValueType(ft, e) == CheckValueType(ft, f)
  {
  }

  /** Field names that differ only in case translate alike. */
  lemma {:induction false} NamesInAnyCase(e: Expression, f: Expression, mf: Mapper)
    requires SameButNames(e, f)
    ensures ToSql(e, mf) == ToSql(f, mf)
    decreases e
  {
    hide Lower, Infix, Call, ListCondition, ContainsCondition, CheckValueType, SameUpToCase, Combine;
    SameVariable(e, f);
    match e
    case BinaryExpr(l, op, r) =>
      SameVariable(l, f.left);
      NamesInAnyCase(l, f.left, mf);
      NamesInAnyCase(r, f.right, mf);
      if l.VarExpr? && mf(Lower(l.name)).Known? {
        SameAccepted(mf(Lower(l.name)).ft, r, f.right);
      }
    case InExpr(subject, _, _) => SameVariable(subject, f.subject);
    case ContainsExpr(subject, _, _) => SameVariable(subject, f.subject);
    case _ =>
  }

  // ----- characters -----

  /** Names are made of the letters of the alphabet in either case, the underscore, and dots between them. */
  lemma WordCharacters(c: char)
    ensures IsWordStart(c) <==> c == '_' || exists l :: 'a' <= l <= 'z' && SameLetter(l, c)
  {
    if 'A' <= c <= 'Z' {
      var l := (c as int - 'A' as int + 'a' as int) as char;
      assert SameLetter(l, c);
    } else {
      assert SameLetter(c, c);
    }
  }

  /** Spaces, tabs and line ends separate tokens and mean nothing else; no other character is passed over. */
  lemma BlanksArePassedOver(src: string, k: nat)
    requires k < |src|
    ensures src[k] in " \t\n\r" ==> Lexemes(src, k) == Lexemes(src, k + 1)
    ensures src[k] !in " \t\n\r" ==> Lexemes(src, k)[0].pos == k
  {
    hide ScanToken;
    if src[k] in " \t\n\r" {
      LeadingSpace(src, k);
    } else {
      assert SkipSpace(src, k) == k;
    }
  }
}
