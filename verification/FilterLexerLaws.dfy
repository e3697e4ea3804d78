/** What the scanner accepts and how its tokens are written: literals, single tokens, token sequences. */
module FilterLexerLaws {
  import opened FilterSyntax
  import opened FilterLexer

  /** The text t stands at index k of src. */
  ghost predicate Occurs(t: string, src: string, k: nat)
  {
    k + |t| <= |src| && forall i :: 0 <= i < |t| ==> SameChar(t, i, src, k)
  }

  predicate SameChar(t: string, i: nat, src: string, k: nat)
    requires i < |t| && k + |t| <= |src|
  {
    src[k + i] == t[i]
  }

  lemma OccursAt(t: string, src: string, k: nat, i: nat)
    requires Occurs(t, src, k) && i < |t|
    ensures k + i < |src| && src[k + i] == t[i]
  {
    assert SameChar(t, i, src, k);
  }

  lemma OccursSlice(t: string, src: string, k: nat)
    requires Occurs(t, src, k)
    ensures src[k..k + |t|] == t
  {
    forall i | 0 <= i < |t|
      ensures src[k + i] == t[i]
    {
      OccursAt(t, src, k, i);
    }
  }

  lemma OccursHere(src: string)
    ensures Occurs(src, src, 0)
  {
    forall i | 0 <= i < |src|
      ensures SameChar(src, i, src, 0)
    {
    }
  }

  // ----- literals -----

  /** Puts a backslash in front of every q and changes nothing else. */
  function Escape(s: string, q: char): string
  {
    if s == "" then "" else EscapeChar(s[0], q) + Escape(s[1..], q)
  }

  function EscapeChar(c: char, q: char): string { if c == q then ['\\', q] else [c] }

  predicate EndsInBackslash(s: string) { s != "" && s[|s| - 1] == '\\' }

  lemma OccursParts(a: string, b: string, src: string, k: nat)
    requires Occurs(a + b, src, k)
    ensures Occurs(a, src, k) && Occurs(b, src, k + |a|)
  {
    var j := k + |a|;
    forall i | 0 <= i < |b|
      ensures SameChar(b, i, src, j)
    {
      OccursAt(a + b, src, k, |a| + i);
    }
    forall i | 0 <= i < |a|
      ensures SameChar(a, i, src, k)
    {
      OccursAt(a + b, src, k, i);
    }
  }

  lemma PrependAllCons(t: string, r: Literal)
    requires t != ""
    ensures Prepend(t[0], PrependAll(t[1..], r)) == PrependAll(t, r)
  {
    if r.Closed? {
      assert [t[0]] + (t[1..] + r.text) == t + r.text;
    }
  }

  lemma EscapedCharScans(src: string, k: nat, c: char, q: char)
    requires IsDelimiter(q) && c != '\0' && Occurs(EscapeChar(c, q), src, k)
    requires c == '\\' ==> At(src, k + 1) != q
    ensures LiteralRun(src, k, q) == Prepend(c, LiteralRun(src, k + |EscapeChar(c, q)|, q))
  {
    OccursAt(EscapeChar(c, q), src, k, 0);
    if c == q {
      OccursAt(EscapeChar(c, q), src, k, 1);
    }
  }

  lemma TailOf(t: string)
    requires t != ""
    ensures '\0' !in t ==> t[0] != '\0' && '\0' !in t[1..]
    ensures EndsInBackslash(t[1..]) ==> EndsInBackslash(t)
  {
  }

  /** The character after an escaped head that is a backslash is not the delimiter. */
  lemma AfterBackslash(src: string, k: nat, t: string, q: char)
    requires IsDelimiter(q) && t != "" && t[0] == '\\'
    requires Occurs(Escape(t[1..], q), src, k + 1)
    requires EndsInBackslash(t) ==> At(src, k + 1 + |Escape(t[1..], q)|) != q
    ensures At(src, k + 1) != q
  {
    if |t| > 1 {
      OccursAt(Escape(t[1..], q), src, k + 1, 0);
      assert Escape(t[1..], q)[0] == EscapeChar(t[1], q)[0];
    }
  }

  /** Scanning over the escaped form of t yields t, provided a final backslash does not meet the delimiter. */
  lemma {:induction false} LiteralPrefix(src: string, k: nat, t: string, q: char)
    requires IsDelimiter(q) && '\0' !in t && Occurs(Escape(t, q), src, k)
    requires EndsInBackslash(t) ==> At(src, k + |Escape(t, q)|) != q
    ensures LiteralRun(src, k, q) == PrependAll(t, LiteralRun(src, k + |Escape(t, q)|, q))
    decreases |t|
  {
    hide LiteralRun, Prepend, PrependAll, EndsInBackslash;
    if t == "" {
      PrependNothing(LiteralRun(src, k, q));
    } else {
      var head, tail := EscapeChar(t[0], q), t[1..];
      OccursParts(head, Escape(tail, q), src, k);
      if t[0] == '\\' {
        AfterBackslash(src, k, t, q);
      }
      TailOf(t);
      EscapedCharScans(src, k, t[0], q);
      LiteralPrefix(src, k + |head|, tail, q);
      PrependAllCons(t, LiteralRun(src, k + |Escape(t, q)|, q));
    }
  }

  predicate Quotable(s: string) { '\0' !in s && !EndsInBackslash(s) }

  lemma PrependQuotable(c: char, t: string)
    requires Quotable(t) && c != '\0' && (t == "" ==> c != '\\')
    ensures Quotable([c] + t)
  {
  }

  /** Whatever the text, a literal that closes holds no zero byte and does not end in a backslash. */
  lemma {:induction false} LiteralIsQuotable(src: string, k: nat, q: char)
    requires IsDelimiter(q) && k <= |src|
    ensures LiteralRun(src, k, q).Closed? ==> Quotable(LiteralRun(src, k, q).text)
    decreases |src| - k
  {
    hide Quotable;
    assert Quotable("") by { EmptyIsQuotable(); }
    if At(src, k) != q && At(src, k) != '\0' {
      if At(src, k) == '\\' && At(src, k + 1) == q {
        LiteralIsQuotable(src, k + 2, q);
        if LiteralRun(src, k + 2, q).Closed? {
          PrependQuotable(q, LiteralRun(src, k + 2, q).text);
        }
      } else {
        LiteralIsQuotable(src, k + 1, q);
        if LiteralRun(src, k + 1, q).Closed? {
          PrependQuotable(src[k], LiteralRun(src, k + 1, q).text);
        }
      }
    }
  }

  lemma EmptyIsQuotable()
    ensures Quotable("")
  {
  }

  function LiteralToken(q: char): Token { if q == '/' then RegexLit else StringLit }

  function Quote(s: string, q: char): string { [q] + (Escape(s, q) + [q]) }

  lemma QuoteScans(src: string, k: nat, s: string, q: char)
    requires IsDelimiter(q) && Occurs(Escape(s, q) + [q], src, k)
    ensures Quotable(s) ==> LiteralRun(src, k, q) == Closed(s, k + |Escape(s, q)| + 1)
    ensures !Quotable(s) && LiteralRun(src, k, q).Closed? ==> LiteralRun(src, k, q).text != s
  {
    hide Escape, LiteralRun, Occurs, PrependAll;
    OccursParts(Escape(s, q), [q], src, k);
    var end := k + |Escape(s, q)|;
    OccursAt([q], src, end, 0);
    LiteralIsQuotable(src, k, q);
    if Quotable(s) {
      LiteralPrefix(src, k, s, q);
      LiteralStep(src, end, q, s);
    }
  }

  /** Escaping the delimiter and scanning gives the string back as one token, wherever the literal stands,
      exactly when the string holds no zero byte and does not end in a backslash. */
  lemma LiteralRoundTrip(src: string, k: nat, s: string, q: char)
    requires (q == '"' || q == '\'' || q == '/') && Occurs(Quote(s, q), src, k)
    ensures k < |src| && src[k] == q
    ensures ScanToken(src, k).0 == Sym(LiteralToken(q), s) <==> Quotable(s)
    ensures Quotable(s) ==> ScanToken(src, k).1 == k + |Quote(s, q)|
  {
    hide Occurs, Escape, LiteralRun, Quotable;
    OccursParts([q], Escape(s, q) + [q], src, k);
    OccursAt([q], src, k, 0);
    QuoteScans(src, k + 1, s, q);
  }

  // ----- single tokens -----

  /** Letters, underscores and dots, every dot followed by a letter or underscore. */
  predicate WordBetween(s: string, i: nat, j: nat)
    requires j <= |s|
  {
    forall x :: i <= x < j ==> WordCharAt(s, x, j)
  }

  predicate WordCharAt(s: string, x: nat, j: nat)
    requires x < j <= |s|
  {
    IsWordStart(s[x]) || (s[x] == '.' && x + 1 < j && IsWordStart(s[x + 1]))
  }

  predicate IsWord(s: string)
  {
    s != "" && IsWordStart(s[0]) && WordBetween(s, 0, |s|)
  }

  predicate IsUnitText(s: string)
  {
    s == "" || (|s| == 2 && IsUnitStart(s[0]) && (s[1] == 'b' || s[1] == 'B'))
  }

  /** A decimal number and an optional unit. */
  ghost predicate IsQuantityText(s: string)
  {
    exists n :: 0 < n <= |s| && IsDecimal(s[..n]) && IsUnitText(s[n..])
  }

  function OperatorText(t: Token): string
  {
    match t
    case LBracket => "("
    case RBracket => ")"
    case LSquare => "["
    case RSquare => "]"
    case Comma => ","
    case Equal => "="
    case NotEqual => "!="
    case Like => "~"
    case NotLike => "!~"
    case Less => "<"
    case Lte => "<="
    case Greater => ">"
    case Gte => ">="
    case _ => ""
  }

  function KeywordText(t: Token): string
  {
    match t
    case And => "and"
    case Or => "or"
    case Not => "not"
    case In => "in"
    case Contains => "contains"
    case Like2 => "like"
    case _ => ""
  }

  /** The shape each kind of token promises; such a symbol has a spelling the scanner gives back. */
  ghost predicate Lexable(s: Sym)
  {
    match s.tok
    case Identifier => IsWord(s.val) && WordSym(s.val) == s
    case Boolean => IsWord(s.val) && WordSym(s.val) == s
    case Quantity => IsQuantityText(s.val)
    case StringLit => Quotable(s.val)
    case RegexLit => Quotable(s.val)
    case Illegal => false
    case Eol => false
    case _ => s.val == ""
  }

  function Text(s: Sym): string
  {
    match s.tok
    case Identifier => s.val
    case Boolean => s.val
    case Quantity => s.val
    case StringLit => Quote(s.val, '\'')
    case RegexLit => Quote(s.val, '/')
    case _ => if OperatorText(s.tok) != "" then OperatorText(s.tok) else KeywordText(s.tok)
  }

  /** A blank or the end of the text follows index k. */
  ghost predicate BlankAt(src: string, k: nat) { At(src, k) == '\0' || IsSpace(At(src, k)) }

  lemma {:induction false} WordRunStops(src: string, k: nat, end: nat)
    requires k <= end <= |src| && WordBetween(src, k, end) && BlankAt(src, end)
    ensures WordRun(src, k) == Run(true, end)
    decreases end - k
  {
    if k < end {
      assert WordCharAt(src, k, end);
      WordRunStops(src, if src[k] == '.' then k + 2 else k + 1, end);
    }
  }

  lemma {:induction false} DigitRunStops(src: string, k: nat, end: nat, hasDot: bool)
    requires k <= end <= |src| && DigitsBetween(src, k, end)
    ensures NumberRun(src, k, hasDot) == NumberRun(src, end, hasDot)
    decreases end - k
  {
    if k < end {
      DigitRunStops(src, k + 1, end, hasDot);
    }
  }

  lemma OccursDigits(v: string, src: string, k: nat, i: nat, j: nat)
    requires Occurs(v, src, k) && j <= |v| && DigitsBetween(v, i, j)
    ensures DigitsBetween(src, k + i, k + j)
  {
    forall x | k + i <= x < k + j
      ensures IsDigit(src[x])
    {
      OccursAt(v, src, k, x - k);
    }
  }

  lemma OccursWord(w: string, src: string, k: nat, i: nat)
    requires Occurs(w, src, k) && i <= |w| && WordBetween(w, i, |w|)
    ensures WordBetween(src, k + i, k + |w|)
  {
    var end := k + |w|;
    forall x | k + i <= x < end
      ensures WordCharAt(src, x, end)
    {
      assert WordCharAt(w, x - k, |w|);
      OccursAt(w, src, k, x - k);
      if x + 1 < end {
        OccursAt(w, src, k, x + 1 - k);
      }
    }
  }

  lemma DecimalRunStops(src: string, k: nat, d: nat, end: nat)
    requires k < d <= end <= |src| && DigitsBetween(src, k, d)
    requires d < end ==> src[d] == '.' && DigitsBetween(src, d + 1, end)
    requires !IsDigit(At(src, end)) && At(src, end) != '.'
    ensures IsDigit(src[k]) && NumberRun(src, k + 1, false) == Run(true, end)
  {
    DigitRunStops(src, k + 1, d, false);
    if d < end {
      DigitRunStops(src, d + 1, end, true);
    }
  }

  lemma OccursDecimal(src: string, k: nat, v: string)
    requires IsDecimal(v) && Occurs(v, src, k)
    requires !IsDigit(At(src, k + |v|)) && At(src, k + |v|) != '.'
    ensures IsDigit(src[k]) && NumberRun(src, k + 1, false) == Run(true, k + |v|)
  {
    var d := DotIndex(v);
    OccursDigits(v, src, k, 0, d);
    if d < |v| {
      OccursAt(v, src, k, d);
      OccursDigits(v, src, k, d + 1, |v|);
    }
    DecimalRunStops(src, k, k + d, k + |v|);
  }

  lemma WordScans(src: string, k: nat, w: string)
    requires IsWord(w) && Occurs(w, src, k) && BlankAt(src, k + |w|)
    ensures k < |src| && src[k] != '\0' && ScanToken(src, k) == (WordSym(w), k + |w|)
  {
    OccursAt(w, src, k, 0);
    OccursWord(w, src, k, 1);
    WordRunStops(src, k + 1, k + |w|);
    OccursSlice(w, src, k);
  }

  lemma UnitScans(src: string, k: nat, u: string)
    requires IsUnitText(u) && Occurs(u, src, k) && BlankAt(src, k + |u|)
    ensures UnitRun(src, k) == Run(true, k + |u|) && !IsDigit(At(src, k)) && At(src, k) != '.'
  {
    if u != "" {
      OccursAt(u, src, k, 0);
      OccursAt(u, src, k, 1);
    }
  }

  lemma NumberToken(src: string, k: nat, n: nat, end: nat)
    requires k < |src| && IsDigit(src[k]) && NumberRun(src, k + 1, false) == Run(true, n)
    requires n <= |src| && UnitRun(src, n) == Run(true, end)
    ensures ScanToken(src, k) == (Sym(Quantity, src[k..end]), end)
  {
  }

  lemma QuantityRuns(src: string, k: nat, v: string, n: nat)
    requires 0 < n <= |v| && IsDecimal(v[..n]) && IsUnitText(v[n..])
    requires Occurs(v, src, k) && BlankAt(src, k + |v|)
    ensures IsDigit(src[k]) && NumberRun(src, k + 1, false) == Run(true, k + n)
    ensures UnitRun(src, k + n) == Run(true, k + |v|)
  {
    hide NumberRun, UnitRun, IsDecimal, IsUnitText;
    assert v == v[..n] + v[n..];
    OccursParts(v[..n], v[n..], src, k);
    UnitScans(src, k + n, v[n..]);
    OccursDecimal(src, k, v[..n]);
  }

  lemma QuantityScans(src: string, k: nat, v: string)
    requires IsQuantityText(v) && Occurs(v, src, k) && BlankAt(src, k + |v|)
    ensures k < |src| && src[k] != '\0' && ScanToken(src, k) == (Sym(Quantity, v), k + |v|)
  {
    hide ScanToken, NumberRun, UnitRun, IsDecimal, IsUnitText;
    var n :| 0 < n <= |v| && IsDecimal(v[..n]) && IsUnitText(v[n..]);
    OccursSlice(v, src, k);
    QuantityRuns(src, k, v, n);
    NumberToken(src, k, k + n, k + |v|);
  }

  lemma KeywordScans(src: string, k: nat, t: Token)
    requires KeywordText(t) != "" && Occurs(KeywordText(t), src, k) && BlankAt(src, k + |KeywordText(t)|)
    ensures k < |src| && src[k] != '\0' && ScanToken(src, k) == (Sym(t, ""), k + |KeywordText(t)|)
  {
    var w := KeywordText(t);
    assert forall i :: 0 <= i < |w| ==> 'a' <= w[i] <= 'z';
    assert IsWord(w);
    assert Lower(w) == w;
    WordScans(src, k, w);
  }

  lemma OperatorScans(src: string, k: nat, t: Token)
    requires OperatorText(t) != "" && Occurs(OperatorText(t), src, k) && BlankAt(src, k + |OperatorText(t)|)
    ensures k < |src| && src[k] != '\0' && ScanToken(src, k) == (Sym(t, ""), k + |OperatorText(t)|)
  {
    hide Occurs;
    var o := OperatorText(t);
    OccursAt(o, src, k, 0);
    if |o| == 2 {
      OccursAt(o, src, k, 1);
    }
    OperatorSyms(t, At(src, k + 1));
  }

  lemma OperatorSyms(t: Token, next: char)
    requires OperatorText(t) != "" && (if |OperatorText(t)| == 2 then next == OperatorText(t)[1] else next == '\0' || IsSpace(next))
    ensures OperatorSym(OperatorText(t)[0], next) == (Sym(t, ""), |OperatorText(t)|)
    ensures var c := OperatorText(t)[0]; !IsWordStart(c) && !IsDigit(c) && !IsDelimiter(c) && c != '\0'
  {
  }

  lemma QuantityStart(v: string)
    requires IsQuantityText(v)
    ensures v != "" && IsDigit(v[0])
  {
    var n :| 0 < n <= |v| && IsDecimal(v[..n]) && IsUnitText(v[n..]);
    assert v[..n][0] == v[0];
  }

  lemma TextStart(s: Sym)
    requires Lexable(s)
    ensures Text(s) != "" && !IsSpace(Text(s)[0]) && Text(s)[0] != '\0' && !EndsStream(s.tok)
  {
    hide Escape, WordSym, IsQuantityText;
    if s.tok == Quantity {
      QuantityStart(s.val);
    }
  }

  /** The scanner reads the spelling of a symbol back, wherever it stands, if a blank follows. */
  lemma TextScans(src: string, k: nat, s: Sym)
    requires Lexable(s) && Occurs(Text(s), src, k) && BlankAt(src, k + |Text(s)|)
    requires k < |src| && src[k] != '\0'
    ensures ScanToken(src, k) == (s, k + |Text(s)|)
  {
    hide ScanToken, Escape, WordSym, Occurs, Quotable, IsWord, IsQuantityText;
    match s.tok
    case Identifier => WordScans(src, k, s.val);
    case Boolean => WordScans(src, k, s.val);
    case Quantity => QuantityScans(src, k, s.val);
    case StringLit => LiteralRoundTrip(src, k, s.val, '\'');
    case RegexLit => LiteralRoundTrip(src, k, s.val, '/');
    case _ =>
      if OperatorText(s.tok) != "" {
        OperatorScans(src, k, s.tok);
      } else {
        KeywordScans(src, k, s.tok);
      }
  }

  // ----- every token the scanner delivers has the declared shape -----

  lemma {:induction false} WordRunShape(src: string, k: nat)
    requires k <= |src| && WordRun(src, k).ok
    ensures WordBetween(src, k, WordRun(src, k).end)
    decreases |src| - k
  {
    if IsWordStart(At(src, k)) {
      WordRunShape(src, k + 1);
    } else if At(src, k) == '.' {
      WordRunShape(src, k + 2);
    }
  }

  /** The digits and the one dot of a number run. */
  ghost predicate NumberBetween(src: string, i: nat, j: nat, hasDot: bool)
    requires j <= |src|
  {
    || DigitsBetween(src, i, j)
    || (!hasDot && exists d :: i <= d < j && src[d] == '.' && DigitsBetween(src, i, d) && DigitsBetween(src, d + 1, j))
  }

  lemma {:induction false} NumberRunShape(src: string, k: nat, hasDot: bool)
    requires k <= |src| && NumberRun(src, k, hasDot).ok
    ensures NumberBetween(src, k, NumberRun(src, k, hasDot).end, hasDot)
    decreases |src| - k
  {
    if IsDigit(At(src, k)) {
      NumberRunShape(src, k + 1, hasDot);
    } else if At(src, k) == '.' {
      NumberRunShape(src, k + 1, true);
    }
  }

  lemma NumberIsDecimal(src: string, k: nat, end: nat)
    requires k < end <= |src| && IsDigit(src[k]) && NumberBetween(src, k, end, false)
    ensures IsDecimal(src[k..end])
  {
    var v := src[k..end];
    var d := DotIndex(v);
    assert forall i :: 0 <= i < |v| ==> v[i] == src[k + i];
    if DigitsBetween(src, k, end) {
      assert d == |v|;
    } else {
      var e :| k <= e < end && src[e] == '.' && DigitsBetween(src, k, e) && DigitsBetween(src, e + 1, end);
      assert v[e - k] == '.';
      assert d == e - k;
    }
  }

  lemma ScannedNumberShape(src: string, k: nat)
    requires k < |src| && IsDigit(src[k]) && ScanToken(src, k).0.tok != Illegal
    ensures IsQuantityText(ScanToken(src, k).0.val)
  {
    NumberRunShape(src, k, false);
    var n := NumberRun(src, k, false).end;
    NumberIsDecimal(src, k, n);
    var s := ScanToken(src, k).0.val;
    assert s[..n - k] == src[k..n];
    assert IsUnitText(s[n - k..]);
  }

  lemma ScannedWordShape(src: string, k: nat)
    requires k < |src| && IsWordStart(src[k]) && WordRun(src, k + 1).ok
    ensures IsWord(src[k..WordRun(src, k + 1).end])
  {
    WordRunShape(src, k);
    var end := WordRun(src, k + 1).end;
    var w := src[k..end];
    forall x | 0 <= x < |w|
      ensures WordCharAt(w, x, |w|)
    {
      assert WordCharAt(src, k + x, end);
      assert w[x] == src[k + x];
      if x + 1 < |w| {
        assert w[x + 1] == src[k + x + 1];
      }
    }
  }

  /** Whatever the text, a token other than Illegal has the shape its kind promises. */
  lemma ScannedIsLexable(src: string, k: nat)
    requires k < |src| && src[k] != '\0' && ScanToken(src, k).0.tok != Illegal
    ensures Lexable(ScanToken(src, k).0)
  {
    hide IsWord, IsQuantityText, WordRun, NumberRun, LiteralRun, Quotable;
    if IsWordStart(src[k]) {
      ScannedWordShape(src, k);
    } else if IsDigit(src[k]) {
      ScannedNumberShape(src, k);
    } else if IsDelimiter(src[k]) {
      LiteralIsQuotable(src, k + 1, src[k]);
    }
  }

  /** Every symbol before the end of the stream has the shape its kind promises. */
  lemma {:induction false} LexemesAreLexable(src: string, k: nat)
    requires k <= |src|
    ensures forall i :: 0 <= i < |Lexemes(src, k)| - 1 ==> Lexable(Lexemes(src, k)[i].sym)
    decreases |src| - k
  {
    var (l, end) := ScanAt(src, k);
    if !EndsStream(l.sym.tok) {
      ScannedIsLexable(src, SkipSpace(src, k));
      LexemesAreLexable(src, end);
    }
  }

  // ----- token sequences -----

  /** The symbols one after the other, each followed by a blank. */
  function Render(ss: seq<Sym>): string
  {
    if ss == [] then "" else Text(ss[0]) + (" " + Render(ss[1..]))
  }

  lemma SymsCons(l: Lexeme, ls: seq<Lexeme>, ss: seq<Sym>)
    requires ss != [] && l.sym == ss[0] && Syms(ls) == ss[1..] + [Sym(Eol, "")]
    ensures Syms([l] + ls) == ss + [Sym(Eol, "")]
  {
    assert ss + [Sym(Eol, "")] == [ss[0]] + (ss[1..] + [Sym(Eol, "")]);
  }

  lemma LeadingSpace(src: string, k: nat)
    requires k < |src| && IsSpace(src[k])
    ensures Lexemes(src, k) == Lexemes(src, k + 1)
  {
    assert SkipSpace(src, k) == SkipSpace(src, k + 1);
    assert ScanAt(src, k) == ScanAt(src, k + 1);
  }

  lemma ScanFirst(src: string, k: nat, s: Sym)
    requires Lexable(s) && Occurs(Text(s), src, k) && BlankAt(src, k + |Text(s)|)
    ensures !EndsStream(s.tok) && ScanAt(src, k) == (Lexeme(k, s), k + |Text(s)|)
  {
    hide ScanToken, Text, Lexable;
    TextStart(s);
    OccursAt(Text(s), src, k, 0);
    assert SkipSpace(src, k) == k;
    TextScans(src, k, s);
  }

  lemma FirstLexeme(src: string, k: nat, s: Sym)
    requires Lexable(s) && Occurs(Text(s), src, k) && BlankAt(src, k + |Text(s)|)
    ensures Lexemes(src, k) == [Lexeme(k, s)] + Lexemes(src, k + |Text(s)|)
  {
    hide ScanAt, Text, Lexable;
    ScanFirst(src, k, s);
  }

  ghost predicate AllLexable(ss: seq<Sym>)
  {
    forall s :: s in ss ==> Lexable(s)
  }

  lemma RenderStep(src: string, k: nat, s: Sym, rest: string)
    requires Lexable(s) && Occurs(Text(s) + (" " + rest), src, k)
    ensures var next := k + |Text(s)| + 1;
            Occurs(rest, src, next) && Lexemes(src, k) == [Lexeme(k, s)] + Lexemes(src, next)
  {
    hide ScanAt, Text, Lexable, Lexemes, Occurs, EndsOnce;
    var t := Text(s);
    OccursParts(t, " " + rest, src, k);
    OccursParts(" ", rest, src, k + |t|);
    OccursAt(" ", src, k + |t|, 0);
    FirstLexeme(src, k, s);
    LeadingSpace(src, k + |t|);
  }

  lemma NothingLeft(src: string)
    ensures Lexemes(src, |src|) == [Lexeme(|src|, Sym(Eol, ""))]
  {
    assert SkipSpace(src, |src|) == |src|;
  }

  lemma {:induction false} RenderScans(src: string, k: nat, ss: seq<Sym>)
    requires AllLexable(ss)
    requires Occurs(Render(ss), src, k) && |src| == k + |Render(ss)|
    ensures Syms(Lexemes(src, k)) == ss + [Sym(Eol, "")]
    decreases |ss|
  {
    hide ScanAt, Text, Lexable;
    if ss == [] {
      NothingLeft(src);
    } else {
      RenderStep(src, k, ss[0], Render(ss[1..]));
      var next := k + |Text(ss[0])| + 1;
      RenderScans(src, next, ss[1..]);
      SymsCons(Lexeme(k, ss[0]), Lexemes(src, next), ss);
    }
  }

  /** Spelling a sequence of symbols and scanning the text yields the sequence. */
  lemma ScanUndoesRender(ss: seq<Sym>)
    requires AllLexable(ss)
    ensures Syms(Lexemes(Render(ss), 0)) == ss + [Sym(Eol, "")]
  {
    OccursHere(Render(ss));
    RenderScans(Render(ss), 0, ss);
  }
}
