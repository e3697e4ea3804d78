/** The scanner of the filter language (pkg/filter/lexer.go): a functional reading of the source text and
    the stateful scanner that refines it. Characters stand for bytes; '\0' ends the input. */
module FilterLexer {
  import opened FilterSyntax

  function At(src: string, k: nat): char
  {
    if k < |src| then src[k] else '\0'
  }

  predicate IsSpace(c: char) { c == ' ' || c == '\t' || c == '\n' || c == '\r' }

  predicate IsWordStart(c: char) { 'a' <= c <= 'z' || 'A' <= c <= 'Z' || c == '_' }

  predicate IsUnitStart(c: char) { c in "kKmMgGtT" }

  predicate IsDelimiter(c: char) { c == '"' || c == '\'' || c == '/' }

  /** Where a run of characters stops, and whether it stopped well. */
  datatype Run = Run(ok: bool, end: nat)

  datatype Literal = Closed(text: string, end: nat) | Unclosed

  function SkipSpace(src: string, k: nat): (r: nat)
    requires k <= |src|
    ensures k <= r <= |src| && !IsSpace(At(src, r))
    ensures forall i :: k <= i < r ==> IsSpace(src[i])
    decreases |src| - k
  {
    if IsSpace(At(src, k)) then SkipSpace(src, k + 1) else k
  }

  function WordRun(src: string, k: nat): (r: Run)
    requires k <= |src|
    ensures k <= r.end <= |src|
    decreases |src| - k
  {
    if IsWordStart(At(src, k)) then WordRun(src, k + 1)
    else if At(src, k) != '.' then Run(true, k)
    else if IsWordStart(At(src, k + 1)) then WordRun(src, k + 2)
    else Run(false, k + 1)
  }

  lemma WordStep(src: string, k: nat)
    requires k < |src|
    ensures IsWordStart(src[k]) ==> WordRun(src, k) == WordRun(src, k + 1)
    ensures src[k] == '.' && IsWordStart(At(src, k + 1)) ==> k + 2 <= |src| && WordRun(src, k) == WordRun(src, k + 2)
    ensures src[k] == '.' && !IsWordStart(At(src, k + 1)) ==> !WordRun(src, k).ok
  {
  }

  lemma WordEnd(src: string, k: nat)
    requires k <= |src| && !IsWordStart(At(src, k)) && At(src, k) != '.'
    ensures WordRun(src, k) == Run(true, k)
  {
  }

  function NumberRun(src: string, k: nat, hasDot: bool): (r: Run)
    requires k <= |src|
    ensures k <= r.end <= |src|
    decreases |src| - k
  {
    if IsDigit(At(src, k)) then NumberRun(src, k + 1, hasDot)
    else if At(src, k) != '.' then Run(true, k)
    else if hasDot then Run(false, k)
    else NumberRun(src, k + 1, true)
  }

  /** The optional unit after a number: one unit letter and then a b. */
  function UnitRun(src: string, k: nat): (r: Run)
    requires k <= |src|
    ensures k <= r.end <= |src|
  {
    if !IsUnitStart(At(src, k)) then Run(true, k)
    else if At(src, k + 1) != 'b' && At(src, k + 1) != 'B' then Run(false, k + 1)
    else Run(true, k + 2)
  }

  /** The rest of a literal opened by q: a backslash escapes q and nothing else. */
  function LiteralRun(src: string, k: nat, q: char): (r: Literal)
    requires k <= |src| && q != '\0'
    ensures r.Closed? ==> k < r.end <= |src|
    decreases |src| - k
  {
    if At(src, k) == q then Closed("", k + 1)
    else if At(src, k) == '\0' then Unclosed
    else if At(src, k) == '\\' && At(src, k + 1) == q then
      Prepend(q, LiteralRun(src, k + 2, q))
    else Prepend(src[k], LiteralRun(src, k + 1, q))
  }

  function Prepend(c: char, r: Literal): Literal
  {
    match r
    case Unclosed => Unclosed
    case Closed(text, end) => Closed([c] + text, end)
  }

  function PrependAll(t: string, r: Literal): Literal
  {
    match r
    case Unclosed => Unclosed
    case Closed(text, end) => Closed(t + text, end)
  }

  lemma PrependNothing(r: Literal)
    ensures PrependAll("", r) == r
  {
    if r.Closed? {
      assert "" + r.text == r.text;
    }
  }

  lemma PrependOneMore(t: string, c: char, r: Literal)
    ensures PrependAll(t, Prepend(c, r)) == PrependAll(t + [c], r)
  {
    if r.Closed? {
      assert t + ([c] + r.text) == t + [c] + r.text;
    }
  }

  /** One round of reading a literal, with the text read so far in front of the rest. */
  lemma LiteralStep(src: string, k: nat, q: char, chars: string)
    requires k <= |src| && q != '\0'
    ensures var whole := PrependAll(chars, LiteralRun(src, k, q));
            if At(src, k) == q then whole == Closed(chars, k + 1)
            else if At(src, k) == '\0' then whole == Unclosed
            else if At(src, k) == '\\' && At(src, k + 1) == q then
              k + 2 <= |src| && whole == PrependAll(chars + [q], LiteralRun(src, k + 2, q))
            else k < |src| && whole == PrependAll(chars + [src[k]], LiteralRun(src, k + 1, q))
  {
    if At(src, k) == q {
      assert chars + "" == chars;
    } else if At(src, k) != '\0' {
      if At(src, k) == '\\' && At(src, k + 1) == q {
        PrependOneMore(chars, q, LiteralRun(src, k + 2, q));
      } else {
        PrependOneMore(chars, src[k], LiteralRun(src, k + 1, q));
      }
    }
  }

  function WordSym(name: string): (s: Sym)
    ensures s.tok != Illegal && s.tok != Eol
  {
    var w := Lower(name);
    if w == "and" then Sym(And, "")
    else if w == "or" then Sym(Or, "")
    else if w == "not" then Sym(Not, "")
    else if w == "in" then Sym(In, "")
    else if w == "contains" then Sym(Contains, "")
    else if w == "true" || w == "false" then Sym(Boolean, name)
    else if w == "like" then Sym(Like2, "")
    else Sym(Identifier, name)
  }

  const ILLEGAL := Sym(Illegal, "")

  /** An operator or bracket starting with c and followed by next, with its length. */
  function OperatorSym(c: char, next: char): (r: (Sym, nat))
    ensures r.0.tok != Eol && 1 <= r.1 <= 2 && (r.0.tok == Illegal ==> r.0 == ILLEGAL)
    ensures r.1 == 2 ==> next != '\0'
  {
    if c == '(' then (Sym(LBracket, ""), 1)
    else if c == ')' then (Sym(RBracket, ""), 1)
    else if c == '[' then (Sym(LSquare, ""), 1)
    else if c == ']' then (Sym(RSquare, ""), 1)
    else if c == ',' then (Sym(Comma, ""), 1)
    else if c == '=' then (Sym(Equal, ""), 1)
    else if c == '~' then (Sym(Like, ""), 1)
    else if c == '!' then
      if next == '=' then (Sym(NotEqual, ""), 2)
      else if next == '~' then (Sym(NotLike, ""), 2)
      else (ILLEGAL, 1)
    else if c == '<' then if next == '=' then (Sym(Lte, ""), 2) else (Sym(Less, ""), 1)
    else if c == '>' then if next == '=' then (Sym(Gte, ""), 2) else (Sym(Greater, ""), 1)
    else (ILLEGAL, 1)
  }

  /** The token that starts at k, and the index after it. */
  function ScanToken(src: string, k: nat): (r: (Sym, nat))
    requires k < |src| && src[k] != '\0'
    ensures r.0.tok != Eol && (r.0.tok == Illegal ==> r.0 == ILLEGAL)
    ensures k < r.1 <= |src|
  {
    var c := src[k];
    if IsWordStart(c) then
      var w := WordRun(src, k + 1);
      if w.ok then (WordSym(src[k..w.end]), w.end) else (ILLEGAL, w.end)
    else if IsDigit(c) then
      var n := NumberRun(src, k + 1, false);
      if !n.ok then (ILLEGAL, n.end)
      else
        var u := UnitRun(src, n.end);
        if u.ok then (Sym(Quantity, src[k..u.end]), u.end) else (ILLEGAL, u.end)
    else if IsDelimiter(c) then
      match LiteralRun(src, k + 1, c)
      case Closed(text, end) => (Sym(if c == '/' then RegexLit else StringLit, text), end)
      case Unclosed => (ILLEGAL, |src|)
    else
      var (s, n) := OperatorSym(c, At(src, k + 1));
      (s, k + n)
  }

  /** One call of Scan from index k. */
  function ScanAt(src: string, k: nat): (r: (Lexeme, nat))
    requires k <= |src|
    ensures k <= r.0.pos <= |src| && k <= r.1 <= |src|
    ensures r.0.sym.tok != Eol ==> k < r.1
  {
    var j := SkipSpace(src, k);
    if At(src, j) == '\0' then (Lexeme(j, Sym(Eol, "")), j)
    else var (s, end) := ScanToken(src, j); (Lexeme(j, s), end)
  }

  predicate EndsStream(t: Token) { t == Eol || t == Illegal }

  /** A stream of lexemes: its last and only its last ends it, and all of them start between k and n. */
  ghost predicate EndsOnce(ls: seq<Lexeme>, k: nat, n: nat)
  {
    && |ls| >= 1 && EndsStream(ls[|ls| - 1].sym.tok)
    && (forall i :: 0 <= i < |ls| - 1 ==> !EndsStream(ls[i].sym.tok))
    && (forall i :: 0 <= i < |ls| ==> k <= ls[i].pos <= n)
  }

  lemma EndsOnceCons(l: Lexeme, ls: seq<Lexeme>, k: nat, end: nat, n: nat)
    requires !EndsStream(l.sym.tok) && k <= l.pos <= n && k <= end && EndsOnce(ls, end, n)
    ensures EndsOnce([l] + ls, k, n)
  {
    var all := [l] + ls;
    assert forall i :: 1 <= i < |all| ==> all[i] == ls[i - 1];
  }

  /** Everything the scanner delivers from index k on, up to the end of input or the first illegal token. */
  function Lexemes(src: string, k: nat): (ls: seq<Lexeme>)
    requires k <= |src|
    ensures EndsOnce(ls, k, |src|)
    decreases |src| - k
  {
    var (l, end) := ScanAt(src, k);
    if EndsStream(l.sym.tok) then [l]
    else
      EndsOnceCons(l, Lexemes(src, end), k, end, |src|);
      [l] + Lexemes(src, end)
  }

  /** The scanner of the source: its four cursor fields move together. */
  class Lexer {
    const src: string
    var ch: char
    var offset: nat
    var pos: nat
    var nextPos: nat

    ghost predicate Valid()
      reads this
    {
      && pos <= |src|
      && ch == At(src, pos)
      && nextPos == offset
      && (offset == pos + 1 || (src == "" && offset == 0))
    }

    /** As a new scanner stands before its first step. */
    ghost predicate Untouched()
      reads this
    {
      ch == '\0' && offset == 0 && pos == 0 && nextPos == 0
    }

    constructor (src: string)
      ensures Valid() && this.src == src && pos == 0
    {
      this.src := src;
      ch, offset, pos, nextPos := '\0', 0, 0, 0;
      new;
      Next();
    }

    /** Loads the first character into a new scanner and the next one into any other; at the end of input only pos
        moves, past the end. */
    method Next()
      requires Valid() || Untouched()
      modifies this
      ensures old(Untouched()) ==> Valid() && pos == 0
      ensures !old(Untouched()) && (old(ch) != '\0' || old(offset) < |src|) ==> Valid() && pos == old(pos) + 1
      ensures !old(Untouched()) && old(ch) == '\0' && old(offset) >= |src| ==>
                pos == old(nextPos) && ch == '\0' && offset == old(offset) && nextPos == old(nextPos)
    {
      pos := nextPos;
      if offset >= |src| {
        if ch != '\0' {
          ch, offset, nextPos := '\0', offset + 1, nextPos + 1;
        }
        return;
      }
      ch, nextPos, offset := src[offset], nextPos + 1, offset + 1;
    }

    method Scan() returns (l: Lexeme)
      requires Valid()
      modifies this
      ensures l == ScanAt(src, old(pos)).0
      ensures l.sym.tok != Illegal ==> Valid() && pos == ScanAt(src, old(pos)).1
    {
      hide WordSym, WordRun, NumberRun, UnitRun, LiteralRun, OperatorSym;
      ghost var from := pos;
      while IsSpace(ch)
        invariant Valid() && SkipSpace(src, pos) == SkipSpace(src, from)
        decreases |src| - pos
      {
        Next();
      }
      if ch == '\0' {
        return Lexeme(pos, Sym(Eol, ""));
      }
      var start := pos;
      var c := ch;
      Next();
      var s;
      if IsWordStart(c) {
        s := ScanWord(start);
      } else if IsDigit(c) {
        s := ScanNumber(start);
      } else if IsDelimiter(c) {
        s := ScanLiteral(c);
      } else {
        s := ScanOperator(c);
      }
      l := Lexeme(start, s);
    }

    method ScanWord(start: nat) returns (s: Sym)
      requires Valid() && pos == start + 1
      modifies this
      ensures var w := WordRun(src, start + 1);
              if w.ok then s == WordSym(src[start..w.end]) && Valid() && pos == w.end else s == ILLEGAL
    {
      hide WordSym, WordRun;
      while IsWordStart(ch) || ch == '.'
        invariant Valid() && start < pos && WordRun(src, pos) == WordRun(src, start + 1)
        decreases |src| - pos
      {
        WordStep(src, pos);
        if ch == '.' {
          Next();
          if !IsWordStart(ch) {
            return ILLEGAL;
          }
        }
        Next();
      }
      WordEnd(src, pos);
      s := WordSym(src[start..offset - 1]);
    }

    method ScanNumber(start: nat) returns (s: Sym)
      requires Valid() && pos == start + 1
      modifies this
      ensures var n := NumberRun(src, start + 1, false);
              var u := UnitRun(src, n.end);
              if n.ok && u.ok then s == Sym(Quantity, src[start..u.end]) && Valid() && pos == u.end
              else s == ILLEGAL
    {
      var hasDot := false;
      while IsDigit(ch) || ch == '.'
        invariant Valid() && start < pos && NumberRun(src, pos, hasDot) == NumberRun(src, start + 1, false)
        decreases |src| - pos
      {
        if ch == '.' {
          if hasDot {
            return ILLEGAL;
          }
          hasDot := true;
        }
        Next();
      }
      if IsUnitStart(ch) {
        Next();
        if ch != 'b' && ch != 'B' {
          return ILLEGAL;
        }
        Next();
      }
      s := Sym(Quantity, src[start..offset - 1]);
    }

    method ScanLiteral(q: char) returns (s: Sym)
      requires Valid() && IsDelimiter(q) && pos > 0
      modifies this
      ensures match LiteralRun(src, old(pos), q)
              case Closed(text, end) =>
                s == Sym(if q == '/' then RegexLit else StringLit, text) && Valid() && pos == end
              case Unclosed => s == ILLEGAL
    {
      hide LiteralRun, PrependAll;
      var chars := "";
      ghost var whole := LiteralRun(src, pos, q);
      assert whole == PrependAll("", whole) by { PrependNothing(whole); }
      while ch != q
        invariant Valid() && pos > 0 && whole == PrependAll(chars, LiteralRun(src, pos, q))
        decreases |src| - pos
      {
        LiteralStep(src, pos, q, chars);
        if ch == '\0' {
          return ILLEGAL;
        }
        if ch == '\\' && offset < |src| && src[offset] == q {
          Next();
        }
        chars := chars + [ch];
        Next();
      }
      LiteralStep(src, pos, q, chars);
      Next();
      s := Sym(if q == '/' then RegexLit else StringLit, chars);
    }

    method ScanOperator(c: char) returns (s: Sym)
      requires Valid()
      modifies this
      ensures var (t, n) := OperatorSym(c, At(src, old(pos)));
              s == t && Valid() && pos == old(pos) + n - 1
    {
      var r := OperatorSym(c, ch);
      s := r.0;
      if r.1 == 2 {
        Next();
      }
    }
  }
}
