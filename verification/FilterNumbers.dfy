/** The numbers a quantity can denote: finite decimals, each with a text of its own. */
module FilterNumbers {
  import opened FilterSyntax

  /** n shifted k decimal places to the right. */
  function Decimal(n: nat, k: nat): real { n as real / Pow10(k) as real }

  /** Not negative, with finitely many decimal places. */
  ghost predicate FiniteDecimal(a: real) { exists n: nat, k: nat :: a == Decimal(n, k) }

  function DigitChar(d: nat): (c: char)
    requires d < 10
    ensures IsDigit(c) && c as int - '0' as int == d
  {
    ('0' as int + d) as char
  }

  /** The last len digits of n. */
  function DigitsText(n: nat, len: nat): (t: string)
    ensures |t| == len
  {
    if len == 0 then "" else DigitsText(n / 10, len - 1) + [DigitChar(n % 10)]
  }

  lemma {:induction false} DigitsTextDigits(n: nat, len: nat)
    ensures DigitsBetween(DigitsText(n, len), 0, len)
    decreases len
  {
    if len > 0 {
      DigitsTextDigits(n / 10, len - 1);
    }
  }

  lemma {:induction false} DigitsOfPrefix(s: string, t: string, i: nat, j: nat)
    requires i <= j <= |s| && DigitsBetween(s, i, j)
    ensures DigitsBetween(s + t, i, j) && DigitsValue(s + t, i, j) == DigitsValue(s, i, j)
    decreases j
  {
    assert forall x :: i <= x < j ==> (s + t)[x] == s[x];
    if i < j {
      DigitsOfPrefix(s, t, i, j - 1);
    }
  }

  lemma {:induction false} DigitsOfSuffix(s: string, t: string, j: nat)
    requires j <= |t| && DigitsBetween(t, 0, j)
    ensures DigitsBetween(s + t, |s|, |s| + j) && DigitsValue(s + t, |s|, |s| + j) == DigitsValue(t, 0, j)
    decreases j
  {
    assert forall x :: |s| <= x < |s| + j ==> (s + t)[x] == t[x - |s|];
    if 0 < j {
      DigitsOfSuffix(s, t, j - 1);
    }
  }

  lemma {:induction false} DigitsTextValue(n: nat, len: nat)
    requires n < Pow10(len)
    ensures DigitsBetween(DigitsText(n, len), 0, len) && DigitsValue(DigitsText(n, len), 0, len) == n
    decreases len
  {
    DigitsTextDigits(n, len);
    if len > 0 {
      var front := DigitsText(n / 10, len - 1);
      DigitsTextValue(n / 10, len - 1);
      DigitsOfPrefix(front, [DigitChar(n % 10)], 0, len - 1);
    }
  }

  /** How many digits n has. */
  function Width(n: nat): (w: nat)
    ensures w > 0
  {
    if n < 10 then 1 else 1 + Width(n / 10)
  }

  lemma {:induction false} WidthSuffices(n: nat)
    ensures n < Pow10(Width(n))
    decreases n
  {
    if n >= 10 {
      WidthSuffices(n / 10);
    } else {
      assert Pow10(1) == 10 * Pow10(0);
    }
  }

  function WholeText(n: nat): (t: string)
    ensures t != ""
  {
    DigitsText(n, Width(n))
  }

  function Whole(n: nat, p: nat): nat
    requires p > 0
  {
    n / p
  }

  function DecimalText(n: nat, k: nat): string
  {
    var p := Pow10(k);
    WholeText(Whole(n, p)) + ("." + DigitsText(n % p, k))
  }

  lemma {:induction false} DotBehindDigits(w: string, t: string)
    requires DigitsBetween(w, 0, |w|)
    ensures DotIndex(w + ("." + t)) == |w|
    decreases |w|
  {
    if w == "" {
      assert w + ("." + t) == "." + t;
    } else {
      assert (w + ("." + t))[1..] == w[1..] + ("." + t);
      DotBehindDigits(w[1..], t);
    }
  }

  /** The text of a decimal is a decimal, and denotes it. */
  lemma DecimalTextParses(n: nat, k: nat)
    ensures IsDecimal(DecimalText(n, k)) && ParseDecimal(DecimalText(n, k)) == Decimal(n, k)
  {
    hide DigitsText, Width, Pow10, DotIndex, DigitsValue;
    var p := Pow10(k);
    var whole, part := Whole(n, p), n % p;
    var w, t := WholeText(whole), DigitsText(part, k);
    var s := w + ("." + t);
    WidthSuffices(whole);
    DigitsTextValue(whole, Width(whole));
    DigitsTextValue(part, k);
    DotBehindDigits(w, t);
    DigitsOfPrefix(w, "." + t, 0, |w|);
    assert s == (w + ".") + t;
    DigitsOfSuffix(w + ".", t, k);
    SplitDecimal(n, p);
  }

  lemma SplitDecimal(n: nat, p: nat)
    requires p > 0
    ensures (n / p) as real + (n % p) as real / p as real == n as real / p as real
  {
    assert n == (n / p) * p + n % p;
    assert n as real == (n / p) as real * p as real + (n % p) as real;
  }

  lemma JoinDecimal(w: nat, f: nat, p: nat)
    requires p > 0
    ensures w as real + f as real / p as real == (w * p + f) as real / p as real
  {
    assert (w * p + f) as real == w as real * p as real + f as real;
  }

  /** Whatever its text, a number read is a finite decimal. */
  lemma ParsedIsFinite(s: string)
    ensures FiniteDecimal(ParseDecimal(s))
  {
    if !IsDecimal(s) {
      assert 0.0 == Decimal(0, 0);
    } else {
      hide IsDecimal, DigitsValue, Pow10;
      var d := DotIndex(s);
      assert DigitsBetween(s, 0, d) && DigitsBetween(s, d + 1, |s|) by { DecimalParts(s); }
      var w := DigitsValue(s, 0, d);
      if d < |s| {
        var k, f := |s| - d - 1, DigitsValue(s, d + 1, |s|);
        JoinDecimal(w, f, Pow10(k));
        assert ParseDecimal(s) == Decimal(w * Pow10(k) + f, k);
      } else {
        WholeIsFinite(w);
        assert ParseDecimal(s) == Decimal(w, 0);
      }
    }
  }

  lemma DecimalParts(s: string)
    requires IsDecimal(s)
    ensures DigitsBetween(s, 0, DotIndex(s)) && DigitsBetween(s, DotIndex(s) + 1, |s|)
  {
  }

  lemma WholeIsFinite(w: nat)
    ensures w as real == Decimal(w, 0)
  {
  }

  // ----- quantities -----

  function UnitText(u: QuantityUnit): string
  {
    match u
    case NoUnit => ""
    case Kb => "kb"
    case Mb => "mb"
    case Gb => "gb"
    case Tb => "tb"
  }

  /** Whatever its text, the amount of a quantity is a finite decimal. */
  lemma QuantityIsFinite(val: string)
    ensures FiniteDecimal(QuantityOf(val).amount)
  {
    hide ParseDecimal, FiniteDecimal;
    ParsedIsFinite(val);
    if |val| >= 3 {
      ParsedIsFinite(val[..|val| - 2]);
    }
  }

  lemma UnitRecognized(u: QuantityUnit)
    requires u != NoUnit
    ensures UnitOfSuffix(Lower(UnitText(u))) == u && |UnitText(u)| == 2
  {
    assert Lower("kb") == "kb" && Lower("mb") == "mb" && Lower("gb") == "gb" && Lower("tb") == "tb";
  }

  lemma NumberHasNoUnit(s: string)
    requires |s| >= 2 && (IsDigit(s[|s| - 1]) || s[|s| - 1] == '.')
    ensures UnitOfSuffix(Lower(s[|s| - 2..])) == NoUnit
  {
    var t := Lower(s[|s| - 2..]);
    assert t[1] == LowerChar(s[|s| - 1]);
    assert t[1] != 'b';
  }

  lemma DecimalEnd(s: string)
    requires IsDecimal(s)
    ensures s != "" && (IsDigit(s[|s| - 1]) || s[|s| - 1] == '.')
  {
  }

  /** A decimal followed by a unit denotes the amount in that unit. */
  lemma QuantityTextParses(s: string, u: QuantityUnit)
    requires IsDecimal(s)
    ensures QuantityOf(s + UnitText(u)) == QuantityExpr(ParseDecimal(s), u)
  {
    hide IsDecimal, ParseDecimal;
    DecimalEnd(s);
    var val := s + UnitText(u);
    if u == NoUnit {
      assert val == s;
      if |s| >= 3 {
        NumberHasNoUnit(s);
      }
    } else {
      UnitRecognized(u);
      assert val[|val| - 2..] == UnitText(u) && val[..|val| - 2] == s;
    }
  }
}
