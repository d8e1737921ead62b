/**
 * The names `symbolic_matrix(base, rows, cols)` gives its entries: the text
 * "%s%d,%d" % (base, r + 1, c + 1) with every ASCII digit of it, those of the
 * base included, replaced by the matching subscript digit U+2080..U+2089.
 */
module SymbolicNames {

  predicate IsDigit(c: char) { '0' <= c <= '9' }

  function DigitChar(d: nat): (c: char)
    requires d < 10
    ensures IsDigit(c)
  {
    (48 + d) as char
  }

  /** "%d" of a non-negative integer. */
  function Digits(n: nat): (s: string)
    ensures |s| >= 1 && forall i :: 0 <= i < |s| ==> IsDigit(s[i])
  {
    if n < 10 then [DigitChar(n)] else Digits(n / 10) + [DigitChar(n % 10)]
  }

  /** The number a string of decimal digits denotes. */
  function Value(s: string): nat
    requires forall i :: 0 <= i < |s| ==> IsDigit(s[i])
  {
    if s == [] then 0 else Value(s[..|s| - 1]) * 10 + DigitValue(s[|s| - 1])
  }

  function DigitValue(c: char): (d: nat)
    requires IsDigit(c)
    ensures d < 10
  {
    c as int - '0' as int
  }

  /** Reading back the decimal text of n gives n. */
  lemma {:induction false} DigitsRoundTrip(n: nat)
    ensures Value(Digits(n)) == n
  {
    if n >= 10 {
      var s := Digits(n);
      assert s[..|s| - 1] == Digits(n / 10);
      DigitsRoundTrip(n / 10);
    }
  }

  lemma DigitsInjective(m: nat, n: nat)
    requires Digits(m) == Digits(n)
    ensures m == n
  {
    DigitsRoundTrip(m);
    DigitsRoundTrip(n);
  }

  /** The translation table: ASCII digit d becomes subscript digit d. */
  function SubChar(c: char): char {
    if IsDigit(c) then (c as int - 48 + 0x2080) as char else c
  }

  /** `s.translate(SUB)`. */
  function Translate(s: string): (r: string)
    ensures |r| == |s|
    ensures forall i :: 0 <= i < |s| ==> r[i] == SubChar(s[i])
    ensures forall i :: 0 <= i < |r| ==> !IsDigit(r[i])
  {
    seq(|s|, i requires 0 <= i < |s| => SubChar(s[i]))
  }

  /** The "%d,%d" part of the name of entry (r, c), counted from 0. */
  function Label(r: nat, c: nat): string {
    Digits(r + 1) + "," + Digits(c + 1)
  }

  /** The name of entry (r, c), counted from 0: the base with its digits
      subscripted, then the subscripted label; it holds no ASCII digit. */
  function VarName(base: string, r: nat, c: nat): (name: string)
    ensures |name| == |base| + |Label(r, c)|
    ensures forall i :: 0 <= i < |base| ==> name[i] == SubChar(base[i])
    ensures forall i :: 0 <= i < |name| ==> !IsDigit(name[i])
  {
    Translate(base + Label(r, c))
  }

  /**
   * The loop of `symbolic_matrix`: an empty rows x cols array filled row by
   * row with the entry names (the symbols themselves are foreign objects;
   * the array holds their names).
   */
  method SymbolicMatrix(base: string, rows: nat, cols: nat) returns (w: array2<string>)
    ensures fresh(w) && w.Length0 == rows && w.Length1 == cols
    ensures forall r, c :: 0 <= r < rows && 0 <= c < cols ==> w[r, c] == VarName(base, r, c)
  {
    w := new string[rows, cols]((r, c) => "");
    for r := 0 to rows
      invariant forall a, b :: 0 <= a < r && 0 <= b < cols ==> w[a, b] == VarName(base, a, b)
    {
      for c := 0 to cols
        invariant forall a, b :: 0 <= a < r && 0 <= b < cols ==> w[a, b] == VarName(base, a, b)
        invariant forall b :: 0 <= b < c ==> w[r, b] == VarName(base, r, b)
      {
        var name := base + Digits(r + 1) + "," + Digits(c + 1);
        assert name == base + Label(r, c);
        w[r, c] := Translate(name);
      }
    }
  }

  // ---------------------------------------------------------------------
  // Properties of the names

  lemma TranslateConcat(a: string, b: string)
    ensures Translate(a + b) == Translate(a) + Translate(b)
  {
  }

  /** Digits and ',' are translated one-to-one. */
  lemma TranslateInjective(x: string, y: string)
    requires forall i :: 0 <= i < |x| ==> IsDigit(x[i]) || x[i] == ','
    requires forall i :: 0 <= i < |y| ==> IsDigit(y[i]) || y[i] == ','
    requires Translate(x) == Translate(y)
    ensures x == y
  {
    forall i | 0 <= i < |x|
      ensures x[i] == y[i]
    {
      assert SubChar(x[i]) == SubChar(y[i]);
    }
  }

  /** In "d,e" with d a digit string, the first ',' is at position |d|. */
  lemma CommaAfterDigits(d: string, e: string)
    requires forall i :: 0 <= i < |d| ==> IsDigit(d[i])
    ensures (d + "," + e)[|d|] == ','
    ensures forall i :: 0 <= i < |d| ==> (d + "," + e)[i] != ','
  {
  }

  /** "d,e" determines d and e when both are digit strings. */
  lemma SplitAtComma(d1: string, e1: string, d2: string, e2: string)
    requires forall i :: 0 <= i < |d1| ==> IsDigit(d1[i])
    requires forall i :: 0 <= i < |d2| ==> IsDigit(d2[i])
    requires d1 + "," + e1 == d2 + "," + e2
    ensures d1 == d2 && e1 == e2
  {
    var s := d1 + "," + e1;
    CommaAfterDigits(d1, e1);
    CommaAfterDigits(d2, e2);
    assert |d1| == |d2|;
    assert d1 == s[..|d1|] && d2 == s[..|d2|];
    assert e1 == s[|d1| + 1..] && e2 == s[|d2| + 1..];
  }

  /** Two texts with the same prefix translate equally only if their
      remainders do. */
  lemma TranslateCancelPrefix(b: string, x: string, y: string)
    requires Translate(b + x) == Translate(b + y)
    ensures Translate(x) == Translate(y)
  {
    TranslateConcat(b, x);
    TranslateConcat(b, y);
    var t := Translate(b);
    assert Translate(x) == (t + Translate(x))[|t|..];
    assert Translate(y) == (t + Translate(y))[|t|..];
  }

  lemma LabelChars(r: nat, c: nat)
    ensures forall i :: 0 <= i < |Label(r, c)| ==> IsDigit(Label(r, c)[i]) || Label(r, c)[i] == ','
  {
    var d, e := Digits(r + 1), Digits(c + 1);
    forall i | 0 <= i < |Label(r, c)|
      ensures IsDigit(Label(r, c)[i]) || Label(r, c)[i] == ','
    {
      if i > |d| {
        assert Label(r, c)[i] == e[i - |d| - 1];
      }
    }
  }

  /** Different entries of the matrix get different names. */
  lemma VarNameInjective(base: string, r1: nat, c1: nat, r2: nat, c2: nat)
    requires VarName(base, r1, c1) == VarName(base, r2, c2)
    ensures r1 == r2 && c1 == c2
  {
    TranslateCancelPrefix(base, Label(r1, c1), Label(r2, c2));
    LabelChars(r1, c1);
    LabelChars(r2, c2);
    TranslateInjective(Label(r1, c1), Label(r2, c2));
    SplitAtComma(Digits(r1 + 1), Digits(c1 + 1), Digits(r2 + 1), Digits(c2 + 1));
    DigitsInjective(r1 + 1, r2 + 1);
    DigitsInjective(c1 + 1, c2 + 1);
  }
}
