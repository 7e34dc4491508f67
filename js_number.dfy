/**
 * When `Number(s)` is NaN for a string `s` (ECMAScript Language Specification,
 * section 7.1.4.1.1, StringToNumber, and its StringNumericLiteral grammar).
 * The escrow and transfer handlers accept an amount exactly when it is
 * non-empty and `isNaN(Number(amount))` is false; this module decides the latter.
 */
module JsNumber {

  /** StrWhiteSpaceChar: WhiteSpace (TAB, VT, FF, ZWNBSP and the Zs category) or LineTerminator. */
  predicate IsWhite(c: char) {
    c == '\U{9}' || c == '\U{B}' || c == '\U{C}' || c == '\U{FEFF}'
    || c == ' ' || c == '\U{A0}' || c == '\U{1680}' || ('\U{2000}' <= c <= '\U{200A}')
    || c == '\U{202F}' || c == '\U{205F}' || c == '\U{3000}'
    || c == '\n' || c == '\r' || c == '\U{2028}' || c == '\U{2029}'
  }

  predicate AllWhite(s: string) {
    forall i :: 0 <= i < |s| ==> IsWhite(s[i])
  }

  predicate IsDigit(c: char) { '0' <= c <= '9' }

  predicate AllDigits(s: string) {
    forall i :: 0 <= i < |s| ==> IsDigit(s[i])
  }

  /** DecimalDigits: one or more decimal digits (string numerals allow no separators). */
  predicate IsDecimalDigits(s: string) { |s| > 0 && AllDigits(s) }

  /** SignedInteger of an ExponentPart. */
  predicate IsSignedInteger(s: string) {
    IsDecimalDigits(s) || (|s| > 0 && (s[0] == '+' || s[0] == '-') && IsDecimalDigits(s[1..]))
  }

  /** The number of decimal digits `s` starts with. */
  function LeadingDigits(s: string): (n: nat)
    ensures n <= |s|
    ensures AllDigits(s[..n])
    ensures n < |s| ==> !IsDigit(s[n])
  {
    if s != [] && IsDigit(s[0]) then 1 + LeadingDigits(s[1..]) else 0
  }

  /** The mantissa of a StrUnsignedDecimalLiteral: `d.`, `d.d`, `.d` or `d`. */
  predicate IsMantissa(s: string) {
    var d := LeadingDigits(s);
    (d == |s| && d > 0)
    || (d < |s| && s[d] == '.' && AllDigits(s[d + 1..]) && (d > 0 || d + 1 < |s|))
  }

  predicate IsExponentMark(c: char) { c == 'e' || c == 'E' }

  /** Index of the first `e` or `E` in `s`, or `|s|` when there is none. */
  function ExponentIndex(s: string): (k: nat)
    ensures k <= |s|
    ensures k < |s| ==> IsExponentMark(s[k])
    ensures forall i :: 0 <= i < k ==> !IsExponentMark(s[i])
  {
    if s == [] then 0
    else if IsExponentMark(s[0]) then 0
    else 1 + ExponentIndex(s[1..])
  }

  /** StrUnsignedDecimalLiteral: `Infinity`, or a mantissa with an optional ExponentPart. */
  predicate IsUnsignedDecimal(s: string) {
    s == "Infinity"
    || (var k := ExponentIndex(s);
        if k == |s| then IsMantissa(s) else IsMantissa(s[..k]) && IsSignedInteger(s[k + 1..]))
  }

  /** StrDecimalLiteral: an optionally signed StrUnsignedDecimalLiteral. */
  predicate IsStrDecimalLiteral(s: string) {
    if |s| > 0 && (s[0] == '+' || s[0] == '-') then IsUnsignedDecimal(s[1..]) else IsUnsignedDecimal(s)
  }

  predicate IsHexDigit(c: char) { IsDigit(c) || 'a' <= c <= 'f' || 'A' <= c <= 'F' }

  /** NonDecimalIntegerLiteral: `0b`, `0o` or `0x` (either case) and at least one digit of that base; no sign. */
  predicate IsNonDecimalIntegerLiteral(s: string) {
    |s| >= 3 && s[0] == '0' &&
    (  ((s[1] == 'b' || s[1] == 'B') && forall i :: 2 <= i < |s| ==> s[i] == '0' || s[i] == '1')
    || ((s[1] == 'o' || s[1] == 'O') && forall i :: 2 <= i < |s| ==> '0' <= s[i] <= '7')
    || ((s[1] == 'x' || s[1] == 'X') && forall i :: 2 <= i < |s| ==> IsHexDigit(s[i])))
  }

  /** StrNumericLiteral. */
  predicate IsStrNumericLiteral(s: string) {
    IsStrDecimalLiteral(s) || IsNonDecimalIntegerLiteral(s)
  }

  /** `s` without its leading white space. */
  function TrimStart(s: string): (r: string)
    ensures |r| <= |s| && r == s[|s| - |r|..]
    ensures AllWhite(s[..|s| - |r|])
    ensures r == [] || !IsWhite(r[0])
  {
    if s != [] && IsWhite(s[0]) then TrimStart(s[1..]) else s
  }

  /** `s` without its trailing white space. */
  function TrimEnd(s: string): (r: string)
    ensures |r| <= |s| && r == s[..|r|]
    ensures AllWhite(s[|r|..])
    ensures r == [] || !IsWhite(r[|r| - 1])
  {
    if s != [] && IsWhite(s[|s| - 1]) then TrimEnd(s[..|s| - 1]) else s
  }

  function Trim(s: string): string { TrimEnd(TrimStart(s)) }

  /**
   * `!isNaN(Number(s))`: after removing surrounding white space, `s` is empty
   * (Number gives 0) or a StrNumericLiteral.
   */
  predicate IsNumeric(s: string) {
    var t := Trim(s);
    t == [] || IsStrNumericLiteral(t)
  }

  /**
   * The grammar as the standard states it: StringNumericLiteral is optional
   * white space, optionally a StrNumericLiteral, then optional white space.
   */
  ghost predicate IsStringNumericLiteral(s: string) {
    exists i, j :: SplitsAt(s, i, j)
  }

  /** `s` is white space up to `i`, then empty or a StrNumericLiteral up to `j`, then white space. */
  predicate SplitsAt(s: string, i: int, j: int) {
    0 <= i <= j <= |s| && AllWhite(s[..i]) && AllWhite(s[j..])
    && (i == j || IsStrNumericLiteral(s[i..j]))
  }

  /** A non-empty string that neither starts nor ends with white space. */
  predicate NonWhiteEdges(t: string) {
    |t| > 0 && !IsWhite(t[0]) && !IsWhite(t[|t| - 1])
  }

  lemma MantissaEdges(m: string)
    requires IsMantissa(m)
    ensures NonWhiteEdges(m)
    ensures IsDigit(m[0]) || m[0] == '.'
  {
    var d := LeadingDigits(m);
    if d == |m| {
      assert m[0] == m[..d][0] && m[|m| - 1] == m[..d][d - 1];
    } else {
      if d > 0 { assert m[0] == m[..d][0]; }
      if d + 1 < |m| { assert m[|m| - 1] == m[d + 1..][|m| - d - 2]; }
    }
  }

  lemma SignedIntegerEdges(s: string)
    requires IsSignedInteger(s)
    ensures NonWhiteEdges(s)
  {
    if !IsDecimalDigits(s) {
      assert s[|s| - 1] == s[1..][|s| - 2];
    }
  }

  lemma UnsignedDecimalEdges(u: string)
    requires IsUnsignedDecimal(u)
    ensures NonWhiteEdges(u)
  {
    if u != "Infinity" {
      var k := ExponentIndex(u);
      if k == |u| {
        MantissaEdges(u);
      } else {
        MantissaEdges(u[..k]);
        SignedIntegerEdges(u[k + 1..]);
        assert u[0] == u[..k][0];
        assert u[|u| - 1] == u[k + 1..][|u| - k - 2];
      }
    }
  }

  /** A StrNumericLiteral is made of non-white characters at both of its ends. */
  lemma LiteralEdges(t: string)
    requires IsStrNumericLiteral(t)
    ensures NonWhiteEdges(t)
  {
    if IsStrDecimalLiteral(t) {
      if |t| > 0 && (t[0] == '+' || t[0] == '-') {
        UnsignedDecimalEdges(t[1..]);
        assert t[|t| - 1] == t[1..][|t| - 2];
      } else {
        UnsignedDecimalEdges(t);
      }
    }
  }

  lemma {:induction false} TrimStartSkipsWhite(w: string, x: string)
    requires AllWhite(w)
    ensures TrimStart(w + x) == TrimStart(x)
  {
    if w != [] {
      assert (w + x)[1..] == w[1..] + x;
      TrimStartSkipsWhite(w[1..], x);
    } else {
      assert w + x == x;
    }
  }

  lemma {:induction false} TrimEndSkipsWhite(x: string, w: string)
    requires AllWhite(w)
    ensures TrimEnd(x + w) == TrimEnd(x)
  {
    if w != [] {
      assert (x + w)[..|x + w| - 1] == x + w[..|w| - 1];
      TrimEndSkipsWhite(x, w[..|w| - 1]);
    } else {
      assert x + w == x;
    }
  }

  /** Trimming `s` leaves the middle slice `s[i..j]` with white space on both sides. */
  lemma TrimSplit(s: string) returns (i: nat, j: nat)
    ensures 0 <= i <= j <= |s| && AllWhite(s[..i]) && AllWhite(s[j..]) && s[i..j] == Trim(s)
  {
    var a := TrimStart(s);
    var t := TrimEnd(a);
    i, j := |s| - |a|, |s| - |a| + |t|;
    assert s[i..j] == t;
    assert s[j..] == a[|t|..];
  }

  lemma NumericToGrammar(s: string)
    requires IsNumeric(s)
    ensures IsStringNumericLiteral(s)
  {
    var i, j := TrimSplit(s);
    assert SplitsAt(s, i, j);
  }

  lemma SplitToNumeric(s: string, i: int, j: int)
    requires SplitsAt(s, i, j)
    ensures IsNumeric(s)
  {
    var lit := s[i..j];
    assert s == s[..i] + (lit + s[j..]);
    TrimStartSkipsWhite(s[..i], lit + s[j..]);
    if i == j {
      assert lit + s[j..] == s[j..] + [];
      TrimStartSkipsWhite(s[j..], []);
    } else {
      LiteralEdges(lit);
      assert TrimStart(lit + s[j..]) == lit + s[j..];
      TrimEndSkipsWhite(lit, s[j..]);
      assert TrimEnd(lit) == lit;
    }
  }

  lemma GrammarToNumeric(s: string)
    requires IsStringNumericLiteral(s)
    ensures IsNumeric(s)
  {
    var i, j :| SplitsAt(s, i, j);
    SplitToNumeric(s, i, j);
  }

  /**
   * The trimming recognizer agrees with the grammar: `Number(s)` is a number
   * exactly when `s` is a StringNumericLiteral.
   */
  lemma NumericIffGrammar(s: string)
    ensures IsNumeric(s) <==> IsStringNumericLiteral(s)
  {
    if IsNumeric(s) {
      NumericToGrammar(s);
    }
    if IsStringNumericLiteral(s) {
      GrammarToNumeric(s);
    }
  }

  lemma {:induction false} DigitsScanFully(x: string)
    requires AllDigits(x)
    ensures LeadingDigits(x) == |x| && ExponentIndex(x) == |x|
  {
    if x != [] {
      DigitsScanFully(x[1..]);
    }
  }

  /** Optionally signed decimal integers such as "0", "-5" and "+42" are numbers. */
  lemma SignedIntegerIsNumeric(s: string)
    requires IsSignedInteger(s)
    ensures IsStrNumericLiteral(s) && IsNumeric(s)
  {
    if IsDecimalDigits(s) && s[0] != '+' && s[0] != '-' {
      DigitsScanFully(s);
    } else {
      DigitsScanFully(s[1..]);
    }
    SignedIntegerEdges(s);
    assert TrimStart(s) == s;
    assert TrimEnd(s) == s;
  }

  /** A non-empty run of white space converts to 0, not NaN. */
  lemma WhiteSpaceIsNumeric(s: string)
    requires AllWhite(s)
    ensures IsNumeric(s)
  {
    TrimStartSkipsWhite(s, []);
    assert s + [] == s;
  }
}
