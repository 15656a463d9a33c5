/**
 * The JavaScript string built-ins the core relies on: `String.prototype.trim`,
 * the regular-expression class `\s`, `String.prototype.indexOf` and
 * `Number.prototype.toString` on non-negative integers, and `parseFloat` on
 * strings of digits and dots.
 * Strings are sequences of characters; none of the character classes below
 * depends on the UTF-16 encoding JavaScript uses underneath.
 */
module Text {
  import opened Options

  /** ECMAScript WhiteSpace or LineTerminator: what `trim` removes and `\s` matches. */
  predicate IsSpace(c: char) {
    c == '\t' || c == '\n' || c == '\U{B}' || c == '\U{C}' || c == '\r' || c == ' '
    || c == '\U{A0}' || c == '\U{1680}' || ('\U{2000}' <= c <= '\U{200A}')
    || c == '\U{2028}' || c == '\U{2029}' || c == '\U{202F}' || c == '\U{205F}'
    || c == '\U{3000}' || c == '\U{FEFF}'
  }

  predicate AllSpace(s: string) {
    forall i :: 0 <= i < |s| ==> IsSpace(s[i])
  }

  /** No whitespace at either end; the empty string is trimmed. */
  predicate Trimmed(s: string) {
    s == [] || (!IsSpace(s[0]) && !IsSpace(s[|s| - 1]))
  }

  /** Drops the leading whitespace. */
  function TrimStart(s: string): (r: string)
    ensures |r| <= |s| && r == s[|s| - |r|..]
    ensures AllSpace(s[..|s| - |r|])
    ensures r == [] || !IsSpace(r[0])
  {
    if s != [] && IsSpace(s[0]) then
      var r := TrimStart(s[1..]);
      SpaceBeforeSuffix(s, r);
      r
    else s
  }

  /** Drops the trailing whitespace. */
  function TrimEnd(s: string): (r: string)
    ensures |r| <= |s| && r == s[..|r|]
    ensures AllSpace(s[|r|..])
    ensures r == [] || !IsSpace(r[|r| - 1])
  {
    if s != [] && IsSpace(s[|s| - 1]) then
      var r := TrimEnd(s[..|s| - 1]);
      SpaceAfterPrefix(s, r);
      r
    else s
  }

  /** A suffix of `s[1..]` after whitespace is a suffix of `s` after whitespace, when `s[0]` is whitespace. */
  lemma SpaceBeforeSuffix(s: string, r: string)
    requires s != [] && IsSpace(s[0])
    requires |r| <= |s| - 1 && r == s[1..][|s| - 1 - |r|..] && AllSpace(s[1..][..|s| - 1 - |r|])
    ensures r == s[|s| - |r|..] && AllSpace(s[..|s| - |r|])
  {
    var k := |s| - |r|;
    assert s[1..][k - 1..] == s[k..];
    forall i | 0 < i < k ensures IsSpace(s[..k][i]) {
      assert s[..k][i] == s[1..][..k - 1][i - 1];
    }
  }

  /** A prefix of `s[..|s| - 1]` before whitespace is a prefix of `s` before whitespace, when `s`'s last character is whitespace. */
  lemma SpaceAfterPrefix(s: string, r: string)
    requires s != [] && IsSpace(s[|s| - 1])
    requires |r| <= |s| - 1 && r == s[..|s| - 1][..|r|] && AllSpace(s[..|s| - 1][|r|..])
    ensures r == s[..|r|] && AllSpace(s[|r|..])
  {
    assert s[..|s| - 1][..|r|] == s[..|r|];
    forall i | 0 <= i < |s| - 1 - |r| ensures IsSpace(s[|r|..][i]) {
      assert s[|r|..][i] == s[..|s| - 1][|r|..][i];
    }
  }

  /** `String.prototype.trim`: whitespace removed from both ends. */
  function Trim(s: string): (r: string)
    ensures Trimmed(r) && |r| <= |s|
  {
    TrimEnd(TrimStart(s))
  }

  /** The trim of `s` is the infix of `s` at some offset `a`, with only whitespace around it. */
  lemma TrimInfix(s: string) returns (a: nat)
    ensures a + |Trim(s)| <= |s| && Trim(s) == s[a..a + |Trim(s)|]
    ensures AllSpace(s[..a]) && AllSpace(s[a + |Trim(s)|..])
  {
    var t := TrimStart(s);
    a := |s| - |t|;
    InfixBetweenSpace(s, a, t, TrimEnd(t));
  }

  /** A prefix `r` of the suffix `t` of `s` at `a`, with only whitespace around it in `s`. */
  lemma InfixBetweenSpace(s: string, a: nat, t: string, r: string)
    requires a <= |s| && t == s[a..] && AllSpace(s[..a])
    requires |r| <= |t| && r == t[..|r|] && AllSpace(t[|r|..])
    ensures a + |r| <= |s| && r == s[a..a + |r|]
    ensures AllSpace(s[..a]) && AllSpace(s[a + |r|..])
  {
    assert s[a + |r|..] == t[|r|..];
  }

  /** A string with no whitespace at its ends is its own trim. */
  lemma TrimOfTrimmed(s: string)
    requires Trimmed(s)
    ensures Trim(s) == s
  {
  }

  /** A string that ends in a non-whitespace character is not blank. */
  lemma NotBlank(s: string)
    requires s != [] && !IsSpace(s[|s| - 1])
    ensures Trim(s) != []
  {
    var t := TrimStart(s);
    assert t[|t| - 1] == s[|s| - 1];
  }

  /** `pat` occurs in `s` starting at position `p`. */
  predicate OccursAt(s: string, p: nat, pat: string) {
    p + |pat| <= |s| && s[p..p + |pat|] == pat
  }

  predicate StartsWith(s: string, pat: string) {
    |pat| <= |s| && s[..|pat|] == pat
  }

  /** `String.prototype.indexOf`: the first position where `pat` occurs, or -1 when it occurs nowhere. */
  function IndexOf(s: string, pat: string): (r: int)
    ensures -1 <= r <= |s|
    ensures r >= 0 ==> OccursAt(s, r, pat)
    ensures forall p :: 0 <= p <= |s| && (r < 0 || p < r) ==> !OccursAt(s, p, pat)
  {
    IndexFrom(s, pat, 0)
  }

  function IndexFrom(s: string, pat: string, from: nat): (r: int)
    requires from <= |s|
    ensures r == -1 || from <= r <= |s|
    ensures r >= 0 ==> OccursAt(s, r, pat)
    ensures forall p :: from <= p <= |s| && (r < 0 || p < r) ==> !OccursAt(s, p, pat)
    decreases |s| - from
  {
    if OccursAt(s, from, pat) then from
    else if from == |s| then -1
    else IndexFrom(s, pat, from + 1)
  }

  function DigitChar(d: nat): (c: char)
    requires d < 10
    ensures '0' <= c <= '9'
  {
    "0123456789"[d]
  }

  /** `n.toString()` for a non-negative integer: its decimal digits, without leading zeros. */
  function Decimal(n: nat): (r: string)
    ensures r != []
    ensures forall i :: 0 <= i < |r| ==> '0' <= r[i] <= '9'
    ensures |r| == 1 <==> n < 10
  {
    if n < 10 then [DigitChar(n)] else Decimal(n / 10) + [DigitChar(n % 10)]
  }

  /** Distinct numbers render as distinct strings. */
  lemma {:induction false} DecimalInjective(m: nat, n: nat)
    requires Decimal(m) == Decimal(n)
    ensures m == n
    decreases m
  {
    if m >= 10 && n >= 10 {
      var dm, dn := Decimal(m), Decimal(n);
      assert dm[..|dm| - 1] == Decimal(m / 10);
      assert dn[..|dn| - 1] == Decimal(n / 10);
      assert DigitChar(m % 10) == dm[|dm| - 1] == dn[|dn| - 1] == DigitChar(n % 10);
      DecimalInjective(m / 10, n / 10);
    }
  }
  predicate IsDigit(c: char) {
    '0' <= c <= '9'
  }

  /** Where the run of decimal digits starting at `i` stops. */
  function DigitEnd(s: string, i: nat): (e: nat)
    requires i <= |s|
    ensures i <= e <= |s|
    ensures forall j :: i <= j < e ==> IsDigit(s[j])
    ensures e == |s| || !IsDigit(s[e])
    decreases |s| - i
  {
    if i < |s| && IsDigit(s[i]) then DigitEnd(s, i + 1) else i
  }

  /** The number the decimal digits `s[i..j]` denote. */
  function DigitsValue(s: string, i: nat, j: nat): (v: nat)
    requires i <= j <= |s|
    decreases j - i
  {
    if j == i then 0
    else DigitsValue(s, i, j - 1) * 10 + ((s[j - 1] as int - '0' as int) % 10)
  }

  function Pow10(n: nat): (p: nat)
    ensures p >= 1
  {
    if n == 0 then 1 else 10 * Pow10(n - 1)
  }

  /**
   * `parseFloat` on a string of decimal digits and dots: the longest prefix of the
   * form `digits`, `digits.digits`, `digits.` or `.digits`, read as an exact
   * rational number; `None` stands for `NaN`, what a string with no such prefix
   * (".", "..5") yields.
   */
  function ParseFloat(s: string): (r: Option<real>)
    ensures r.Some? ==> r.value >= 0.0
    ensures r.None? <==> (s == [] || !IsDigit(s[0])) && (|s| < 2 || s[0] != '.' || !IsDigit(s[1]))
  {
    var n := DigitEnd(s, 0);
    if n < |s| && s[n] == '.' then
      var f := DigitEnd(s, n + 1);
      if n == 0 && f == n + 1 then None
      else Some(DigitsValue(s, 0, n) as real + DigitsValue(s, n + 1, f) as real / Pow10(f - n - 1) as real)
    else if n == 0 then None
    else Some(DigitsValue(s, 0, n) as real)
  }

  /** The digits of a number read back as that number. */
  lemma {:induction false} DigitsValueOfDecimal(n: nat)
    ensures DigitsValue(Decimal(n), 0, |Decimal(n)|) == n
  {
    var d := Decimal(n);
    if n < 10 {
      DigitCharValue(n);
    } else {
      var q := Decimal(n / 10);
      assert d == q + [DigitChar(n % 10)];
      assert d[..|q|] == q;
      assert d[|d| - 1] == DigitChar(n % 10);
      DigitsValuePrefix(d, q, |q|);
      DigitsValueOfDecimal(n / 10);
      DigitCharValue(n % 10);
      var high := DigitsValue(d, 0, |q|);
      assert high == n / 10;
      assert DigitsValue(d, 0, |d|) == high * 10 + n % 10;
    }
  }

  lemma DigitCharValue(d: nat)
    requires d < 10
    ensures (DigitChar(d) as int - '0' as int) % 10 == d
  {
  }

  /** The value of a digit run depends only on the characters in it. */
  lemma {:induction false} DigitsValuePrefix(s: string, t: string, j: nat)
    requires j <= |s| && j <= |t| && s[..j] == t[..j]
    ensures DigitsValue(s, 0, j) == DigitsValue(t, 0, j)
    decreases j
  {
    if j > 0 {
      assert s[j - 1] == s[..j][j - 1] == t[..j][j - 1] == t[j - 1];
      assert s[..j - 1] == s[..j][..j - 1];
      assert t[..j - 1] == t[..j][..j - 1];
      DigitsValuePrefix(s, t, j - 1);
    }
  }

  /** `parseFloat(String(n)) === n` for a non-negative integer `n`. */
  lemma ParseFloatOfDecimal(n: nat)
    ensures ParseFloat(Decimal(n)) == Some(n as real)
  {
    var d := Decimal(n);
    DigitEndAll(d, 0);
    DigitsValueOfDecimal(n);
  }

  /** A string of digits is one digit run. */
  lemma {:induction false} DigitEndAll(s: string, i: nat)
    requires i <= |s| && forall j :: i <= j < |s| ==> IsDigit(s[j])
    ensures DigitEnd(s, i) == |s|
    decreases |s| - i
  {
    if i < |s| {
      DigitEndAll(s, i + 1);
    }
  }
}
