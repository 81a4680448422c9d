/** The parts of Python's built-ins that the mapper and the downloader lean
    on: the exceptions they can raise, `str.isdigit`, `str.capitalize`,
    `str.lower`, `str.strip`, substring `in`, and `int(str)`. Character
    classes and case mapping are those of ASCII; whitespace is Python's full
    `str.isspace` set. */
module PyBuiltins {
  import opened Wrappers

  /** The exceptions that leave the modelled code. */
  datatype PyError =
    | IndexError        // `xs[0]` on an empty XPath result
    | KeyError          // a month or season name missing from its table
    | ValueError        // `int()` of a non-number, or `date()` out of range
    | OverflowError     // a `date()` argument beyond the range of a C int
    | XMLSyntaxError    // the registry answered with a malformed document
    | PubmedMapperError // no date strategy recognised the PubDate element
    | AttributeError    // an attribute read on `None`

  predicate IsDigit(c: char) {
    '0' <= c <= '9'
  }

  predicate IsLetter(c: char) {
    'a' <= c <= 'z' || 'A' <= c <= 'Z'
  }

  /** `c.isspace()`: the characters Python treats as whitespace. */
  predicate IsSpace(c: char) {
    var n := c as int;
    (9 <= n <= 13) || (28 <= n <= 32) || n == 0x85 || n == 0xA0 || n == 0x1680
    || (0x2000 <= n <= 0x200A) || n == 0x2028 || n == 0x2029 || n == 0x202F
    || n == 0x205F || n == 0x3000
  }

  predicate AllDigits(s: string) {
    forall i :: 0 <= i < |s| ==> IsDigit(s[i])
  }

  predicate AllLetters(s: string) {
    forall i :: 0 <= i < |s| ==> IsLetter(s[i])
  }

  predicate AllSpace(s: string) {
    forall i :: 0 <= i < |s| ==> IsSpace(s[i])
  }

  /** `s.isdigit()`: true only for a non-empty string of digits. */
  predicate IsDigitString(s: string) {
    |s| > 0 && AllDigits(s)
  }

  function UpperChar(c: char): char {
    if 'a' <= c <= 'z' then (c as int - 32) as char else c
  }

  /** `if s:` on an optional string. */
  predicate Truthy(s: Option<string>) {
    s.Some? && s.value != ""
  }

  function LowerChar(c: char): char {
    if 'A' <= c <= 'Z' then (c as int + 32) as char else c
  }

  /** `s.lower()` */
  function Lower(s: string): (r: string)
    ensures |r| == |s|
    ensures forall i :: 0 <= i < |s| ==> r[i] == LowerChar(s[i])
  {
    seq(|s|, i requires 0 <= i < |s| => LowerChar(s[i]))
  }

  /** `s.capitalize()`: first character upper-cased, all others lower-cased. */
  function Capitalize(s: string): (r: string)
    ensures |r| == |s|
    ensures |s| > 0 ==> r[0] == UpperChar(s[0])
    ensures forall i :: 0 < i < |s| ==> r[i] == LowerChar(s[i])
  {
    if s == [] then [] else [UpperChar(s[0])] + Lower(s[1..])
  }

  /** Capitalising letters gives letters, so a capitalised word still
      matches `[a-zA-Z]+`. */
  lemma CapitalizeKeepsLetters(s: string)
    requires AllLetters(s)
    ensures AllLetters(Capitalize(s))
  {
  }

  /** Digits have no case: capitalising a number leaves it as it is. */
  lemma CapitalizeKeepsDigits(s: string)
    requires AllDigits(s)
    ensures Capitalize(s) == s
  {
  }

  /** Removes leading whitespace. */
  function StripLeft(s: string): (r: string)
    ensures |r| <= |s|
    decreases |s|
  {
    if |s| > 0 && IsSpace(s[0]) then StripLeft(s[1..]) else s
  }

  /** Removes trailing whitespace. */
  function StripRight(s: string): (r: string)
    ensures |r| <= |s|
    decreases |s|
  {
    if |s| > 0 && IsSpace(s[|s| - 1]) then StripRight(s[..|s| - 1]) else s
  }

  /** `lstrip()` keeps a suffix that does not start with whitespace. */
  lemma {:induction false} StripLeftKeepsSuffix(s: string)
    ensures var r := StripLeft(s);
      |r| <= |s| && r == s[|s| - |r|..] && (r == [] || !IsSpace(r[0]))
    decreases |s|
  {
    if |s| > 0 && IsSpace(s[0]) {
      StripLeftKeepsSuffix(s[1..]);
    }
  }

  /** ... and what it drops is whitespace. */
  lemma {:induction false} StripLeftDropsSpace(s: string)
    ensures |StripLeft(s)| <= |s| && AllSpace(s[..|s| - |StripLeft(s)|])
    decreases |s|
  {
    if |s| > 0 && IsSpace(s[0]) {
      StripLeftDropsSpace(s[1..]);
      var n := |s| - 1 - |StripLeft(s[1..])|;
      assert s[..n + 1] == [s[0]] + s[1..][..n];
    }
  }

  /** `rstrip()` keeps a prefix that does not end with whitespace. */
  lemma {:induction false} StripRightKeepsPrefix(s: string)
    ensures var r := StripRight(s);
      |r| <= |s| && r == s[..|r|] && (r == [] || !IsSpace(r[|r| - 1]))
    decreases |s|
  {
    if |s| > 0 && IsSpace(s[|s| - 1]) {
      StripRightKeepsPrefix(s[..|s| - 1]);
    }
  }

  /** ... and what it drops is whitespace. */
  lemma {:induction false} StripRightDropsSpace(s: string)
    ensures |StripRight(s)| <= |s| && AllSpace(s[|StripRight(s)|..])
    decreases |s|
  {
    if |s| > 0 && IsSpace(s[|s| - 1]) {
      var t := s[..|s| - 1];
      StripRightDropsSpace(t);
      assert s[|StripRight(t)|..] == t[|StripRight(t)|..] + [s[|s| - 1]];
    }
  }

  /** `s.strip()`: the result has no whitespace at either end. */
  function Strip(s: string): (r: string)
    ensures r == [] || (!IsSpace(r[0]) && !IsSpace(r[|r| - 1]))
  {
    var l := StripLeft(s);
    StripLeftKeepsSuffix(s);
    StripRightKeepsPrefix(l);
    var r := StripRight(l);
    assert r != [] ==> r[0] == l[0];
    r
  }

  /** `strip()` removes whitespace only, and only from the two ends: the
      result is the part of `s` between a whitespace prefix and a whitespace
      suffix. */
  lemma StripShape(s: string)
    ensures var i := |s| - |StripLeft(s)|; var r := Strip(s);
      && i + |r| <= |s| && r == s[i..i + |r|]
      && AllSpace(s[..i]) && AllSpace(s[i + |r|..])
  {
    StripIsSlice(s);
    StripLeavesSpaceAfter(s);
    StripLeftDropsSpace(s);
  }

  lemma StripIsSlice(s: string)
    ensures var i := |s| - |StripLeft(s)|; var r := Strip(s);
      i + |r| <= |s| && r == s[i..i + |r|]
  {
    var l := StripLeft(s);
    StripLeftKeepsSuffix(s);
    StripRightKeepsPrefix(l);
    var r := StripRight(l);
    var i := |s| - |l|;
    assert s[i..i + |r|] == l[..|r|];
  }

  lemma StripLeavesSpaceAfter(s: string)
    ensures var i := |s| - |StripLeft(s)|; var r := Strip(s);
      i + |r| <= |s| && AllSpace(s[i + |r|..])
  {
    var l := StripLeft(s);
    StripLeftKeepsSuffix(s);
    StripRightDropsSpace(l);
    var r := StripRight(l);
    var i := |s| - |l|;
    assert s[i + |r|..] == l[|r|..];
  }

  /** A string that neither starts nor ends with whitespace is unchanged by
      `strip()`. */
  lemma StripUnchanged(s: string)
    requires s == [] || (!IsSpace(s[0]) && !IsSpace(s[|s| - 1]))
    ensures Strip(s) == s
  {
  }

  /** `t in s` for strings: `t` occurs as a contiguous part of `s`. */
  predicate Contains(s: string, t: string)
    decreases |s|
  {
    |t| <= |s| && (s[..|t|] == t || (|s| > 0 && Contains(s[1..], t)))
  }

  lemma {:induction false} ContainsPrefix(t: string, u: string)
    ensures Contains(t + u, t)
  {
    assert (t + u)[..|t|] == t;
  }

  function DigitValue(c: char): nat
    requires IsDigit(c)
  {
    c as int - '0' as int
  }

  /** The number written by a run of digits, `_` separators skipped. */
  function DigitsValue(s: string): nat
    requires forall i :: 0 <= i < |s| ==> IsDigit(s[i]) || s[i] == '_'
    decreases |s|
  {
    if s == [] then 0
    else if s[|s| - 1] == '_' then DigitsValue(s[..|s| - 1])
    else 10 * DigitsValue(s[..|s| - 1]) + DigitValue(s[|s| - 1])
  }

  /** The digit part `int()` accepts: digits, with single underscores
      allowed between two digits. */
  predicate IntLiteral(s: string) {
    && |s| > 0 && IsDigit(s[0]) && IsDigit(s[|s| - 1])
    && (forall i :: 0 <= i < |s| ==> IsDigit(s[i]) || s[i] == '_')
    && (forall i :: 0 <= i < |s| - 1 ==> s[i] == '_' ==> s[i + 1] != '_')
  }

  /** `int(s)`, with `None` where Python raises `ValueError`: surrounding
      whitespace is ignored, then an optional sign and a decimal literal. */
  function ParseInt(s: string): (r: Option<int>)
    ensures IsDigitString(s) ==> r == Some(DigitsValue(s))
  {
    var t := Strip(s);
    if |t| > 0 && (t[0] == '+' || t[0] == '-') then
      if IntLiteral(t[1..]) then
        var v: int := DigitsValue(t[1..]);
        Some(if t[0] == '-' then -v else v)
      else None
    else if IntLiteral(t) then Some(DigitsValue(t))
    else None
  }

  function Pow10(n: nat): (r: nat)
    ensures r >= 1
  {
    if n == 0 then 1 else 10 * Pow10(n - 1)
  }

  lemma {:induction false} Pow10Monotone(m: nat, n: nat)
    requires m <= n
    ensures Pow10(m) <= Pow10(n)
    decreases n
  {
    if m < n {
      Pow10Monotone(m, n - 1);
    }
  }

  /** `n` digits write a number below `10^n`. */
  lemma {:induction false} DigitsValueBound(s: string)
    requires forall i :: 0 <= i < |s| ==> IsDigit(s[i]) || s[i] == '_'
    ensures DigitsValue(s) < Pow10(|s|)
    decreases |s|
  {
    if s != [] {
      DigitsValueBound(s[..|s| - 1]);
    }
  }

  lemma StripShorter(s: string)
    ensures |Strip(s)| <= |s|
  {
    StripShape(s);
  }

  /** `int()` of a text of `n` characters lies strictly between `-10^n`
      and `10^n`. */
  lemma ParseIntBound(s: string)
    ensures ParseInt(s).Some? ==> -(Pow10(|s|) as int) < ParseInt(s).value < Pow10(|s|)
  {
    var t := Strip(s);
    StripShorter(s);
    if |t| > 0 && (t[0] == '+' || t[0] == '-') {
      if IntLiteral(t[1..]) {
        DigitsValueBound(t[1..]);
        Pow10Monotone(|t| - 1, |s|);
      }
    } else if IntLiteral(t) {
      DigitsValueBound(t);
      Pow10Monotone(|t|, |s|);
    }
  }

  /** `int()` of a word raises: letters are neither whitespace, sign nor
      digit. */
  lemma ParseIntOfWord(s: string)
    requires |s| > 0 && AllLetters(s)
    ensures ParseInt(s) == None
  {
    LetterIsNotSpace(s[0]);
    LetterIsNotSpace(s[|s| - 1]);
    StripUnchanged(s);
    assert !IsDigit(s[0]) && s[0] != '+' && s[0] != '-';
  }

  lemma LetterIsNotSpace(c: char)
    requires IsLetter(c)
    ensures !IsSpace(c)
  {
  }

  /** Decimal rendering of a natural number, as `str(n)` writes it. */
  function NatToString(n: nat): (r: string)
    ensures IsDigitString(r)
    decreases n
  {
    var d := [('0' as int + n % 10) as char];
    if n < 10 then d else NatToString(n / 10) + d
  }

  /** `int(str(n)) == n`: reading back a rendered number gives the number. */
  lemma {:induction false} ParseIntOfNatToString(n: nat)
    ensures ParseInt(NatToString(n)) == Some(n)
  {
    DigitsValueOfNatToString(n);
  }

  lemma {:induction false} DigitsValueOfNatToString(n: nat)
    ensures DigitsValue(NatToString(n)) == n
    decreases n
  {
    var s := NatToString(n);
    if n >= 10 {
      DigitsValueOfNatToString(n / 10);
      assert s[..|s| - 1] == NatToString(n / 10);
    }
  }
}
