/** The string operations of JavaScript that the catalog's logic uses:
    trim, toLowerCase, includes/startsWith, join, and the decimal conversions
    of String(n) and Number(s). */
module Text {

  /** JavaScript's WhiteSpace and LineTerminator characters (what trim and \s remove). */
  predicate IsSpace(c: char) {
    c == '\t' || c == '\n' || c == '\U{B}' || c == '\U{C}' || c == '\r' || c == ' '
    || c == '\U{A0}' || c == '\U{1680}' || ('\U{2000}' <= c <= '\U{200A}')
    || c == '\U{2028}' || c == '\U{2029}' || c == '\U{202F}' || c == '\U{205F}'
    || c == '\U{3000}' || c == '\U{FEFF}'
  }

  predicate IsDigit(c: char) {
    '0' <= c <= '9'
  }

  predicate AllDigits(s: string) {
    forall i :: 0 <= i < |s| ==> IsDigit(s[i])
  }

  function TrimStart(s: string): (r: string)
    ensures |r| <= |s| && r == s[|s| - |r|..]
    ensures r == [] || !IsSpace(r[0])
  {
    if s != [] && IsSpace(s[0]) then TrimStart(s[1..]) else s
  }

  function TrimEnd(s: string): (r: string)
    ensures |r| <= |s| && r == s[..|r|]
    ensures r == [] || !IsSpace(r[|r| - 1])
  {
    if s != [] && IsSpace(s[|s| - 1]) then TrimEnd(s[..|s| - 1]) else s
  }

  /** `s.trim()` */
  function Trim(s: string): string {
    TrimEnd(TrimStart(s))
  }

  /** Lower-case mapping of one character: Latin A-Z and the Cyrillic capitals
      U+0400..U+042F (Ё included). */
  function LowerChar(c: char): (r: char)
    ensures IsSpace(r) <==> IsSpace(c)
  {
    if 'A' <= c <= 'Z' then (c as int + 32) as char
    else if 'А' <= c <= 'Я' then (c as int + 0x20) as char
    else if 'Ѐ' <= c <= 'Џ' then (c as int + 0x50) as char
    else c
  }

  /** `s.toLowerCase()` */
  function Lower(s: string): (r: string)
    ensures |r| == |s|
    ensures forall i :: 0 <= i < |s| ==> r[i] == LowerChar(s[i])
  {
    seq(|s|, i requires 0 <= i < |s| => LowerChar(s[i]))
  }

  /** `s.startsWith(p)` */
  predicate StartsWith(s: string, p: string) {
    |p| <= |s| && s[..|p|] == p
  }

  /** `s.includes(t)` */
  predicate Contains(s: string, t: string)
    decreases |s|
  {
    StartsWith(s, t) || (s != [] && Contains(s[1..], t))
  }

  /** `parts.join(sep)` */
  function Join(parts: seq<string>, sep: string): string {
    if parts == [] then ""
    else if |parts| == 1 then parts[0]
    else parts[0] + sep + Join(parts[1..], sep)
  }

  function DigitChar(d: nat): (c: char)
    requires d < 10
    ensures IsDigit(c)
  {
    ('0' as int + d) as char
  }

  /** The decimal digits of n, most significant first. */
  function NatToString(n: nat): (r: string)
    ensures r != [] && AllDigits(r)
  {
    if n < 10 then [DigitChar(n)] else NatToString(n / 10) + [DigitChar(n % 10)]
  }

  /** `String(n)` for an integer. */
  function IntToString(n: int): string {
    if n < 0 then "-" + NatToString(-n) else NatToString(n)
  }

  /** The number a run of decimal digits denotes. */
  function DigitsValue(s: string): nat
    requires AllDigits(s)
  {
    if s == [] then 0 else 10 * DigitsValue(s[..|s| - 1]) + (s[|s| - 1] as int - '0' as int)
  }

  /** `Number(s)` on strings: surrounding white space is ignored, the empty string is 0,
      an optional sign before decimal digits gives that integer; None stands for NaN. */
  function ParseNumber(s: string): Option<int> {
    ParseTrimmed(Trim(s))
  }

  /** `Number` on a string without surrounding white space. */
  function ParseTrimmed(t: string): Option<int> {
    if t == "" then Some(0)
    else if (t[0] == '-' || t[0] == '+') && |t| > 1 && AllDigits(t[1..]) then
      var d: int := DigitsValue(t[1..]);
      Some(if t[0] == '-' then -d else d)
    else if AllDigits(t) then Some(DigitsValue(t))
    else None
  }

  datatype Option<T> = None | Some(value: T)

  lemma {:induction false} DigitsValueOfNatToString(n: nat)
    ensures DigitsValue(NatToString(n)) == n
  {
    if n >= 10 {
      var s := NatToString(n);
      assert s[..|s| - 1] == NatToString(n / 10);
      DigitsValueOfNatToString(n / 10);
    }
  }

  lemma {:induction false} TrimStartEmptyIffBlank(s: string)
    ensures TrimStart(s) == "" <==> forall i :: 0 <= i < |s| ==> IsSpace(s[i])
    decreases |s|
  {
    if s != [] {
      TrimStartEmptyIffBlank(s[1..]);
      assert forall i :: 1 <= i < |s| ==> s[i] == s[1..][i - 1];
    }
  }

  lemma {:induction false} TrimEndEmptyIffBlank(s: string)
    ensures TrimEnd(s) == "" <==> forall i :: 0 <= i < |s| ==> IsSpace(s[i])
    decreases |s|
  {
    if s != [] {
      TrimEndEmptyIffBlank(s[..|s| - 1]);
      assert forall i :: 0 <= i < |s| - 1 ==> s[i] == s[..|s| - 1][i];
    }
  }

  /** A text trims to nothing exactly when it is all white space. */
  lemma TrimEmptyIffBlank(s: string)
    ensures Trim(s) == "" <==> forall i :: 0 <= i < |s| ==> IsSpace(s[i])
  {
    var t := TrimStart(s);
    TrimStartEmptyIffBlank(s);
    if t != "" {
      assert !IsSpace(t[0]) && t[0] == s[|s| - |t|];
      TrimEndEmptyIffBlank(t);
    }
  }

  lemma {:induction false} TrimOfNoSpace(s: string)
    requires forall i :: 0 <= i < |s| ==> !IsSpace(s[i])
    ensures Trim(s) == s
  {
  }

  lemma NoSpaceInDigits(s: string)
    requires AllDigits(s)
    ensures forall i :: 0 <= i < |s| ==> !IsSpace(s[i])
  {
  }

  lemma {:induction false} ParseNumberOfNatToString(m: nat)
    ensures ParseNumber(NatToString(m)) == Some(m)
  {
    var s := NatToString(m);
    NoSpaceInDigits(s);
    TrimOfNoSpace(s);
    ParseNumberOfDigits(s);
    DigitsValueOfNatToString(m);
  }

  lemma ParseNumberOfDigits(s: string)
    requires AllDigits(s) && s != [] && Trim(s) == s
    ensures ParseNumber(s) == Some(DigitsValue(s))
  {
    assert s[0] != '-' && s[0] != '+';
  }

  /** Number(String(n)) == n: the decimal rendering of an integer parses back to it. */
  lemma ParseNumberOfIntToString(n: int)
    ensures ParseNumber(IntToString(n)) == Some(n)
  {
    if n < 0 {
      ParseNumberOfNegative(n);
    } else {
      ParseNumberOfNatToString(n);
      assert IntToString(n) == NatToString(n);
    }
  }

  lemma ParseNumberOfNegative(n: int)
    requires n < 0
    ensures ParseNumber(IntToString(n)) == Some(n)
  {
    var m: nat := -n;
    var d := NatToString(m);
    var s := "-" + d;
    assert IntToString(n) == s;
    NoSpaceInDigits(d);
    NegatedNoSpace(d);
    calc {
      ParseNumber(s);
      ParseTrimmed(Trim(s));
      { TrimOfNoSpace(s); }
      ParseTrimmed(s);
      { ParseNumberOfNegated(d); }
      Some(-(DigitsValue(d) as int));
      { DigitsValueOfNatToString(m); }
      Some(n);
    }
  }

  lemma NegatedNoSpace(d: string)
    requires forall i :: 0 <= i < |d| ==> !IsSpace(d[i])
    ensures forall i :: 0 <= i < |"-" + d| ==> !IsSpace(("-" + d)[i])
  {
    var s := "-" + d;
    forall i | 0 <= i < |s| ensures !IsSpace(s[i]) {
      if i > 0 { assert s[i] == d[i - 1]; }
    }
  }

  lemma ParseNumberOfNegated(d: string)
    requires AllDigits(d) && d != []
    ensures ParseTrimmed("-" + d) == Some(-(DigitsValue(d) as int))
  {
    var s := "-" + d;
    assert s[0] == '-' && s[1..] == d;
  }

  /** Every character of a substring occurs in the string. */
  lemma {:induction false} ContainsHasChars(s: string, t: string, k: nat)
    requires Contains(s, t) && k < |t|
    ensures t[k] in s
    decreases |s|
  {
    if StartsWith(s, t) {
      assert s[k] == t[k];
    } else {
      ContainsHasChars(s[1..], t, k);
    }
  }

  /** A string contains only strings no longer than itself. */
  lemma {:induction false} NotContainsLonger(s: string, t: string)
    requires |s| < |t|
    ensures !Contains(s, t)
    decreases |s|
  {
    if s != [] {
      NotContainsLonger(s[1..], t);
    }
  }

  /** A string that lacks one of the characters of t does not contain t. */
  lemma MissingCharNotContained(s: string, t: string, k: nat)
    requires k < |t| && t[k] !in s
    ensures !Contains(s, t)
  {
    if Contains(s, t) {
      ContainsHasChars(s, t, k);
    }
  }

  /** A string contains whatever starts at one of its positions. */
  lemma {:induction false} ContainsAt(s: string, t: string, k: nat)
    requires k <= |s| && StartsWith(s[k..], t)
    ensures Contains(s, t)
    decreases k
  {
    if k > 0 {
      assert s[1..][k - 1..] == s[k..];
      ContainsAt(s[1..], t, k - 1);
    } else {
      assert s[0..] == s;
    }
  }

  lemma ContainsMiddle(a: string, t: string, b: string)
    ensures Contains(a + t + b, t)
  {
    var s := a + t + b;
    assert s[|a|..][..|t|] == t;
    ContainsAt(s, t, |a|);
  }

  /** Lower-casing is idempotent. */
  lemma LowerIdempotent(s: string)
    ensures Lower(Lower(s)) == Lower(s)
  {
  }

  /** A string contains itself and the empty string. */
  lemma {:induction false} ContainsEmpty(s: string)
    ensures Contains(s, "")
  {
    assert StartsWith(s, "");
  }

  /** A position at which a contained string starts. */
  lemma {:induction false} ContainsIndex(s: string, t: string) returns (k: nat)
    requires Contains(s, t)
    ensures k <= |s| && StartsWith(s[k..], t)
    decreases |s|
  {
    if StartsWith(s, t) {
      k := 0;
      assert s[0..] == s;
    } else {
      var j := ContainsIndex(s[1..], t);
      k := j + 1;
      assert s[1..][j..] == s[k..];
    }
  }

  /** Whatever a part contains, the whole contains. */
  lemma ContainsWithin(a: string, x: string, b: string, t: string)
    requires Contains(x, t)
    ensures Contains(a + x + b, t)
  {
    var k := ContainsIndex(x, t);
    var s := a + x + b;
    assert s[|a| + k..][..|t|] == x[k..][..|t|];
    ContainsAt(s, t, |a| + k);
  }

  /** A joined text contains whatever one of its parts contains. */
  lemma {:induction false} JoinContainsPart(parts: seq<string>, sep: string, i: nat, t: string)
    requires i < |parts| && Contains(parts[i], t)
    ensures Contains(Join(parts, sep), t)
    decreases i
  {
    if |parts| == 1 {
    } else if i == 0 {
      ContainsWithin("", parts[0], sep + Join(parts[1..], sep), t);
      assert "" + parts[0] + (sep + Join(parts[1..], sep)) == Join(parts, sep);
    } else {
      JoinContainsPart(parts[1..], sep, i - 1, t);
      ContainsWithin(parts[0] + sep, Join(parts[1..], sep), "", t);
      assert parts[0] + sep + Join(parts[1..], sep) + "" == Join(parts, sep);
    }
  }
}
