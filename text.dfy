/**
 * The JavaScript string operations the ingestion pipeline relies on, over
 * strings of Unicode scalar values: whitespace and line terminators as `\s`,
 * `trim` and `.` see them, ASCII case folding, substring search
 * (`includes`, `indexOf`, `startsWith`), first-occurrence and global
 * replacement, and the UTF-16 length that `.length` reports.
 */
module Text {
  import opened Wrappers

  /** LineTerminator of ECMAScript: the characters `.` does not match. */
  predicate IsLineTerminator(c: char) {
    c == '\n' || c == '\r' || c == '\U{2028}' || c == '\U{2029}'
  }

  /** WhiteSpace or LineTerminator of ECMAScript: what `\s` matches and `trim` removes. */
  predicate IsWhitespace(c: char) {
    || c == '\t' || c == '\U{000B}' || c == '\U{000C}' || c == ' '
    || c == '\U{00A0}' || c == '\U{FEFF}' || c == '\U{1680}'
    || ('\U{2000}' <= c <= '\U{200A}')
    || c == '\U{202F}' || c == '\U{205F}' || c == '\U{3000}'
    || IsLineTerminator(c)
  }

  /** `\d`: ASCII digits only. */
  predicate IsDigit(c: char) {
    '0' <= c <= '9'
  }

  predicate IsAsciiLetter(c: char) {
    ('a' <= c <= 'z') || ('A' <= c <= 'Z')
  }

  /** `\w`, the characters that decide a `\b` word boundary. */
  predicate IsWordChar(c: char) {
    IsDigit(c) || IsAsciiLetter(c) || c == '_'
  }

  /** The three dash characters of the source's `[-–—]` classes. */
  predicate IsDash(c: char) {
    c == '-' || c == '\U{2013}' || c == '\U{2014}'
  }

  predicate AllDigits(s: string) {
    forall i :: 0 <= i < |s| ==> IsDigit(s[i])
  }

  predicate NoLineTerminator(s: string) {
    forall i :: 0 <= i < |s| ==> !IsLineTerminator(s[i])
  }

  predicate NoWhitespace(s: string) {
    forall i :: 0 <= i < |s| ==> !IsWhitespace(s[i])
  }

  // ---------------------------------------------------------------------
  // Case folding

  function LowerChar(c: char): char {
    if 'A' <= c <= 'Z' then (c as int + 32) as char else c
  }

  function UpperChar(c: char): char {
    if 'a' <= c <= 'z' then (c as int - 32) as char else c
  }

  /** `toLowerCase`, restricted to ASCII letters. */
  function Lower(s: string): string {
    seq(|s|, i requires 0 <= i < |s| => LowerChar(s[i]))
  }

  /** `toUpperCase`, restricted to ASCII letters. */
  function Upper(s: string): string {
    seq(|s|, i requires 0 <= i < |s| => UpperChar(s[i]))
  }

  lemma LowerAppend(a: string, b: string)
    ensures Lower(a + b) == Lower(a) + Lower(b)
  {
  }

  lemma UpperAppend(a: string, b: string)
    ensures Upper(a + b) == Upper(a) + Upper(b)
  {
  }

  // ---------------------------------------------------------------------
  // Search

  predicate StartsWith(s: string, prefix: string) {
    |prefix| <= |s| && s[..|prefix|] == prefix
  }

  predicate EndsWith(s: string, suffix: string) {
    |suffix| <= |s| && s[|s| - |suffix|..] == suffix
  }

  /** `pattern` occurs in `s` starting at index `i`. */
  predicate OccursAt(s: string, pattern: string, i: int) {
    0 <= i && i + |pattern| <= |s| && s[i..i + |pattern|] == pattern
  }

  /** An occurrence at `j > 0` is an occurrence at `j - 1` of the text without its first character. */
  lemma OccursShift(s: string, pattern: string, j: int)
    requires |s| > 0 && j > 0
    ensures OccursAt(s, pattern, j) <==> OccursAt(s[1..], pattern, j - 1)
  {
    if j + |pattern| <= |s| {
      assert s[j..j + |pattern|] == s[1..][j - 1..j - 1 + |pattern|];
    }
  }

  lemma OccursShiftAll(s: string, pattern: string)
    requires |s| > 0
    ensures forall j :: j > 0 ==> (OccursAt(s, pattern, j) <==> OccursAt(s[1..], pattern, j - 1))
  {
    forall j | j > 0
      ensures OccursAt(s, pattern, j) <==> OccursAt(s[1..], pattern, j - 1)
    {
      OccursShift(s, pattern, j);
    }
  }

  /** `indexOf`: the leftmost occurrence of `pattern` in `s`, if any. */
  function IndexOf(s: string, pattern: string): (r: Option<nat>)
    ensures r.Some? ==> OccursAt(s, pattern, r.value)
    ensures r.Some? ==> forall j :: 0 <= j < r.value ==> !OccursAt(s, pattern, j)
    ensures r.None? ==> forall j :: !OccursAt(s, pattern, j)
    decreases |s|
  {
    if StartsWith(s, pattern) then Some(0)
    else if |s| == 0 then None
    else
      var r := IndexOf(s[1..], pattern);
      OccursShiftAll(s, pattern);
      assert !OccursAt(s, pattern, 0);
      if r.None? then None else Some(r.value + 1)
  }

  /** `includes`. */
  predicate Contains(s: string, pattern: string) {
    IndexOf(s, pattern).Some?
  }

  lemma ContainsIff(s: string, pattern: string)
    ensures Contains(s, pattern) <==> exists i :: OccursAt(s, pattern, i)
  {
  }

  lemma {:induction false} ContainsAt(s: string, pattern: string, i: int)
    requires OccursAt(s, pattern, i)
    ensures Contains(s, pattern)
  {
  }

  /** Text that occurs in a string still occurs once more text is added on either side. */
  lemma {:induction false} ContainsExtend(a: string, s: string, b: string, pattern: string)
    requires Contains(s, pattern)
    ensures Contains(a + s + b, pattern)
  {
    var i := IndexOf(s, pattern).value;
    assert (a + s + b)[|a| + i..|a| + i + |pattern|] == s[i..i + |pattern|];
    ContainsAt(a + s + b, pattern, |a| + i);
  }

  /** A string containing `a + b` contains `b`. */
  lemma {:induction false} ContainsTail(s: string, a: string, b: string)
    requires Contains(s, a + b)
    ensures Contains(s, b)
  {
    var i := IndexOf(s, a + b).value;
    assert s[i + |a|..i + |a| + |b|] == s[i..i + |a + b|][|a|..];
    ContainsAt(s, b, i + |a|);
  }

  lemma {:induction false} ContainsSelfAtEnd(a: string, pattern: string)
    ensures Contains(a + pattern, pattern)
  {
    assert (a + pattern)[|a|..|a| + |pattern|] == pattern;
    ContainsAt(a + pattern, pattern, |a|);
  }

  /** A match in the lower-cased text is a match of the upper-cased needle in the upper-cased text. */
  lemma {:induction false} ContainsLowerUpper(s: string, needle: string)
    requires Contains(Lower(s), needle)
    requires Lower(needle) == needle
    ensures Contains(Upper(s), Upper(needle))
  {
    var i := IndexOf(Lower(s), needle).value;
    forall k | 0 <= k < |needle|
      ensures Upper(s)[i + k] == Upper(needle)[k]
    {
      assert Lower(s)[i + k] == needle[k];
      assert LowerChar(needle[k]) == needle[k];
    }
    assert Upper(s)[i..i + |needle|] == Upper(needle);
    ContainsAt(Upper(s), Upper(needle), i);
  }

  // ---------------------------------------------------------------------
  // Trimming

  /** `trimStart`: drops leading whitespace, and only that. */
  function TrimStart(s: string): (r: string)
    ensures |r| <= |s| && r == s[|s| - |r|..]
    ensures forall i :: 0 <= i < |s| - |r| ==> IsWhitespace(s[i])
    ensures r == [] || !IsWhitespace(r[0])
  {
    if |s| > 0 && IsWhitespace(s[0]) then TrimStart(s[1..]) else s
  }

  /** `trimEnd`: drops trailing whitespace, and only that. */
  function TrimEnd(s: string): (r: string)
    ensures |r| <= |s| && r == s[..|r|]
    ensures forall i :: |r| <= i < |s| ==> IsWhitespace(s[i])
    ensures r == [] || !IsWhitespace(r[|r| - 1])
  {
    if |s| > 0 && IsWhitespace(s[|s| - 1]) then TrimEnd(s[..|s| - 1]) else s
  }

  /** `trim`. */
  function Trim(s: string): string {
    TrimEnd(TrimStart(s))
  }

  lemma TrimBounds(s: string)
    ensures |Trim(s)| <= |s|
    ensures Trim(s) == [] || (!IsWhitespace(Trim(s)[0]) && !IsWhitespace(Trim(s)[|Trim(s)| - 1]))
  {
  }

  // ---------------------------------------------------------------------
  // Replacement

  /** `i` is the first index where `pattern` occurs in `s`. */
  predicate Leftmost(s: string, pattern: string, i: int) {
    OccursAt(s, pattern, i) && forall j :: 0 <= j < i ==> !OccursAt(s, pattern, j)
  }

  /** `r` is `s` with the `pattern` at `i` replaced: the text before and after it is kept. */
  predicate ReplacedAt(s: string, pattern: string, replacement: string, r: string, i: int)
    requires OccursAt(s, pattern, i)
  {
    |r| == |s| - |pattern| + |replacement|
    && r[..i] == s[..i] && r[i..i + |replacement|] == replacement && r[i + |replacement|..] == s[i + |pattern|..]
  }

  /** `s.replace(pattern, replacement)` with a string pattern: the first occurrence only. */
  function ReplaceFirst(s: string, pattern: string, replacement: string): (r: string)
    ensures !Contains(s, pattern) ==> r == s
    ensures Contains(s, pattern) ==> |r| == |s| - |pattern| + |replacement|
    ensures forall i :: Leftmost(s, pattern, i) ==> ReplacedAt(s, pattern, replacement, r, i)
  {
    match IndexOf(s, pattern)
    case None => s
    case Some(i) => s[..i] + replacement + s[i + |pattern|..]
  }

  /**
   * `s.replace(/\\x/g, replacement)` for a backslash followed by one character of `escaped`:
   * matches are found left to right and never overlap.
   */
  function ReplaceEscapes(s: string, escaped: set<char>, replacement: string): (r: string)
    ensures |replacement| <= 2 ==> |r| <= |s|
    ensures (forall i :: 0 <= i < |s| ==> s[i] != '\\') ==> r == s
    decreases |s|
  {
    if |s| >= 2 && s[0] == '\\' && s[1] in escaped then
      replacement + ReplaceEscapes(s[2..], escaped, replacement)
    else if |s| == 0 then []
    else [s[0]] + ReplaceEscapes(s[1..], escaped, replacement)
  }

  /** `s` holds no backslash, so no escape can start in it. */
  predicate NoBackslash(s: string) {
    forall i :: 0 <= i < |s| ==> s[i] != '\\'
  }

  /** A backslash-free prefix passes through the escape replacement unchanged. */
  lemma {:induction false} NoBackslashPrefix(a: string, b: string, escaped: set<char>, replacement: string)
    requires NoBackslash(a)
    ensures ReplaceEscapes(a + b, escaped, replacement) == a + ReplaceEscapes(b, escaped, replacement)
    decreases |a|
  {
    if a == [] {
      assert a + b == b;
    } else {
      assert (a + b)[0] == a[0] && (a + b)[1..] == a[1..] + b;
      NoBackslashPrefix(a[1..], b, escaped, replacement);
      assert [a[0]] + (a[1..] + ReplaceEscapes(b, escaped, replacement)) == a + ReplaceEscapes(b, escaped, replacement);
    }
  }

  /** After a backslash-free prefix, a backslash and an escaped character become the replacement. */
  lemma ReplacesEscape(a: string, c: char, b: string, escaped: set<char>, replacement: string)
    requires NoBackslash(a) && c in escaped
    ensures ReplaceEscapes(a + ['\\', c] + b, escaped, replacement)
         == a + replacement + ReplaceEscapes(b, escaped, replacement)
  {
    var t := ['\\', c] + b;
    assert a + ['\\', c] + b == a + t;
    NoBackslashPrefix(a, t, escaped, replacement);
    assert t[2..] == b;
  }

  /** A backslash before a character that is not escaped is kept, and so is that character. */
  lemma SkipsEscape(a: string, c: char, b: string, escaped: set<char>, replacement: string)
    requires NoBackslash(a) && c !in escaped && c != '\\'
    ensures ReplaceEscapes(a + ['\\', c] + b, escaped, replacement)
         == a + ['\\', c] + ReplaceEscapes(b, escaped, replacement)
  {
    var t := ['\\', c] + b;
    assert a + ['\\', c] + b == a + t;
    NoBackslashPrefix(a, t, escaped, replacement);
    SkipAt(c, b, escaped, replacement);
    assert a + (['\\', c] + ReplaceEscapes(b, escaped, replacement)) == a + ['\\', c] + ReplaceEscapes(b, escaped, replacement);
  }

  lemma SkipAt(c: char, b: string, escaped: set<char>, replacement: string)
    requires c !in escaped && c != '\\'
    ensures ReplaceEscapes(['\\', c] + b, escaped, replacement) == ['\\', c] + ReplaceEscapes(b, escaped, replacement)
  {
    var t := ['\\', c] + b;
    assert t[0] == '\\' && t[1] == c && t[1..] == [c] + b;
    assert ([c] + b)[1..] == b;
    HeadKept([c] + b, escaped, replacement);
  }

  /** A doubled backslash that is not itself an escape stays, when what follows is not escaped. */
  lemma SkipsDoubled(a: string, b: string, escaped: set<char>, replacement: string)
    requires NoBackslash(a) && '\\' !in escaped && (b == [] || b[0] !in escaped)
    ensures ReplaceEscapes(a + "\\\\" + b, escaped, replacement)
         == a + "\\\\" + ReplaceEscapes(b, escaped, replacement)
  {
    var t := "\\\\" + b;
    assert a + "\\\\" + b == a + t;
    NoBackslashPrefix(a, t, escaped, replacement);
    DoubledAt(b, escaped, replacement);
    assert a + ("\\\\" + ReplaceEscapes(b, escaped, replacement)) == a + "\\\\" + ReplaceEscapes(b, escaped, replacement);
  }

  lemma DoubledAt(b: string, escaped: set<char>, replacement: string)
    requires '\\' !in escaped && (b == [] || b[0] !in escaped)
    ensures ReplaceEscapes("\\\\" + b, escaped, replacement) == "\\\\" + ReplaceEscapes(b, escaped, replacement)
  {
    var t := "\\\\" + b;
    var u := t[1..];
    assert t[0] == '\\' && t[1] == '\\' && u == "\\" + b && u[1..] == b;
    assert ReplaceEscapes(t, escaped, replacement) == "\\" + ReplaceEscapes(u, escaped, replacement);
  }

  /** A first character that is not a backslash is kept in front. */
  lemma HeadKept(b: string, escaped: set<char>, replacement: string)
    requires b != [] && b[0] != '\\'
    ensures ReplaceEscapes(b, escaped, replacement) == [b[0]] + ReplaceEscapes(b[1..], escaped, replacement)
  {
  }

  /** `s.replace(/c/g, d)` for a single character. */
  function ReplaceChar(s: string, c: char, d: char): (r: string)
    ensures |r| == |s|
    ensures forall i :: 0 <= i < |s| && s[i] != c ==> r[i] == s[i]
    ensures forall i :: 0 <= i < |s| && s[i] == c ==> r[i] == d
  {
    seq(|s|, i requires 0 <= i < |s| => if s[i] == c then d else s[i])
  }

  lemma ReplaceCharAppend(x: string, y: string, c: char, d: char)
    ensures ReplaceChar(x + y, c, d) == ReplaceChar(x, c, d) + ReplaceChar(y, c, d)
  {
    var l, r := ReplaceChar(x + y, c, d), ReplaceChar(x, c, d) + ReplaceChar(y, c, d);
    assert forall i :: 0 <= i < |x| ==> l[i] == r[i];
    assert forall i :: |x| <= i < |l| ==> (x + y)[i] == y[i - |x|] && l[i] == r[i];
  }

  /** `s.replace(/\s+/g, '')`. */
  function RemoveWhitespace(s: string): (r: string)
    ensures NoWhitespace(r)
    ensures |r| <= |s|
  {
    if |s| == 0 then []
    else if IsWhitespace(s[0]) then RemoveWhitespace(s[1..])
    else [s[0]] + RemoveWhitespace(s[1..])
  }

  predicate AllWhitespace(s: string) {
    forall i :: 0 <= i < |s| ==> IsWhitespace(s[i])
  }

  lemma {:induction false} RemoveWhitespaceAppend(a: string, b: string)
    ensures RemoveWhitespace(a + b) == RemoveWhitespace(a) + RemoveWhitespace(b)
    decreases |a|
  {
    if a == [] {
      assert a + b == b;
    } else {
      assert (a + b)[0] == a[0] && (a + b)[1..] == a[1..] + b;
      RemoveWhitespaceAppend(a[1..], b);
    }
  }

  lemma {:induction false} RemoveWhitespaceAll(s: string)
    requires AllWhitespace(s)
    ensures RemoveWhitespace(s) == []
    decreases |s|
  {
    if s != [] { RemoveWhitespaceAll(s[1..]); }
  }

  lemma {:induction false} RemoveWhitespaceNone(s: string)
    requires NoWhitespace(s)
    ensures RemoveWhitespace(s) == s
    decreases |s|
  {
    if s != [] {
      RemoveWhitespaceNone(s[1..]);
      assert s == [s[0]] + s[1..];
    }
  }

  /** `s.replace(/[-–—]/, '-')`: the first dash of any kind becomes a hyphen. */
  function ReplaceFirstDash(s: string): (r: string)
    ensures |r| == |s|
    ensures NoWhitespace(s) ==> NoWhitespace(r)
    decreases |s|
  {
    if |s| == 0 then []
    else if IsDash(s[0]) then ['-'] + s[1..]
    else [s[0]] + ReplaceFirstDash(s[1..])
  }

  /** Text free of dashes passes through the first-dash replacement unchanged. */
  lemma {:induction false} ReplaceFirstDashAfter(a: string, b: string)
    requires forall i :: 0 <= i < |a| ==> !IsDash(a[i])
    ensures ReplaceFirstDash(a + b) == a + ReplaceFirstDash(b)
    decreases |a|
  {
    if a == [] {
      assert a + b == b;
    } else {
      var t := a + b;
      assert t[0] == a[0] && t[1..] == a[1..] + b;
      ReplaceFirstDashAfter(a[1..], b);
      assert ReplaceFirstDash(t) == [a[0]] + ReplaceFirstDash(t[1..]);
      assert [a[0]] + (a[1..] + ReplaceFirstDash(b)) == a + ReplaceFirstDash(b);
    }
  }

  // ---------------------------------------------------------------------
  // Lengths and numbers

  /** `.length` of a JavaScript string: code points above U+FFFF take two UTF-16 code units. */
  function Utf16Length(s: string): (n: nat)
    ensures |s| <= n <= 2 * |s|
  {
    if |s| == 0 then 0
    else (if s[0] as int > 0xFFFF then 2 else 1) + Utf16Length(s[1..])
  }

  /** The exact mathematical value of a string of decimal digits. */
  function DigitsValue(s: string): nat
    requires AllDigits(s)
  {
    if |s| == 0 then 0
    else DigitsValue(s[..|s| - 1]) * 10 + (s[|s| - 1] as int - '0' as int)
  }

  function Pow10(k: nat): nat {
    if k == 0 then 1 else 10 * Pow10(k - 1)
  }

  /** Reading one more digit: the value of the longer prefix gains a decimal place. */
  lemma DigitsPrefix(s: string, i: nat)
    requires AllDigits(s) && i < |s|
    ensures DigitsValue(s[..i + 1]) == DigitsValue(s[..i]) * 10 + (s[i] as int - '0' as int)
  {
    assert s[..i + 1][..i] == s[..i];
  }

  /** The value of two digit strings written one after the other. */
  lemma {:induction false} DigitsConcat(a: string, b: string)
    requires AllDigits(a) && AllDigits(b)
    ensures AllDigits(a + b) && DigitsValue(a + b) == DigitsValue(a) * Pow10(|b|) + DigitsValue(b)
    decreases |b|
  {
    if |b| > 0 {
      var b' := b[..|b| - 1];
      assert (a + b)[..|a + b| - 1] == a + b';
      DigitsConcat(a, b');
      ShiftDigit(DigitsValue(a), Pow10(|b'|), DigitsValue(b'), b[|b| - 1] as int - '0' as int);
    } else {
      assert a + b == a;
    }
  }

  lemma ShiftDigit(x: int, p: int, y: int, d: int)
    ensures (x * p + y) * 10 + d == x * (10 * p) + (y * 10 + d)
  {
  }

  /** The value of four digits. */
  lemma FourDigits(s: string)
    requires |s| == 4 && AllDigits(s)
    ensures DigitsValue(s) == (s[0] as int - '0' as int) * 1000 + (s[1] as int - '0' as int) * 100
                              + (s[2] as int - '0' as int) * 10 + (s[3] as int - '0' as int)
  {
    DigitsPrefix(s, 0); DigitsPrefix(s, 1); DigitsPrefix(s, 2); DigitsPrefix(s, 3);
    assert s[..0] == [];
    assert s[..4] == s;
  }

  /** The sixteen digits `9007199254740993` are 2^53 + 1, and `9007199254740992` are 2^53. */
  lemma BeyondTwo53Digits()
    ensures AllDigits("9007199254740993") && DigitsValue("9007199254740993") == Two53 + 1
    ensures AllDigits("9007199254740992") && DigitsValue("9007199254740992") == Two53
  {
    var head := "900719925474";
    HeadDigits();
    FourDigits("0993"); FourDigits("0992");
    DigitsConcat(head, "0993");
    DigitsConcat(head, "0992");
    assert head + "0993" == "9007199254740993";
    assert head + "0992" == "9007199254740992";
  }

  lemma HeadDigits()
    ensures AllDigits("900719925474") && DigitsValue("900719925474") == 900719925474
  {
    var a, b, c := "9007", "1992", "5474";
    FourDigits(a); FourDigits(b); FourDigits(c);
    assert Pow10(4) == 10000;
    DigitsConcat(a, b);
    DigitsConcat(a + b, c);
    assert a + b + c == "900719925474";
  }

  // ---------------------------------------------------------------------
  // JavaScript numbers

  /** A non-negative JavaScript number that an integer converts to: finite, or `Infinity`. */
  datatype JsNumber = Finite(value: nat) | Infinity

  const Two53: nat := 0x20_0000_0000_0000

  function Pow2(k: nat): (r: nat)
    ensures r >= 1
  {
    if k == 0 then 1 else 2 * Pow2(k - 1)
  }

  /** How many low bits of `n` do not fit in a 53-bit significand. */
  function DroppedBits(n: nat): (k: nat)
    ensures k == 0 <==> n < Two53
    decreases n
  {
    if n < Two53 then 0 else 1 + DroppedBits(n / 2)
  }

  /**
   * The Number value of the integer `n` (section 6.1.6.1 of ECMA-262): the
   * nearest double, ties to an even significand, and `Infinity` once the
   * rounded value reaches 2^1024 (the significand `q` has 53 bits when bits
   * are dropped, so the value is `q * 2^k` with `k` dropped bits).
   */
  function NumberValue(n: nat): (r: JsNumber)
    ensures n < Two53 ==> r == Finite(n)
    ensures r.Finite? && n >= Two53 ==> r.value % 2 == 0
  {
    var k := DroppedBits(n);
    if k == 0 then Finite(n)
    else
      var half := Pow2(k - 1);
      var unit := 2 * half;
      var q, rem := n / unit, n % unit;
      var rounded := if rem > half || (rem == half && q % 2 == 1) then q + 1 else q;
      if k >= 972 || (k == 971 && rounded == Two53) then Infinity
      else EvenMultiple(rounded, half); Finite(rounded * unit)
  }

  lemma EvenMultiple(a: nat, b: nat)
    ensures (a * (2 * b)) % 2 == 0
  {
    assert a * (2 * b) == 2 * (a * b);
  }

  /** `parseInt(s, 10)` of a string of decimal digits. */
  function ParseIntDigits(s: string): (r: JsNumber)
    requires AllDigits(s)
    ensures DigitsValue(s) < Two53 ==> r == Finite(DigitsValue(s))
  {
    NumberValue(DigitsValue(s))
  }

  /** `a < b` on JavaScript numbers: every finite number is below `Infinity`, which is not below itself. */
  predicate NumberLess(a: JsNumber, b: JsNumber) {
    match a
    case Finite(x) => b.Infinity? || x < b.value
    case Infinity => false
  }

  /** Above 2^53 distinct integers meet: 2^53 + 1 rounds to 2^53, its even neighbour. */
  lemma RoundsToEven()
    ensures NumberValue(Two53 + 1) == NumberValue(Two53) == Finite(Two53)
  {
    assert DroppedBits((Two53 + 1) / 2) == 0;
    assert DroppedBits(Two53 / 2) == 0;
    assert Pow2(1) == 2;
  }
}
