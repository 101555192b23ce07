/**
 Text as Go programs see it: a string is a sequence of bytes, one `char` per byte, holding UTF-8.
 */
module Text {
  import opened Wrappers

  predicate IsNarrowSpace(c: char) {
    '\t' <= c <= '\r' || c == ' '
  }

  /** The two- and three-byte encodings of the Unicode White_Space characters outside ASCII. */
  predicate IsWideSpace2(a: char, b: char) {
    a == '\U{C2}' && (b == '\U{85}' || b == '\U{A0}')
  }

  predicate IsWideSpace3(a: char, b: char, c: char) {
    || (a == '\U{E1}' && b == '\U{9A}' && c == '\U{80}')
    || (a == '\U{E2}' && b == '\U{80}'
        && ('\U{80}' <= c <= '\U{8A}' || c == '\U{A8}' || c == '\U{A9}' || c == '\U{AF}'))
    || (a == '\U{E2}' && b == '\U{81}' && c == '\U{9F}')
    || (a == '\U{E3}' && b == '\U{80}' && c == '\U{80}')
  }

  /** The length of the white-space character `s` starts with, 0 when it starts with none. */
  function LeadingSpace(s: string): (n: nat)
    ensures n <= |s|
  {
    if s == "" then 0
    else if IsNarrowSpace(s[0]) then 1
    else if |s| >= 2 && IsWideSpace2(s[0], s[1]) then 2
    else if |s| >= 3 && IsWideSpace3(s[0], s[1], s[2]) then 3
    else 0
  }

  /** The length of the white-space character `s` ends with, 0 when it ends with none. */
  function TrailingSpace(s: string): (n: nat)
    ensures n <= |s|
  {
    var e := |s|;
    if s == "" then 0
    else if IsNarrowSpace(s[e - 1]) then 1
    else if e >= 2 && IsWideSpace2(s[e - 2], s[e - 1]) then 2
    else if e >= 3 && IsWideSpace3(s[e - 3], s[e - 2], s[e - 1]) then 3
    else 0
  }

  function TrimLeft(s: string): (t: string)
    ensures LeadingSpace(t) == 0
    ensures LeadingSpace(s) == 0 ==> t == s
    decreases |s|
  {
    if LeadingSpace(s) == 0 then s else TrimLeft(s[LeadingSpace(s)..])
  }

  function TrimRight(s: string): (t: string)
    ensures TrailingSpace(t) == 0
    ensures TrailingSpace(s) == 0 ==> t == s
    decreases |s|
  {
    if TrailingSpace(s) == 0 then s else TrimRight(s[..|s| - TrailingSpace(s)])
  }

  function TrimSpace(s: string): string {
    TrimRight(TrimLeft(s))
  }

  predicate HasPrefix(s: string, prefix: string) {
    |prefix| <= |s| && s[..|prefix|] == prefix
  }

  predicate Contains(s: string, part: string) {
    exists i | 0 <= i <= |s| :: HasPrefix(s[i..], part)
  }

  /** The position of the first `c`, or the length of `s` when it has none. */
  function IndexOf(s: string, c: char): (k: nat)
    ensures k <= |s|
    ensures forall i | 0 <= i < k :: s[i] != c
    ensures k < |s| ==> s[k] == c
  {
    if s == "" || s[0] == c then 0 else 1 + IndexOf(s[1..], c)
  }

  predicate IsDigit(c: char) {
    '0' <= c <= '9'
  }

  function DigitValue(c: char): (d: nat)
    requires IsDigit(c)
    ensures d < 10
  {
    (c as int - '0' as int) as nat
  }

  function DigitChar(d: nat): (c: char)
    requires d < 10
    ensures IsDigit(c) && DigitValue(c) == d
  {
    ('0' as int + d) as char
  }

  predicate AllDigits(s: string) {
    forall i | 0 <= i < |s| :: IsDigit(s[i])
  }

  /** The decimal rendering of a number. */
  function Decimal(n: nat): (s: string)
    ensures s != "" && AllDigits(s)
    ensures DigitsValue(s) == n
  {
    if n < 10 then [DigitChar(n)]
    else
      var s := Decimal(n / 10) + [DigitChar(n % 10)];
      assert s[..|s| - 1] == Decimal(n / 10);
      s
  }

  function DigitsValue(s: string): nat
    requires AllDigits(s)
  {
    if s == "" then 0 else 10 * DigitsValue(s[..|s| - 1]) + DigitValue(s[|s| - 1])
  }

  /** Two numbers never share a decimal rendering. */
  lemma DecimalInjective(a: nat, b: nat)
    ensures Decimal(a) == Decimal(b) ==> a == b
  {
    assert DigitsValue(Decimal(a)) == a && DigitsValue(Decimal(b)) == b;
  }

  // --- Laws of text, in plain characters ---

  /** A part is contained wherever it stands, and only if it stands somewhere. */
  lemma ContainsIff(s: string, part: string)
    ensures Contains(s, part) <==> exists a, b :: s == a + part + b
  {
    if Contains(s, part) {
      var i :| 0 <= i <= |s| && HasPrefix(s[i..], part);
      assert s == s[..i] + part + s[i + |part|..];
    }
    forall a, b | s == a + part + b
      ensures Contains(s, part)
    {
      ContainsMiddle(a, part, b);
    }
  }

  lemma ContainsMiddle(a: string, part: string, b: string)
    ensures Contains(a + part + b, part)
  {
    var s := a + part + b;
    assert s[|a|..][..|part|] == part;
    assert HasPrefix(s[|a|..], part);
  }

  /** A printable ASCII character other than the space. */
  predicate IsGraph(c: char) {
    '!' <= c <= '~'
  }

  predicate HasGraph(s: string) {
    exists i | 0 <= i < |s| :: IsGraph(s[i])
  }

  /** White space has no graphic characters. */
  lemma SpaceIsNoGraph(s: string, i: nat)
    requires i < |s| && IsGraph(s[i])
    ensures LeadingSpace(s) <= i < |s| - TrailingSpace(s)
  {
  }

  lemma {:induction false} TrimLeftKeeps(s: string)
    requires HasGraph(s)
    ensures HasGraph(TrimLeft(s))
    decreases |s|
  {
    var i :| 0 <= i < |s| && IsGraph(s[i]);
    SpaceIsNoGraph(s, i);
    hide IsGraph, LeadingSpace;
    var n := LeadingSpace(s);
    if n > 0 {
      assert s[n..][i - n] == s[i];
      TrimLeftKeeps(s[n..]);
    }
  }

  lemma {:induction false} TrimRightKeeps(s: string)
    requires HasGraph(s)
    ensures HasGraph(TrimRight(s))
    decreases |s|
  {
    var i :| 0 <= i < |s| && IsGraph(s[i]);
    SpaceIsNoGraph(s, i);
    hide IsGraph, TrailingSpace;
    var n := TrailingSpace(s);
    if n > 0 {
      assert s[..|s| - n][i] == s[i];
      TrimRightKeeps(s[..|s| - n]);
    }
  }

  /** Text with a graphic character is not blank. */
  lemma GraphIsNotBlank(s: string)
    requires HasGraph(s)
    ensures TrimSpace(s) != ""
  {
    TrimLeftKeeps(s);
    TrimRightKeeps(TrimLeft(s));
  }

  /** Text between graphic characters has nothing to trim; space before and after it is trimmed. */
  lemma GraphIsTrimmed(s: string)
    requires s != "" && IsGraph(s[0]) && IsGraph(s[|s| - 1])
    ensures TrimSpace(s) == s
    ensures TrimSpace(" " + s) == s
  {
    assert LeadingSpace(s) == 0 && TrailingSpace(s) == 0;
    var t := " " + s;
    assert LeadingSpace(t) == 1 && t[1..] == s;
  }

  /** Space alone is blank. */
  lemma SpaceIsBlank()
    ensures TrimSpace("") == "" && TrimSpace(" ") == "" && TrimSpace("\t\r\n") == ""
  {
    var s := "\t\r\n";
    assert s[1..] == "\r\n" && s[1..][1..] == "\n" && s[1..][1..][1..] == "";
    assert TrimLeft("\n") == TrimLeft("");
    assert " "[1..] == "";
    assert TrimLeft(" ") == "";
    assert TrimLeft("\r\n") == TrimLeft("\n");
  }

  const UPPER := "ABCDEFGHIJKLMNOPQRSTUVWXYZ"
  const LOWER := "abcdefghijklmnopqrstuvwxyz"
  const DECIMALS := "0123456789"

  /** A text of consecutive characters has exactly those. */
  lemma ConsecutiveIff(s: string, c: char)
    requires s != "" && forall i | 0 <= i < |s| :: s[i] as int == s[0] as int + i
    ensures c in s <==> s[0] <= c <= s[|s| - 1]
  {
    if s[0] <= c <= s[|s| - 1] {
      assert s[c as int - s[0] as int] == c;
    }
  }

  lemma AlphabetsAreConsecutive()
    ensures |UPPER| == 26 && forall i | 0 <= i < 26 :: UPPER[i] as int == UPPER[0] as int + i
    ensures |LOWER| == 26 && forall i | 0 <= i < 26 :: LOWER[i] as int == LOWER[0] as int + i
    ensures |DECIMALS| == 10 && forall i | 0 <= i < 10 :: DECIMALS[i] as int == DECIMALS[0] as int + i
    ensures UPPER[0] == 'A' && UPPER[25] == 'Z' && LOWER[0] == 'a' && LOWER[25] == 'z'
    ensures DECIMALS[0] == '0' && DECIMALS[9] == '9'
  {
  }
}
