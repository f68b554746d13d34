/** The C library string functions that http/http_conn.cpp applies to its read buffer, on the string
a pointer denotes: the characters before the first NUL. */
module CStrings {
  const NUL := '\0'

  predicate NoNul(s: string) {
    forall i :: 0 <= i < |s| ==> s[i] != NUL
  }

  /** The C string stored at the front of `s`. */
  function CStr(s: string): (r: string)
    ensures |r| <= |s| && r == s[..|r|] && NoNul(r)
    ensures |r| < |s| ==> s[|r|] == NUL
  {
    if s == "" || s[0] == NUL then "" else [s[0]] + CStr(s[1..])
  }

  /** The C string ends at the first NUL, whatever follows. */
  lemma CStrIs(s: string, n: nat)
    requires n <= |s| && NoNul(s[..n]) && (n < |s| ==> s[n] == NUL)
    ensures CStr(s) == s[..n]
  {
    var r := CStr(s);
    forall i | 0 <= i < n ensures s[i] != NUL { assert s[..n][i] == s[i]; }
    forall i | 0 <= i < |r| ensures s[i] != NUL { assert r[i] == s[i]; }
  }

  predicate Blank(c: char) {
    c == ' ' || c == '\t'
  }

  /** strpbrk(s, " \t") as an offset, |s| for NULL. */
  function Strpbrk(s: string): (n: nat)
    ensures n <= |s| && (forall i :: 0 <= i < n ==> !Blank(s[i])) && (n < |s| ==> Blank(s[n]))
  {
    if s == "" || Blank(s[0]) then 0 else 1 + Strpbrk(s[1..])
  }

  /** strspn(s, " \t"). */
  function Strspn(s: string): (n: nat)
    ensures n <= |s| && (forall i :: 0 <= i < n ==> Blank(s[i])) && (n < |s| ==> !Blank(s[n]))
  {
    if s == "" || !Blank(s[0]) then 0 else 1 + Strspn(s[1..])
  }

  function SkipBlanks(s: string): string {
    s[Strspn(s)..]
  }

  /** strchr(s, c) as an offset, |s| for NULL. */
  function Strchr(s: string, c: char): (n: nat)
    ensures n <= |s| && (forall i :: 0 <= i < n ==> s[i] != c) && (n < |s| ==> s[n] == c)
  {
    if s == "" || s[0] == c then 0 else 1 + Strchr(s[1..], c)
  }

  function Lower(c: char): char {
    if 'A' <= c <= 'Z' then c - 'A' + 'a' else c
  }

  function LowerAll(s: string): (r: string)
    ensures |r| == |s| && forall i :: 0 <= i < |s| ==> r[i] == Lower(s[i])
  {
    seq(|s|, i requires 0 <= i < |s| => Lower(s[i]))
  }

  /** strcasecmp(a, b) == 0. */
  predicate StrCaseEq(a: string, b: string) {
    LowerAll(a) == LowerAll(b)
  }

  /** strncasecmp(s, prefix, strlen(prefix)) == 0. */
  predicate StartsWithCase(s: string, prefix: string) {
    |s| >= |prefix| && StrCaseEq(s[..|prefix|], prefix)
  }

  predicate Digit(c: char) {
    '0' <= c <= '9'
  }

  function DigitsValue(s: string, acc: nat): nat {
    if s == "" || !Digit(s[0]) then acc
    else DigitsValue(s[1..], 10 * acc + (s[0] as int - '0' as int))
  }

  function SkipSpace(s: string): string {
    if s != "" && (s[0] == ' ' || '\t' <= s[0] <= '\r') then SkipSpace(s[1..]) else s
  }

  /** atol: optional white space and sign, decimal digits, saturating at the range of a 64-bit long. */
  function Atol(s: string): int {
    var t := SkipSpace(s);
    if t != "" && t[0] == '-' then
      var v: int := DigitsValue(t[1..], 0);
      if v > 0x8000_0000_0000_0000 then -0x8000_0000_0000_0000 else -v
    else
      var v: int := DigitsValue(if t != "" && t[0] == '+' then t[1..] else t, 0);
      if v > 0x7fff_ffff_ffff_ffff then 0x7fff_ffff_ffff_ffff else v
  }

  /** Conversion of a long to a 32-bit int. */
  function ToInt32(v: int): (r: int)
    ensures -0x8000_0000 <= r < 0x8000_0000
  {
    (v + 0x8000_0000) % 0x1_0000_0000 - 0x8000_0000
  }
}
