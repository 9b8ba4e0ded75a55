/** NUL-terminated strings inside a buffer, as the C library sees them: every
    search stops at a NUL, and a C string is named by the buffer and an offset. */
module CStrings {
  const NUL: char := '\0'
  const CR: char := '\r'
  const LF: char := '\n'
  const CRLF: string := "\r\n"

  const INT_MAX: int := 0x7FFF_FFFF
  const LONG_MAX: int := 0x7FFF_FFFF_FFFF_FFFF

  predicate IsNul(c: char) { c == NUL }

  predicate IsBlank(c: char) { c == ' ' || c == '\t' }

  predicate NotBlank(c: char) { !IsBlank(c) }

  predicate BlankOrNul(c: char) { IsBlank(c) || c == NUL }

  predicate SlashOrNul(c: char) { c == '/' || c == NUL }

  predicate CrOrLf(c: char) { c == CR || c == LF }

  /** Offset of the first byte at or after `i` that satisfies `p`, or |b|.
      strpbrk, strspn, strchr and strlen are all this search. */
  function First(b: seq<char>, i: nat, p: char -> bool): (j: nat)
    requires i <= |b|
    ensures i <= j <= |b|
    ensures forall k :: i <= k < j ==> !p(b[k])
    ensures j < |b| ==> p(b[j])
    decreases |b| - i
  {
    if i == |b| || p(b[i]) then i else First(b, i + 1, p)
  }

  lemma {:induction false} FirstIs(b: seq<char>, i: nat, p: char -> bool, j: nat)
    requires i <= j <= |b|
    requires forall k :: i <= k < j ==> !p(b[k])
    requires j < |b| ==> p(b[j])
    ensures First(b, i, p) == j
    decreases j - i
  {
    if i < j {
      FirstIs(b, i + 1, p, j);
    }
  }

  /** A search that stops inside a prefix does not see what follows the prefix. */
  lemma FirstInPrefix(b: seq<char>, n: nat, i: nat, p: char -> bool)
    requires i < n <= |b| && p(b[n - 1])
    ensures First(b[..n], i, p) == First(b, i, p) < n
  {
    assert b[..n][n - 1] == b[n - 1];
    var j := First(b[..n], i, p);
    assert j < n;
    forall k | i <= k < j
      ensures !p(b[k])
    {
      assert !p(b[..n][k]);
    }
    FirstIs(b, i, p, j);
  }

  /** The C string that starts at offset `i`. */
  function CStr(b: seq<char>, i: nat): (s: string)
    requires i <= |b|
    ensures i + |s| <= |b| && s == b[i..i + |s|]
    ensures NUL !in s
  {
    var e := First(b, i, IsNul);
    assert forall k :: i <= k < e ==> b[k] != NUL;
    b[i..e]
  }

  lemma CharsOf(b: seq<char>, i: nat, k: nat)
    requires i <= |b| && k < |CStr(b, i)|
    ensures CStr(b, i)[k] == b[i + k] != NUL
  {
    assert CStr(b, i)[k] in CStr(b, i);
  }

  lemma CStrIs(b: seq<char>, i: nat, s: string)
    requires i + |s| < |b| && b[i..i + |s|] == s && b[i + |s|] == NUL && NUL !in s
    ensures CStr(b, i) == s
  {
    forall k | i <= k < i + |s|
      ensures !IsNul(b[k])
    {
      assert b[k] == s[k - i];
    }
    FirstIs(b, i, IsNul, i + |s|);
  }

  lemma CStrInPrefix(b: seq<char>, n: nat, i: nat)
    requires i < n <= |b| && b[n - 1] == NUL
    ensures CStr(b[..n], i) == CStr(b, i)
    ensures i + |CStr(b, i)| < n
  {
    FirstInPrefix(b, n, i, IsNul);
  }

  lemma CStrTail(b: seq<char>, i: nat, j: nat)
    requires i <= j <= |b| && j <= i + |CStr(b, i)|
    ensures CStr(b, j) == CStr(b, i)[j - i..]
  {
    FirstIs(b, j, IsNul, First(b, i, IsNul));
  }

  lemma CStrStable(b: seq<char>, more: seq<char>, i: nat)
    requires i <= |b| && i + |CStr(b, i)| < |b|
    ensures CStr(b + more, i) == CStr(b, i)
  {
    var s := CStr(b, i);
    assert (b + more)[i..i + |s|] == b[i..i + |s|];
    CStrIs(b + more, i, s);
  }

  function Lower(c: char): char {
    if 'A' <= c <= 'Z' then (c as int + 32) as char else c
  }

  /** strcasecmp(s, t) == 0 */
  predicate EqNoCase(s: string, t: string) {
    |s| == |t| && forall i :: 0 <= i < |s| ==> Lower(s[i]) == Lower(t[i])
  }

  /** strncasecmp(s, p, strlen(p)) == 0 */
  predicate HasPrefixNoCase(s: string, p: string) {
    |p| <= |s| && EqNoCase(s[..|p|], p)
  }

  lemma PrefixFits(s: string, p: string)
    ensures HasPrefixNoCase(s, p) ==> |p| <= |s|
  {
  }

  predicate IsDigit(c: char) { '0' <= c <= '9' }

  predicate IsSpace(c: char) { c == ' ' || '\t' <= c <= '\r' }

  /** The value of the leading digits of `s`, continuing from `acc`. */
  function Digits(s: string, acc: nat): nat {
    if s == [] || !IsDigit(s[0]) then acc
    else Digits(s[1..], 10 * acc + (s[0] as int - '0' as int))
  }

  function SkipSpace(s: string): string {
    if s != [] && IsSpace(s[0]) then SkipSpace(s[1..]) else s
  }

  /** The sum atol computes before any limit on its size. */
  function Numeral(s: string): int {
    var t := SkipSpace(s);
    if t != [] && t[0] == '-' then 0 - Digits(t[1..], 0)
    else if t != [] && t[0] == '+' then Digits(t[1..], 0)
    else Digits(t, 0)
  }

  predicate IsInt(n: int) { -INT_MAX - 1 <= n <= INT_MAX }

  /** A wider number cut to a C int: its low 32 bits. */
  function AsInt(n: int): (r: int)
    ensures IsInt(r) && (IsInt(n) ==> r == n) && (n - r) % 0x1_0000_0000 == 0
  {
    var low := n % 0x1_0000_0000;
    if low > INT_MAX then low - 0x1_0000_0000 else low
  }

  /** `int x = atol(s)`: a 64-bit long that saturates, cut to its low 32 bits. */
  function AtolToInt(s: string): (n: int)
    ensures IsInt(n)
  {
    var v := Numeral(s);
    AsInt(if v > LONG_MAX then LONG_MAX else if v < -LONG_MAX - 1 then -LONG_MAX - 1 else v)
  }

  /** `%d` of a non-negative number. */
  function Decimal(n: nat): (s: string)
    ensures |s| > 0 && forall i :: 0 <= i < |s| ==> IsDigit(s[i])
  {
    var d := ('0' as int + n % 10) as char;
    if n < 10 then [d] else Decimal(n / 10) + [d]
  }

  lemma {:induction false} DigitsOfDecimal(n: nat, rest: string)
    ensures Digits(Decimal(n) + rest, 0) == Digits(rest, n)
  {
    var d := ('0' as int + n % 10) as char;
    if n < 10 {
      assert (Decimal(n) + rest)[1..] == rest;
    } else {
      assert Decimal(n) + rest == Decimal(n / 10) + ([d] + rest);
      DigitsOfDecimal(n / 10, [d] + rest);
      assert ([d] + rest)[1..] == rest;
    }
  }

  /** `%d` of an int. */
  function IntText(n: int): (s: string)
    ensures |s| > 0 && (s[0] == '-' || IsDigit(s[0])) && forall i :: 0 < i < |s| ==> IsDigit(s[i])
  {
    if n < 0 then "-" + Decimal(-n) else Decimal(n)
  }

  /** atol reads back what `%d` prints, for every int. */
  lemma AtolOfIntText(n: int)
    requires IsInt(n)
    ensures AtolToInt(IntText(n)) == n
  {
    NumeralOfIntText(n);
    hide Numeral, IntText;
  }

  /** For a number of any size: cut to a long at the ends of its range, then to the int with
      the same low 32 bits. */
  lemma AtolOfAnyNumber(n: int)
    ensures var r := AtolToInt(IntText(n));
            && -0x8000_0000 <= r <= 0x7fff_ffff
            && (n > 0x7fff_ffff_ffff_ffff ==> r == -1) && (n < -0x8000_0000_0000_0000 ==> r == 0)
            && (-0x8000_0000_0000_0000 <= n <= 0x7fff_ffff_ffff_ffff ==> (n - r) % 0x1_0000_0000 == 0)
  {
    NumeralOfIntText(n);
    hide Numeral, IntText;
  }

  lemma NumeralOfIntText(n: int)
    ensures Numeral(IntText(n)) == n
  {
    var m := if n < 0 then -n else n;
    var d := Decimal(m);
    DigitsOfDecimal(m, []);
    assert d + [] == d && IsDigit(d[0]);
    assert n < 0 ==> ("-" + d)[1..] == d;
    hide Decimal, Digits;
    assert SkipSpace(IntText(n)) == IntText(n);
    hide SkipSpace;
  }

  lemma {:induction false} DecimalLength(n: nat, k: nat)
    requires k > 0 && n < Pow10(k)
    ensures |Decimal(n)| <= k
  {
    if n >= 10 {
      assert k > 1;
      DecimalLength(n / 10, k - 1);
    }
  }

  function Pow10(k: nat): nat {
    if k == 0 then 1 else 10 * Pow10(k - 1)
  }

  /** Every C int prints in at most eleven characters. */
  lemma IntTextLength(n: int)
    requires IsInt(n)
    ensures |IntText(n)| <= 11
  {
    assert Pow10(10) == 10_000_000_000 by {
      assert Pow10(4) == 10_000;
      assert Pow10(8) == 100_000_000 by { assert Pow10(6) == 1_000_000; }
    }
    DecimalLength(if n < 0 then -n else n, 10);
    hide Decimal, Pow10;
  }
}
