/** The C string and decimal helpers the server relies on.

    Bytes are modelled as characters: every statement below is for all characters, so it covers
    the 256 byte values. A C string is the sequence of characters before its terminator. */
module Text {

  const NUL: char := '\0'
  const CR: char := '\r'
  const LF: char := '\n'
  const INT_MAX: int := 0x7fff_ffff
  const LONG_MAX: int := 0x7fff_ffff_ffff_ffff

  /** What a `char*` at the start of `bytes` denotes. */
  function UpToNul(bytes: string): (text: string)
    ensures text <= bytes
    ensures NUL !in text
    ensures |text| < |bytes| ==> bytes[|text|] == NUL
    ensures NUL !in bytes ==> text == bytes
  {
    if bytes == [] || bytes[0] == NUL then [] else [bytes[0]] + UpToNul(bytes[1..])
  }

  /** The two facts that pin a C string down. */
  lemma UpToNulUnique(bytes: string, text: string)
    requires text <= bytes && NUL !in text
    requires |text| < |bytes| ==> bytes[|text|] == NUL
    ensures UpToNul(bytes) == text
  {}

  predicate IsBlank(c: char) { c == ' ' || c == '\t' }

  /** strpbrk(text, " \t"): offset of the first blank, or the length when there is none. */
  function FirstBlank(text: string): (k: nat)
    ensures k <= |text|
    ensures forall i :: 0 <= i < k ==> !IsBlank(text[i])
    ensures k < |text| ==> IsBlank(text[k])
  {
    if text == [] || IsBlank(text[0]) then 0 else 1 + FirstBlank(text[1..])
  }

  /** strspn(text, " \t"): how many blanks lead. */
  function LeadingBlanks(text: string): (k: nat)
    ensures k <= |text|
    ensures forall i :: 0 <= i < k ==> IsBlank(text[i])
    ensures k < |text| ==> !IsBlank(text[k])
  {
    if text == [] || !IsBlank(text[0]) then 0 else 1 + LeadingBlanks(text[1..])
  }

  /** strchr(text, c), or the length when `c` does not occur. */
  function IndexOf(text: string, c: char): (k: nat)
    ensures k <= |text|
    ensures forall i :: 0 <= i < k ==> text[i] != c
    ensures k < |text| ==> text[k] == c
  {
    if text == [] || text[0] == c then 0 else 1 + IndexOf(text[1..], c)
  }

  function Lower(c: char): char {
    if 'A' <= c <= 'Z' then c + (32 as char) else c
  }

  /** strcasecmp(a, b) == 0. */
  predicate SameIgnoringCase(a: string, b: string) {
    |a| == |b| && forall i :: 0 <= i < |a| ==> Lower(a[i]) == Lower(b[i])
  }

  /** strncasecmp(text, prefix, strlen(prefix)) == 0. */
  predicate StartsIgnoringCase(text: string, prefix: string) {
    |prefix| <= |text| && SameIgnoringCase(text[..|prefix|], prefix)
  }

  /** Capital letters for small ones, by their codes. */
  function Upper(c: char): char {
    if 97 <= c as int <= 122 then (c as int - 32) as char else c
  }

  function Capitals(s: string): string { seq(|s|, i requires 0 <= i < |s| => Upper(s[i])) }

  /** A text and the same in capitals do not differ for strcasecmp; a text with another letter does. */
  lemma CapitalsSame(s: string)
    ensures SameIgnoringCase(Capitals(s), s)
  {}

  lemma SameSymmetric(a: string, b: string)
    ensures SameIgnoringCase(a, b) <==> SameIgnoringCase(b, a)
  {}

  lemma SameTransitive(a: string, b: string, c: string)
    requires SameIgnoringCase(a, b)
    ensures SameIgnoringCase(a, c) <==> SameIgnoringCase(b, c)
  {}

  // ---- decimal numbers ----

  predicate IsDigit(c: char) { '0' <= c <= '9' }

  function Digit(d: nat): (c: char)
    requires d < 10
    ensures IsDigit(c) && c as int - '0' as int == d
  {
    '0' + (d as char)
  }

  function Decimal(n: nat): (s: string)
    ensures s != [] && forall i :: 0 <= i < |s| ==> IsDigit(s[i])
  {
    if n < 10 then [Digit(n)] else Decimal(n / 10) + [Digit(n % 10)]
  }

  /** std::to_string, and printf's %d. */
  function ToString(n: int): (s: string)
    ensures s != [] && forall i :: 0 <= i < |s| ==> IsDigit(s[i]) || (i == 0 && s[i] == '-' && n < 0)
    ensures IsDigit(s[0]) <==> 0 <= n
  {
    if n < 0 then "-" + Decimal(-n) else Decimal(n)
  }

  /** The value of the digits that lead `text`, continuing from `acc`. */
  function LeadingValue(text: string, acc: nat): nat {
    if text == [] || !IsDigit(text[0]) then acc
    else LeadingValue(text[1..], acc * 10 + (text[0] as int - '0' as int))
  }

  /** Reading back what Decimal printed, whatever follows it. */
  lemma {:induction false} DecimalReadsBack(n: nat, rest: string)
    ensures LeadingValue(Decimal(n) + rest, 0) == LeadingValue(rest, n)
    decreases n
  {
    if n < 10 {
      assert (Decimal(n) + rest)[1..] == rest;
    } else {
      var tail := [Digit(n % 10)] + rest;
      assert Decimal(n) + rest == Decimal(n / 10) + tail;
      DecimalReadsBack(n / 10, tail);
      assert tail[1..] == rest;
    }
  }

  lemma {:induction false} ToStringInjective(a: int, b: int)
    requires ToString(a) == ToString(b)
    ensures a == b
  {
    var x, y := if a < 0 then -a else a, if b < 0 then -b else b;
    assert a < 0 <==> b < 0;
    assert Decimal(x) == Decimal(y) by {
      if a < 0 {
        assert ToString(a)[1..] == Decimal(x) && ToString(b)[1..] == Decimal(y);
      }
    }
    DecimalReadsBack(x, []);
    DecimalReadsBack(y, []);
    assert Decimal(x) + [] == Decimal(x);
  }

  function Pow10(k: nat): nat { if k == 0 then 1 else 10 * Pow10(k - 1) }

  lemma {:induction false} DecimalLength(n: nat, k: nat)
    requires 1 <= k && n < Pow10(k)
    ensures |Decimal(n)| <= k
    decreases k
  {
    if n >= 10 {
      assert k > 1;
      DecimalLength(n / 10, k - 1);
    }
  }

  /** isspace in the C locale, which strtol skips. */
  predicate IsSpace(c: char) { c == ' ' || '\t' <= c <= '\r' }

  function SkipSpaces(text: string): string {
    if text != [] && IsSpace(text[0]) then SkipSpaces(text[1..]) else text
  }

  function Clamp64(n: int): int {
    if n > LONG_MAX then LONG_MAX else if n < -LONG_MAX - 1 then -LONG_MAX - 1 else n
  }

  /** atol: optional spaces, optional sign, digits; saturating at the ends of `long`. */
  function Atol(text: string): int {
    var t := SkipSpaces(text);
    if t != [] && t[0] == '-' then Clamp64(0 - LeadingValue(t[1..], 0))
    else if t != [] && t[0] == '+' then Clamp64(LeadingValue(t[1..], 0))
    else Clamp64(LeadingValue(t, 0))
  }

  /** Narrowing a wider integer to a 32-bit `int`. */
  function ToInt32(n: int): (r: int)
    ensures -INT_MAX - 1 <= r <= INT_MAX
    ensures -INT_MAX - 1 <= n <= INT_MAX ==> r == n
  {
    (n + 0x8000_0000) % 0x1_0000_0000 - 0x8000_0000
  }

  /** Printing an `int` and reading it with atol is the identity. */
  lemma AtolReadsToString(n: int)
    requires -INT_MAX - 1 <= n <= INT_MAX
    ensures ToInt32(Atol(ToString(n))) == n
  {
    var m := if n < 0 then -n else n;
    DecimalReadsBack(m, []);
    assert Decimal(m) + [] == Decimal(m);
    var s := ToString(n);
    assert !IsSpace(s[0]);
    if n < 0 {
      assert s[1..] == Decimal(m);
    } else {
      assert s[0] != '-' && s[0] != '+';
    }
  }

  /** What a declared length means: as written up to INT_MAX, wrapped around up to LONG_MAX, and -1 beyond,
      where atol saturates. */
  lemma DeclaredLength(n: nat)
    ensures ToInt32(Atol(Decimal(n))) ==
            if n <= INT_MAX then n
            else if n <= LONG_MAX then (n + 0x8000_0000) % 0x1_0000_0000 - 0x8000_0000
            else -1
  {
    DecimalReadsBack(n, []);
    assert Decimal(n) + [] == Decimal(n);
    var s := Decimal(n);
    assert IsDigit(s[0]) && !IsSpace(s[0]);
  }

  /** Two strings cut at a separator that neither head contains agree on both sides of it. */
  lemma SplitAtSeparator(a: string, b: string, sep: char, x: string, y: string)
    requires sep !in a && sep !in b
    requires a + [sep] + x == b + [sep] + y
    ensures a == b && x == y
  {
    var whole := a + [sep] + x;
    assert whole[|a|] == sep && whole[|b|] == sep;
    assert forall i :: 0 <= i < |a| ==> whole[i] == a[i] != sep;
    assert forall i :: 0 <= i < |b| ==> whole[i] == b[i] != sep;
    assert |a| == |b|;
    assert whole[..|a|] == a && whole[..|b|] == b;
    assert whole[|a| + 1..] == x && whole[|b| + 1..] == y;
  }
}
