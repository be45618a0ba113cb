/** Numerals as `strconv` prints and parses them. */
module Numerals {
  import opened Wrappers

  const DIGITS: string := "0123456789abcdef"

  function DigitChar(d: nat): char
    requires d < 16
  {
    DIGITS[d]
  }

  function DigitValue(c: char): nat {
    if '0' <= c <= '9' then (c - '0') as nat
    else if 'a' <= c <= 'z' then (c - 'a') as nat + 10
    else if 'A' <= c <= 'Z' then (c - 'A') as nat + 10
    else 36
  }

  function Format(n: nat, base: nat): (s: string)
    requires 2 <= base <= 16
    ensures s != ""
  {
    if n < base then [DigitChar(n)] else Format(n / base, base) + [DigitChar(n % base)]
  }

  predicate AllDigits(s: string, base: nat) {
    forall i | 0 <= i < |s| :: DigitValue(s[i]) < base
  }

  function Value(s: string, base: nat): nat {
    if s == "" then 0 else Value(s[..|s| - 1], base) * base + DigitValue(s[|s| - 1])
  }

  function Unsigned(s: string, base: nat): Option<nat> {
    if s != "" && AllDigits(s, base) then Some(Value(s, base)) else None
  }

  const MAX_INT64: int := 0x7fff_ffff_ffff_ffff
  const MIN_INT64: int := -0x8000_0000_0000_0000

  /** `strconv.ParseInt(s, base, 64)`, also `Atoi`: an optional sign, then digits,
      within 64 bits. */
  function ParseInt(s: string, base: nat): Option<int> {
    if s != "" && (s[0] == '+' || s[0] == '-') then
      match Unsigned(s[1..], base)
      case None => None
      case Some(n) => InRange(if s[0] == '-' then 0 - n else n as int)
    else
      match Unsigned(s, base)
      case None => None
      case Some(n) => InRange(n)
  }

  function InRange(n: int): Option<int> {
    if MIN_INT64 <= n <= MAX_INT64 then Some(n) else None
  }

  lemma DigitOfChar(d: nat)
    requires d < 16
    ensures DigitValue(DigitChar(d)) == d
  {
    assert DIGITS[d] == (if d < 10 then '0' + d as char else 'a' + (d - 10) as char);
  }

  lemma ValueStep(s: string, c: char, base: nat)
    requires AllDigits(s, base) && DigitValue(c) < base
    ensures AllDigits(s + [c], base) && Value(s + [c], base) == Value(s, base) * base + DigitValue(c)
  {
    assert (s + [c])[..|s|] == s;
  }

  lemma EmptyValue(base: nat)
    ensures Value("", base) == 0 && AllDigits("", base)
  {}

  lemma Smaller(n: nat, base: nat)
    requires 2 <= base <= n
    ensures n / base < n && n % base < base
  {}

  lemma DivMod(n: nat, base: nat)
    requires base > 0
    ensures n / base * base + n % base == n
  {}

  lemma {:induction false} FormatDigits(n: nat, base: nat)
    requires 2 <= base <= 16
    ensures AllDigits(Format(n, base), base) && Value(Format(n, base), base) == n
    decreases n
  {
    hide Value, AllDigits, DigitValue, DigitChar;
    if n < base {
      assert Value("", base) == 0 && AllDigits("", base) by { EmptyValue(base); }
      DigitOfChar(n);
      ValueStep("", DigitChar(n), base);
      assert Format(n, base) == "" + [DigitChar(n)];
    } else {
      var q, r := n / base, n % base;
      Smaller(n, base);
      FormatDigits(q, base);
      DigitOfChar(r);
      ValueStep(Format(q, base), DigitChar(r), base);
      DivMod(n, base);
    }
  }

  /** Different numbers print differently. */
  lemma FormatOnce(i: nat, j: nat, base: nat)
    requires 2 <= base <= 16 && Format(i, base) == Format(j, base)
    ensures i == j
  {
    FormatDigits(i, base);
    FormatDigits(j, base);
  }

  /** What `Format` prints, `ParseInt` reads back. */
  lemma FormatParses(n: nat, base: nat)
    requires 2 <= base <= 16 && n <= MAX_INT64
    ensures ParseInt(Format(n, base), base) == Some(n)
  {
    FormatDigits(n, base);
    assert DigitValue(Format(n, base)[0]) < base;
  }
}
