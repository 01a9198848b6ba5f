/**
 * Java's `"%d"` rendering of an `int`: an optional minus sign followed by
 * decimal digits, with no leading zeros and no grouping separators.
 */
module JavaFormat {
  import opened Optional

  const IntMin: int := -0x8000_0000
  const IntMax: int := 0x7fff_ffff

  /** The values a Java `int` (such as `Random.nextInt()`) can take. */
  predicate IsInt32(n: int) {
    IntMin <= n <= IntMax
  }

  predicate IsDigit(c: char) {
    '0' <= c <= '9'
  }

  predicate AllDigits(s: string) {
    forall i :: 0 <= i < |s| ==> IsDigit(s[i])
  }

  function DigitChar(d: nat): (c: char)
    requires d < 10
    ensures IsDigit(c) && c as int - '0' as int == d
  {
    ('0' as int + d) as char
  }

  function Pow10(k: nat): (p: nat)
    ensures p >= 1
  {
    if k == 0 then 1 else 10 * Pow10(k - 1)
  }

  /** The value of a string of decimal digits, most significant first. */
  function DigitsValue(s: string): (v: nat)
    requires AllDigits(s)
    ensures v < Pow10(|s|)
  {
    if s == [] then 0
    else DigitsValue(s[..|s| - 1]) * 10 + (s[|s| - 1] as int - '0' as int)
  }

  /** The decimal digits of `n`, without leading zeros ("0" for zero). */
  function Digits(n: nat): (s: string)
    ensures 1 <= |s| && AllDigits(s)
    ensures DigitsValue(s) == n
    ensures |s| > 1 ==> s[0] != '0'
    decreases n
  {
    if n < 10 then [DigitChar(n)]
    else
      var prefix := Digits(n / 10);
      var s := prefix + [DigitChar(n % 10)];
      assert s[..|s| - 1] == prefix;
      s
  }

  /** `String.format("%d", n)`. */
  function FormatInt(n: int): (s: string)
    ensures |s| >= 1
    ensures n < 0 <==> s[0] == '-'
  {
    if n < 0 then "-" + Digits(-n) else Digits(n)
  }

  /**
   * Reads back what FormatInt writes; `None` for anything else. It accepts a
   * text only when formatting its value again gives the same text, so its own
   * contract is close to its guard; the independent content of the round
   * trip is the contract of `Digits` (its digits have the value `n`).
   */
  function ParseInt(s: string): (r: Option<int>)
    ensures r.Some? ==> FormatInt(r.value) == s
  {
    if |s| >= 2 && s[0] == '-' && AllDigits(s[1..]) && s[1] != '0' then
      var v := DigitsValue(s[1..]);
      var negated: int := 0 - v as int;
      if v > 0 && Digits(v) == s[1..] then Some(negated) else None
    else if AllDigits(s) && |s| >= 1 && Digits(DigitsValue(s)) == s then Some(DigitsValue(s))
    else None
  }

  lemma {:induction false} DigitsLength(n: nat, k: nat)
    requires 1 <= k && n < Pow10(k)
    ensures |Digits(n)| <= k
    decreases k
  {
    if n >= 10 {
      assert Pow10(k) == 10 * Pow10(k - 1);
      DigitsLength(n / 10, k - 1);
    }
  }

  predicate IsAscii(s: string) {
    forall i :: 0 <= i < |s| ==> s[i] as int < 128
  }

  /** A rendered int is plain ASCII: a minus sign and digits. */
  lemma FormatIntIsAscii(n: int)
    ensures IsAscii(FormatInt(n))
  {
  }

  /** Formatting a Java int and reading it back gives the int again. */
  lemma ParseFormatRoundTrip(n: int)
    ensures ParseInt(FormatInt(n)) == Some(n)
  {
  }

  /** Different ints render differently. */
  lemma FormatIntInjective(a: int, b: int)
    ensures FormatInt(a) == FormatInt(b) ==> a == b
  {
    ParseFormatRoundTrip(a);
    ParseFormatRoundTrip(b);
  }

  /** A rendered Java int is at most 11 characters long (a sign and ten digits). */
  lemma FormatIntLength(n: int)
    requires IsInt32(n)
    ensures |FormatInt(n)| <= 11
    ensures n >= 0 ==> |FormatInt(n)| <= 10
  {
    assert Pow10(10) == 10000000000 by {
      assert Pow10(5) == 100000;
    }
    if n < 0 { DigitsLength(-n, 10); } else { DigitsLength(n, 10); }
  }
}
