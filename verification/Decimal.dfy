/** Decimal numbers in text: `std::to_string` and `std::from_chars` on unsigned integers, as config.cpp uses them. */
module Decimal {
  import opened Bytes

  const UINT32_LIMIT := 0x1_0000_0000

  predicate IsDigit(c: char) { '0' <= c <= '9' }

  function DigitChar(d: nat): (c: char)
    requires d < 10
    ensures IsDigit(c) && c as int - '0' as int == d
  {
    ('0' as int + d) as char
  }

  function ToText(n: nat): (s: string)
    ensures s != "" && forall i :: 0 <= i < |s| ==> IsDigit(s[i])
  {
    if n < 10 then [DigitChar(n)] else ToText(n / 10) + [DigitChar(n % 10)]
  }

  /** The value of a run of digits. */
  function Value(s: string): (n: nat)
    requires forall i :: 0 <= i < |s| ==> IsDigit(s[i])
  {
    if s == "" then 0 else
    assert IsDigit(s[|s| - 1]);
    Value(s[..|s| - 1]) * 10 + (s[|s| - 1] as int - '0' as int)
  }

  predicate AllDigits(s: string) { forall i :: 0 <= i < |s| ==> IsDigit(s[i]) }

  /** A whole text read as an unsigned 32-bit number: digits only, at least one, no overflow. */
  function Number(s: string): (r: Result<nat>)
    ensures r.Ok? ==> r.value < UINT32_LIMIT
  {
    if s == "" || !AllDigits(s) || Value(s) >= UINT32_LIMIT then Err("CONFIG_NUMBER") else Ok(Value(s))
  }

  lemma {:induction false} ValueOfText(n: nat)
    ensures Value(ToText(n)) == n
  {
    if n >= 10 {
      ValueOfText(n / 10);
      assert ToText(n)[..|ToText(n)| - 1] == ToText(n / 10);
    }
  }

  /** Every 32-bit number reads back from its text. */
  lemma NumberRoundTrip(n: nat)
    requires n < UINT32_LIMIT
    ensures Number(ToText(n)) == Ok(n)
  {
    ValueOfText(n);
  }

  /** Different numbers have different texts. */
  lemma TextInjective(m: nat, n: nat)
    requires ToText(m) == ToText(n)
    ensures m == n
  {
    ValueOfText(m);
    ValueOfText(n);
  }
}
