/** strconv.FormatInt and strconv.ParseInt, base 10 and 64 bits. */
module Decimal {
  import opened Wrappers

  const MIN64: int := -0x8000_0000_0000_0000
  const MAX64: int := 0x7FFF_FFFF_FFFF_FFFF

  predicate IsDigit(c: char) {
    '0' <= c <= '9'
  }

  function Digit(d: nat): (c: char)
    requires d < 10
    ensures IsDigit(c) && DigitValue(c) == d
  {
    ('0' as int + d) as char
  }

  function DigitValue(c: char): nat
    requires IsDigit(c)
  {
    c as int - '0' as int
  }

  predicate AllDigits(s: string) {
    forall c | c in s :: IsDigit(c)
  }

  function FormatNat(n: nat): string {
    if n < 10 then [Digit(n)] else FormatNat(n / 10) + [Digit(n % 10)]
  }

  function FormatInt(n: int): string {
    if n < 0 then "-" + FormatNat(-n) else FormatNat(n)
  }

  function Value(s: string): nat
    requires AllDigits(s)
  {
    if s == "" then 0
    else
      assert s[|s| - 1] in s;
      10 * Value(s[..|s| - 1]) + DigitValue(s[|s| - 1])
  }

  /** An optional sign, at least one digit, and a value in range. */
  function ParseInt(s: string): Option<int> {
    if s == "" then None
    else
      var digits := if s[0] == '-' || s[0] == '+' then s[1..] else s;
      if digits == "" || !AllDigits(digits) then None
      else
        var magnitude: int := Value(digits);
        var v: int := if s[0] == '-' then -magnitude else magnitude;
        if MIN64 <= v <= MAX64 then Some(v) else None
  }

  lemma {:induction false} FormatNatDigits(n: nat)
    ensures AllDigits(FormatNat(n)) && FormatNat(n) != "" && Value(FormatNat(n)) == n
  {
    if n >= 10 {
      FormatNatDigits(n / 10);
      var s := FormatNat(n);
      assert s[..|s| - 1] == FormatNat(n / 10);
    }
  }

  function Ranged(v: int): Option<int> {
    if MIN64 <= v <= MAX64 then Some(v) else None
  }

  lemma ParseUnsigned(digits: string)
    requires AllDigits(digits) && digits != ""
    ensures ParseInt(digits) == Ranged(Value(digits))
  {
    assert digits[0] in digits;
  }

  lemma ParseSigned(sign: char, digits: string)
    requires AllDigits(digits) && digits != "" && (sign == '-' || sign == '+')
    ensures ParseInt([sign] + digits) == Ranged((if sign == '-' then -1 else 1) * Value(digits))
  {
    assert ([sign] + digits)[1..] == digits;
  }

  /** Parsing a formatted number returns it, over the whole 64-bit range. */
  lemma ParseFormat(n: int)
    requires MIN64 <= n <= MAX64
    ensures ParseInt(FormatInt(n)) == Some(n)
  {
    FormatNatDigits(if n < 0 then -n else n);
    if n < 0 { ParseSigned('-', FormatNat(-n)); } else { ParseUnsigned(FormatNat(n)); }
  }

  lemma FormatChars(n: int)
    ensures forall c | c in FormatInt(n) :: IsDigit(c) || c == '-'
  {
    FormatNatDigits(if n < 0 then -n else n);
  }

  lemma {:induction false} LeadingZeros(k: nat, s: string)
    requires AllDigits(s)
    ensures AllDigits(ZeroDigits(k) + s) && Value(ZeroDigits(k) + s) == Value(s)
    decreases |s|, k
  {
    if s != "" {
      var init, last := s[..|s| - 1], s[|s| - 1];
      var t := ZeroDigits(k) + s;
      LeadingZeros(k, init);
      assert t[..|t| - 1] == ZeroDigits(k) + init && t[|t| - 1] == last;
    } else if k > 0 {
      LeadingZeros(k - 1, "");
      var t := ZeroDigits(k) + "";
      assert t[..|t| - 1] == ZeroDigits(k - 1) + "" && t[|t| - 1] == '0';
    }
  }

  function ZeroDigits(k: nat): string {
    seq(k, i => '0')
  }

  /** Parsing accepts more than formatting produces: every number with a plus sign and any leading zeros. */
  lemma ParseIsLenient(n: nat, k: nat)
    requires n <= MAX64
    ensures ParseInt("+" + ZeroDigits(k) + FormatNat(n)) == Some(n)
    ensures "+" + ZeroDigits(k) + FormatNat(n) != FormatInt(n)
  {
    FormatNatDigits(n);
    LeadingZeros(k, FormatNat(n));
    ParseSigned('+', ZeroDigits(k) + FormatNat(n));
    assert "+" + ZeroDigits(k) + FormatNat(n) == ['+'] + (ZeroDigits(k) + FormatNat(n));
    assert FormatInt(n)[0] in FormatInt(n);
  }

  /** Base ten, most significant digit first, with "-" for negative numbers. */
  lemma Positional(n: nat, d: nat)
    requires d < 10
    ensures FormatInt(d) == ["0123456789"[d]]
    ensures n > 0 ==> FormatInt(10 * n + d) == FormatInt(n) + FormatInt(d)
    ensures n > 0 ==> FormatInt(-(n as int)) == "-" + FormatInt(n)
  {
    assert "0123456789"[d] == ('0' as int + d) as char;
  }
}
