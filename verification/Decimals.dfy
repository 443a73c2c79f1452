/** Decimal numbers as Rust prints and parses them. */
module Decimals {
  import opened Options

  const I32_MAX: nat := 0x7FFF_FFFF
  const U32_MAX: nat := 0xFFFF_FFFF
  const U64_MAX: nat := 0xFFFF_FFFF_FFFF_FFFF

  predicate IsDigit(c: char) {
    '0' <= c <= '9'
  }

  function DigitChar(d: nat): (c: char)
    requires d < 10
    ensures IsDigit(c) && (c as int) - ('0' as int) == d
  {
    ('0' as int + d) as char
  }

  function Decimal(n: nat): (s: string)
    ensures s != "" && forall c | c in s :: IsDigit(c)
  {
    if n < 10 then [DigitChar(n)] else Decimal(n / 10) + [DigitChar(n % 10)]
  }

  /** The digits of a number, the last one standing for what is left of it modulo ten. */
  lemma DecimalPlaces(n: nat, d: nat)
    requires d < 10
    ensures Decimal(d) == ["0123456789"[d]]
    ensures n > 0 ==> Decimal(10 * n + d) == Decimal(n) + ["0123456789"[d]]
  {
    assert "0123456789"[d] as int == '0' as int + d;
  }

  /** The number a run of digits denotes; None for an empty run or a stray character. */
  function ParseDigits(s: string): Option<nat> {
    if s == "" || !IsDigit(s[|s| - 1]) then None
    else
      var d := (s[|s| - 1] as int) - ('0' as int);
      if |s| == 1 then Some(d)
      else
        match ParseDigits(s[..|s| - 1])
        case None => None
        case Some(n) => Some(10 * n + d)
  }

  /** `str::parse` for an unsigned type with the given maximum: a leading `+` is allowed. */
  function ParseUnsigned(s: string, max: nat): Option<nat> {
    var r := ParseDigits(if s != "" && s[0] == '+' then s[1..] else s);
    if r.Some? && r.value > max then None else r
  }

  /** `str::parse::<i32>`. */
  function ParseI32(s: string): Option<int> {
    if s != "" && s[0] == '-' then
      match ParseDigits(s[1..])
      case None => None
      case Some(n) => (var m: int := n; if m > I32_MAX + 1 then None else Some(-m))
    else
      match ParseUnsigned(s, I32_MAX)
      case None => None
      case Some(n) => Some(n)
  }

  lemma {:induction false} OnlyDigitsParse(s: string)
    ensures ParseDigits(s).Some? <==> s != "" && forall c | c in s :: IsDigit(c)
  {
    if s != "" {
      var n := |s| - 1;
      OnlyDigitsParse(s[..n]);
      assert s == s[..n] + [s[n]];
      assert forall c :: c in s <==> c in s[..n] || c == s[n];
    }
  }

  /** Nothing but digits after an optional sign is a number. */
  lemma OnlyNumbersParse(s: string)
    requires ParseI32(s).Some?
    ensures s != "" && (IsDigit(s[0]) || ((s[0] == '-' || s[0] == '+') && |s| > 1))
    ensures forall i | 1 <= i < |s| :: IsDigit(s[i])
  {
    OnlyDigitsParse(s);
    OnlyDigitsParse(s[1..]);
    assert forall i | 1 <= i < |s| :: s[i] == s[1..][i - 1];
  }

  lemma {:induction false} DigitsRoundTrip(n: nat)
    ensures ParseDigits(Decimal(n)) == Some(n)
  {
    if n >= 10 {
      DigitsRoundTrip(n / 10);
      assert Decimal(n)[..|Decimal(n)| - 1] == Decimal(n / 10);
    }
  }

  /** Printed numbers parse back, up to the maximum of the type and no further. */
  lemma UnsignedRoundTrip(n: nat, max: nat)
    ensures ParseUnsigned(Decimal(n), max) == if n <= max then Some(n) else None
  {
    DigitsRoundTrip(n);
    assert Decimal(n)[0] in Decimal(n);
  }

  lemma I32RoundTrip(n: nat)
    ensures ParseI32(Decimal(n)) == if n <= I32_MAX then Some(n) else None
  {
    UnsignedRoundTrip(n, I32_MAX);
    assert Decimal(n)[0] in Decimal(n);
  }

  /** Negative numbers, down to the minimum and no further. */
  lemma NegativeRoundTrip(n: nat)
    ensures ParseI32("-" + Decimal(n)) == if n <= 0x8000_0000 then Some(-(n as int)) else None
  {
    DigitsRoundTrip(n);
    assert ("-" + Decimal(n))[1..] == Decimal(n);
  }
}
