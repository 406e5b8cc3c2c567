/** Rust's `str::parse` for the two integer types the loader asks for:
    `i32` (day, cases, deaths, population) and `usize` (month, on a
    64-bit target). Both accept an optional leading sign (`-` only for the
    signed type), then one or more ASCII digits and nothing else (no
    whitespace); a value outside the type's range is a parse error. */
module IntParse {
  import opened Wrappers

  const I32Min: int := -0x8000_0000
  const I32Max: int := 0x7FFF_FFFF
  const UsizeMax: int := 0xFFFF_FFFF_FFFF_FFFF

  predicate IsDigit(c: char) {
    '0' <= c <= '9'
  }

  predicate AllDigits(s: string) {
    forall i :: 0 <= i < |s| ==> IsDigit(s[i])
  }

  /** The decimal value of a string of digits, most significant first. */
  function DigitsValue(s: string): nat
    requires AllDigits(s)
  {
    if s == [] then 0 else DigitsValue(s[..|s| - 1]) * 10 + (s[|s| - 1] as int - '0' as int)
  }

  /** `s.parse::<i32>()` */
  function ParseI32(s: string): (r: Option<int>)
    ensures r.Some? ==> I32Min <= r.value <= I32Max
    ensures r.Some? ==> |s| > 0 && (IsDigit(s[0]) || (|s| > 1 && (s[0] == '-' || s[0] == '+')))
    ensures r.Some? ==> forall i :: 0 < i < |s| ==> IsDigit(s[i])
  {
    if |s| > 0 && s[0] == '-' then
      var digits := s[1..];
      if digits != [] && AllDigits(digits) && DigitsValue(digits) <= -I32Min then Some(-(DigitsValue(digits) as int)) else None
    else
      var digits := if |s| > 0 && s[0] == '+' then s[1..] else s;
      if digits != [] && AllDigits(digits) && DigitsValue(digits) <= I32Max then Some(DigitsValue(digits)) else None
  }

  /** `s.parse::<usize>()` on a 64-bit target: a minus sign is an invalid digit. */
  function ParseUsize(s: string): (r: Option<nat>)
    ensures r.Some? ==> r.value <= UsizeMax
    ensures r.Some? ==> |s| > 0 && (IsDigit(s[0]) || (|s| > 1 && s[0] == '+'))
    ensures r.Some? ==> forall i :: 0 < i < |s| ==> IsDigit(s[i])
  {
    var digits := if |s| > 0 && s[0] == '+' then s[1..] else s;
    if digits != [] && AllDigits(digits) && DigitsValue(digits) <= UsizeMax then Some(DigitsValue(digits)) else None
  }

  function DigitChar(d: nat): (c: char)
    requires d < 10
    ensures IsDigit(c) && c as int - '0' as int == d
  {
    ('0' as int + d) as char
  }

  /** Decimal rendering of a natural number without leading zeros, the way
      the data source writes its numeric fields. */
  function FormatNat(n: nat): (s: string)
    ensures |s| > 0 && AllDigits(s)
    ensures |s| > 1 ==> s[0] != '0'
    decreases n
  {
    if n < 10 then [DigitChar(n)] else FormatNat(n / 10) + [DigitChar(n % 10)]
  }

  function FormatInt(n: int): string {
    if n < 0 then "-" + FormatNat(-n) else FormatNat(n)
  }

  lemma {:induction false} DigitsValueOfFormat(n: nat)
    ensures DigitsValue(FormatNat(n)) == n
    decreases n
  {
    if n >= 10 {
      var s := FormatNat(n);
      var prefix := FormatNat(n / 10);
      assert s == prefix + [DigitChar(n % 10)];
      assert s[..|s| - 1] == prefix;
      DigitsValueOfFormat(n / 10);
    }
  }

  /** Every `i32` written in decimal parses back to itself. */
  lemma ParseI32OfFormat(n: int)
    requires I32Min <= n <= I32Max
    ensures ParseI32(FormatInt(n)) == Some(n)
  {
    if n < 0 {
      DigitsValueOfFormat(-n);
      assert FormatInt(n)[1..] == FormatNat(-n);
    } else {
      DigitsValueOfFormat(n);
    }
  }

  /** Every `usize` written in decimal parses back to itself. */
  lemma ParseUsizeOfFormat(n: nat)
    requires n <= UsizeMax
    ensures ParseUsize(FormatNat(n)) == Some(n)
  {
    DigitsValueOfFormat(n);
  }

  /** Exactly which strings parse as an `i32`, and to what: digits with an
      optional `+` give their value when it is at most 2^31-1, digits after
      `-` give the negated value when it is at least -2^31; leading zeros are
      allowed and anything else fails. */
  lemma ParseI32Exactly(d: string)
    requires d != [] && AllDigits(d)
    ensures ParseI32(d) == if DigitsValue(d) <= I32Max then Some(DigitsValue(d)) else None
    ensures ParseI32("+" + d) == if DigitsValue(d) <= I32Max then Some(DigitsValue(d)) else None
    ensures ParseI32("-" + d) == if DigitsValue(d) <= -I32Min then Some(-(DigitsValue(d) as int)) else None
  {
    assert ("+" + d)[1..] == d;
    assert ("-" + d)[1..] == d;
  }

  /** Exactly which strings parse as a `usize`, and to what: digits with an
      optional `+` give their value when it is at most 2^64-1; anything else,
      a minus sign included, fails. */
  lemma ParseUsizeExactly(d: string)
    requires d != [] && AllDigits(d)
    ensures ParseUsize(d) == if DigitsValue(d) <= UsizeMax then Some(DigitsValue(d)) else None
    ensures ParseUsize("+" + d) == if DigitsValue(d) <= UsizeMax then Some(DigitsValue(d)) else None
    ensures ParseUsize("-" + d) == None
  {
    assert ("+" + d)[1..] == d;
    assert !IsDigit(("-" + d)[0]);
  }

  /** "+7" and "007" both parse to 7. */
  lemma ParseI32AcceptsNonCanonical()
    ensures ParseI32("+7") == Some(7) && ParseI32("007") == Some(7)
  {
    ParseI32Exactly("7");
    assert DigitsValue("007") == 7 by {
      assert "007"[..2] == "00" && "00"[..1] == "0" && "0"[..0] == "";
    }
  }
}
