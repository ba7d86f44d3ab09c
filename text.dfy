/**
 Decimal text as Rust writes and reads it: the `{}` formatting of integers
 (used for topic keys and report lines) and `str::parse::<u64>` (used for the
 subscriber's `--time` argument).
 */
module Text {
  import opened Optional
  import opened RustInt

  predicate IsDigit(c: char) { '0' as int <= c as int <= '9' as int }

  function DigitValue(c: char): (d: nat)
    requires IsDigit(c)
    ensures d < 10
  {
    c as int - '0' as int
  }

  function DigitChar(d: nat): (c: char)
    requires d < 10
    ensures IsDigit(c) && DigitValue(c) == d
  {
    ('0' as int + d) as char
  }

  /** The value of a string of decimal digits, most significant first. */
  function DigitsValue(s: string): (v: nat)
    requires forall i | 0 <= i < |s| :: IsDigit(s[i])
  {
    if s == [] then 0
    else DigitsValue(s[..|s| - 1]) * 10 + DigitValue(s[|s| - 1])
  }

  /** `{}` of an unsigned integer: its decimal digits, no sign, no leading zero. */
  function NatToString(n: nat): (s: string)
    ensures |s| >= 1 && forall i | 0 <= i < |s| :: IsDigit(s[i])
    ensures s[0] == '0' ==> n == 0
  {
    if n < 10 then [DigitChar(n)] else NatToString(n / 10) + [DigitChar(n % 10)]
  }

  predicate AllDigits(s: string) {
    forall i | 0 <= i < |s| :: IsDigit(s[i])
  }

  /**
   `{}` of a signed integer: a minus sign before the digits of a negative
   value. Reading it back, the sign tells whether the value was negative and
   the digits give its magnitude.
   */
  function IntToString(x: int): (s: string)
    ensures |s| >= 1
    ensures s[0] == '-' <==> x < 0
    ensures x < 0 ==> |s| >= 2 && AllDigits(s[1..]) && DigitsValue(s[1..]) == -x
    ensures x >= 0 ==> AllDigits(s) && DigitsValue(s) == x
  {
    if x < 0 then
      var digits := NatToString(-x);
      NatToStringValue(-x);
      assert ("-" + digits)[1..] == digits;
      "-" + digits
    else
      NatToStringValue(x);
      NatToString(x)
  }

  /** Different integers are written differently. */
  lemma IntToStringInjective(a: int, b: int)
    ensures IntToString(a) == IntToString(b) ==> a == b
  {
  }

  /** Reading the digits back gives the number that was written. */
  lemma {:induction false} NatToStringValue(n: nat)
    ensures DigitsValue(NatToString(n)) == n
  {
    if n >= 10 {
      var s := NatToString(n);
      assert s[..|s| - 1] == NatToString(n / 10);
      NatToStringValue(n / 10);
    }
  }

  /** Different numbers are written differently. */
  lemma NatToStringInjective(a: nat, b: nat)
    ensures NatToString(a) == NatToString(b) ==> a == b
  {
    NatToStringValue(a);
    NatToStringValue(b);
  }

  /** A number below 10^k is written with at most k digits: nothing pads it. */
  lemma {:induction false} NatToStringLength(n: nat, k: nat)
    requires 1 <= k && n < Pow10(k)
    ensures |NatToString(n)| <= k
  {
    if n >= 10 {
      assert Pow10(k) == 10 * Pow10(k - 1);
      NatToStringLength(n / 10, k - 1);
    }
  }

  function Pow10(k: nat): (p: nat)
    ensures p >= 1
  {
    if k == 0 then 1 else 10 * Pow10(k - 1)
  }

  /** The text after one leading `+`, which an unsigned parse accepts and drops. */
  function Unsigned(s: string): (digits: string)
  {
    if |s| > 0 && s[0] == '+' then s[1..] else s
  }

  /**
   `str::parse::<u64>`: an optional `+` followed by at least one decimal digit,
   with a value that fits in 64 bits; anything else is an error (None).
   */
  function ParseU64(s: string): (r: Option<nat>)
    ensures r.Some? ==> Unsigned(s) != [] && AllDigits(Unsigned(s))
    ensures r.Some? ==> r.value == DigitsValue(Unsigned(s)) && IsU64(r.value)
    ensures Unsigned(s) != [] && AllDigits(Unsigned(s)) && DigitsValue(Unsigned(s)) <= U64Max ==> r.Some?
  {
    var digits := Unsigned(s);
    if digits != [] && AllDigits(digits) && DigitsValue(digits) <= U64Max then Some(DigitsValue(digits))
    else None
  }

  /**
   What `str::parse::<u64>` rejects: the empty string, a lone `+`, any
   character other than a digit except one leading `+` (so a leading `-` or a
   space), and digits whose value exceeds `u64::MAX`.
   */
  lemma ParseU64Rejects(s: string)
    ensures s == [] || s == "+" ==> ParseU64(s) == None
    ensures forall i | 0 <= i < |s| && !IsDigit(s[i]) && !(i == 0 && s[i] == '+') :: ParseU64(s) == None
    ensures |s| > 0 && s[0] == '-' ==> ParseU64(s) == None
    ensures AllDigits(s) && DigitsValue(s) > U64Max ==> ParseU64(s) == None
  {
    forall i | 0 <= i < |s| && !IsDigit(s[i]) && !(i == 0 && s[i] == '+')
      ensures ParseU64(s) == None
    {
      var digits := Unsigned(s);
      if |s| > 0 && s[0] == '+' {
        assert digits[i - 1] == s[i];
      } else {
        assert digits[i] == s[i];
      }
    }
    if |s| > 0 && s[0] == '-' {
      assert !IsDigit(s[0]);
    }
    if AllDigits(s) && s != [] {
      assert !(s[0] == '+');
    }
  }

  /** A leading zero adds nothing to the value of a string of digits. */
  lemma {:induction false} LeadingZeroValue(s: string)
    requires AllDigits(s)
    ensures AllDigits("0" + s) && DigitsValue("0" + s) == DigitsValue(s)
    decreases |s|
  {
    var z := "0" + s;
    assert AllDigits(z) by {
      forall i | 0 <= i < |z| ensures IsDigit(z[i]) {
        if i > 0 { assert z[i] == s[i - 1]; }
      }
    }
    if s != [] {
      var front := s[..|s| - 1];
      assert z[..|z| - 1] == "0" + front;
      assert z[|z| - 1] == s[|s| - 1];
      LeadingZeroValue(front);
    }
  }

  /** Leading zeros are accepted and do not change the parsed value. */
  lemma ParseU64LeadingZero(s: string)
    requires s != [] && AllDigits(s)
    ensures ParseU64("0" + s) == ParseU64(s)
  {
    LeadingZeroValue(s);
    assert s[0] != '+';
    assert ("0" + s)[0] != '+';
  }

  /** Every 64-bit value written with `{}` parses back to itself. */
  lemma ParseU64RoundTrip(n: nat)
    requires IsU64(n)
    ensures ParseU64(NatToString(n)) == Some(n)
    ensures ParseU64("+" + NatToString(n)) == Some(n)
  {
    var s := NatToString(n);
    NatToStringValue(n);
    assert ("+" + s)[1..] == s;
  }
}
