/** Java's fixed-width integers and the decimal text form of a long:
    narrowing to int and long, Long.toString and Long.parseLong. */
module Numbers {
  import opened Wrappers

  const TWO_31: int := 0x8000_0000
  const TWO_32: int := 0x1_0000_0000
  const TWO_63: int := 0x8000_0000_0000_0000
  const TWO_64: int := 0x1_0000_0000_0000_0000

  predicate InInt32(x: int) { -TWO_31 <= x < TWO_31 }

  predicate InInt64(x: int) { -TWO_63 <= x < TWO_63 }

  /** The value of x after a narrowing to Java `int`: the low 32 bits, read
      as two's complement. Java's int addition wraps the same way. */
  function Wrap32(x: int): (r: int)
    ensures InInt32(r)
    ensures InInt32(x) ==> r == x
  {
    (x + TWO_31) % TWO_32 - TWO_31
  }

  /** The value of x after a narrowing to Java `long` (and long addition). */
  function Wrap64(x: int): (r: int)
    ensures InInt64(r)
    ensures InInt64(x) ==> r == x
  {
    (x + TWO_63) % TWO_64 - TWO_63
  }

  /** Adding a multiple of 2^32 is invisible after narrowing to int. */
  lemma Wrap32Shift(x: int, q: int)
    ensures Wrap32(x + q * TWO_32) == Wrap32(x)
  {
  }

  /** Narrowing an intermediate sum to int first does not change the final
      narrowed value: the reason a 32-bit accumulator equals the wrapped sum. */
  lemma Wrap32AddWrapped(x: int, y: int)
    ensures Wrap32(Wrap32(x) + y) == Wrap32(x + y)
  {
    var q := (x + TWO_31) / TWO_32;
    assert Wrap32(x) == x - q * TWO_32;
    Wrap32Shift(x + y, -q);
  }

  /** `(int) longValue`: narrowing a long-wrapped value to int is the same as
      narrowing the exact value to int. */
  lemma Wrap32OfWrap64(x: int)
    ensures Wrap32(Wrap64(x)) == Wrap32(x)
  {
    var q := (x + TWO_63) / TWO_64;
    assert Wrap64(x) == x + (-q * TWO_32) * TWO_32;
    Wrap32Shift(x, -q * TWO_32);
  }

  predicate IsDigit(c: char) { '0' <= c <= '9' }

  predicate AllDigits(s: string) { forall i :: 0 <= i < |s| ==> IsDigit(s[i]) }

  function DigitValue(c: char): (d: nat)
    requires IsDigit(c)
    ensures d < 10
  {
    (c as int) - ('0' as int)
  }

  function DigitChar(d: nat): (c: char)
    requires d < 10
    ensures IsDigit(c) && DigitValue(c) == d
  {
    ((('0' as int) + d) as char)
  }

  /** The number a string of decimal digits denotes (leading zeros allowed). */
  function DigitsValue(ds: string): nat
    requires AllDigits(ds)
  {
    if ds == [] then 0
    else DigitsValue(ds[..|ds| - 1]) * 10 + DigitValue(ds[|ds| - 1])
  }

  /** The shortest decimal digit string of n, as Long.toString writes it. */
  function Digits(n: nat): (ds: string)
    ensures |ds| > 0 && AllDigits(ds)
    ensures |ds| > 1 ==> ds[0] != '0'
  {
    if n < 10 then [DigitChar(n)] else Digits(n / 10) + [DigitChar(n % 10)]
  }

  /** Long.toString: an optional minus sign followed by the digits. */
  function LongToString(n: int): (s: string)
    ensures |s| > 0
    ensures forall i :: 0 <= i < |s| ==> IsDigit(s[i]) || (i == 0 && s[i] == '-')
  {
    if n < 0 then "-" + Digits(0 - n) else Digits(n)
  }

  /** Long.parseLong(s, 10): an optional '+' or '-' sign, then one or more
      decimal digits, denoting a value in the range of long; anything else is
      a NumberFormatException, which carries the offending string. */
  function ParseLong(s: string): (r: Result<int, string>)
    ensures r.Success? ==> InInt64(r.value)
    ensures r.Failure? ==> r.error == s
    ensures |s| == 0 ==> r.Failure?
  {
    if |s| == 0 then Failure(s)
    else
      var signed := s[0] == '-' || s[0] == '+';
      var ds := if signed then s[1..] else s;
      if |ds| == 0 || !AllDigits(ds) then Failure(s)
      else
        var v: int := if s[0] == '-' then 0 - (DigitsValue(ds) as int) else DigitsValue(ds);
        if InInt64(v) then Success(v) else Failure(s)
  }

  lemma {:induction false} DigitsRoundTrip(n: nat)
    ensures DigitsValue(Digits(n)) == n
  {
    if n >= 10 {
      var ds := Digits(n);
      assert ds[..|ds| - 1] == Digits(n / 10);
      DigitsRoundTrip(n / 10);
    }
  }

  /** Reading back what Long.toString wrote gives the same long. */
  lemma LongRoundTrip(n: int)
    requires InInt64(n)
    ensures ParseLong(LongToString(n)) == Success(n)
  {
    var s := LongToString(n);
    if n < 0 {
      assert s[1..] == Digits(-n);
      DigitsRoundTrip(-n);
    } else {
      DigitsRoundTrip(n);
    }
  }

  /** A character other than a digit, except a sign in front of more
      characters, makes parseLong fail; so does a bare sign. (The empty
      string is rejected by ParseLong's own contract.) */
  lemma ParseLongRejects(s: string, i: nat)
    requires i < |s| && !IsDigit(s[i])
    requires i > 0 || (s[0] != '-' && s[0] != '+') || |s| == 1
    ensures ParseLong(s) == Failure(s)
  {
    if i > 0 {
      var ds := if s[0] == '-' || s[0] == '+' then s[1..] else s;
      var j := if s[0] == '-' || s[0] == '+' then i - 1 else i;
      assert ds[j] == s[i];
    }
  }
}
