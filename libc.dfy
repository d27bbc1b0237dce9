/** The two C library calls that argument parsing depends on: `atoi` and the
    result of `inet_pton`. */
module LibC {
  import opened Native

  /** `isspace` in the C locale: space, and the control characters 9 to 13. */
  predicate IsSpace(c: char) {
    c == ' ' || 9 <= c as int <= 13
  }

  predicate IsDigit(c: char) {
    '0' <= c <= '9'
  }

  predicate AllDigits(s: string) {
    forall k :: 0 <= k < |s| ==> IsDigit(s[k])
  }

  function DigitValue(c: char): nat
    requires IsDigit(c)
  {
    c as int - '0' as int
  }

  /** The decimal rendering of `n`, without sign or leading zeros. */
  function Decimal(n: nat): (r: string)
    ensures |r| > 0 && AllDigits(r)
  {
    if n < 10 then [(48 + n) as char] else Decimal(n / 10) + [(48 + n % 10) as char]
  }

  function SkipSpace(s: string): (r: string)
    ensures r == [] || !IsSpace(r[0])
  {
    if s != [] && IsSpace(s[0]) then SkipSpace(s[1..]) else s
  }

  /** Folds the leading run of decimal digits of `s` into `acc`, most significant first. */
  function Accumulate(s: string, acc: nat): nat
  {
    if s != [] && IsDigit(s[0]) then Accumulate(s[1..], acc * 10 + DigitValue(s[0])) else acc
  }

  /** `atoi`: leading white space, an optional sign, then the longest run of digits;
      0 when there are no digits. The value is an unbounded integer. */
  function Atoi(s: string): int
  {
    var t := SkipSpace(s);
    if t != [] && t[0] == '-' then -(Accumulate(t[1..], 0) as int)
    else if t != [] && t[0] == '+' then Accumulate(t[1..], 0)
    else Accumulate(t, 0)
  }

  lemma {:induction false} AccumulateConcat(a: string, b: string, acc: nat)
    requires AllDigits(a)
    ensures Accumulate(a + b, acc) == Accumulate(b, Accumulate(a, acc))
  {
    if a == [] {
      assert a + b == b;
    } else {
      assert (a + b)[0] == a[0];
      assert (a + b)[1..] == a[1..] + b;
      AccumulateConcat(a[1..], b, acc * 10 + DigitValue(a[0]));
    }
  }

  lemma {:induction false} AccumulateDecimal(n: nat)
    ensures Accumulate(Decimal(n), 0) == n
  {
    if n >= 10 {
      var d := (48 + n % 10) as char;
      AccumulateDecimal(n / 10);
      AccumulateConcat(Decimal(n / 10), [d], 0);
      assert Accumulate([d], n / 10) == n / 10 * 10 + n % 10;
    }
  }

  /** `atoi` reads back the decimal rendering of a natural number, whatever
      non-digit text follows it. */
  lemma AtoiDecimal(n: nat, rest: string)
    requires rest == [] || !IsDigit(rest[0])
    ensures Atoi(Decimal(n) + rest) == n
  {
    var s := Decimal(n) + rest;
    assert s[0] == Decimal(n)[0];
    assert SkipSpace(s) == s;
    AccumulateConcat(Decimal(n), rest, 0);
    AccumulateDecimal(n);
  }

  /** A leading minus sign negates the value. */
  lemma AtoiNegative(n: nat, rest: string)
    requires rest == [] || !IsDigit(rest[0])
    ensures Atoi("-" + Decimal(n) + rest) == -(n as int)
  {
    var s := "-" + Decimal(n) + rest;
    assert SkipSpace(s) == s;
    assert s[1..] == Decimal(n) + rest;
    AccumulateConcat(Decimal(n), rest, 0);
    AccumulateDecimal(n);
  }

  /** The outcome of `inet_pton(AF_INET, text, &dst)`: 1 with the converted
      address, 0 when the text is not a dotted-decimal address, -1 when the
      address family is not supported. Only a return of 1 writes `dst`. */
  datatype PtonResult = Converted(addr: uint32) | NotAnAddress | AfNotSupported
  {
    function Code(): (r: int)
      ensures r == 1 <==> Converted?
      ensures r in {1, 0, -1}
    {
      match this
      case Converted(_) => 1
      case NotAnAddress => 0
      case AfNotSupported => -1
    }
  }
}
