/** The optional value returned by the parsers that invert the renderers. */
module Options {
  datatype Option<T> = None | Some(value: T)
}

/**
  Decimal rendering of integers, standing for Go's strconv.Itoa, the `%d`
  verb and the zero-padded `%02d` verb of fmt.Sprintf, together with the
  parsers that read such text back and the round trips between them.
 */
module Decimal {
  import opened Options

  predicate IsDigit(c: char) {
    '0' <= c <= '9'
  }

  predicate AllDigits(s: string) {
    forall i :: 0 <= i < |s| ==> IsDigit(s[i])
  }

  function DigitChar(d: nat): (c: char)
    requires d < 10
    ensures IsDigit(c)
    ensures DigitValue(c) == d
  {
    ('0' as int + d) as char
  }

  function DigitValue(c: char): (d: nat)
    requires IsDigit(c)
    ensures d < 10
  {
    c as int - '0' as int
  }

  /** The shortest decimal text of n, as strconv.Itoa writes a non-negative int. */
  function NatDigits(n: nat): (s: string)
    ensures |s| >= 1 && AllDigits(s)
    ensures |s| > 1 ==> s[0] != '0'
    ensures n < 10 <==> |s| == 1
    ensures s[0] == '0' <==> n == 0
    decreases n
  {
    if n < 10 then [DigitChar(n)] else NatDigits(n / 10) + [DigitChar(n % 10)]
  }

  /** The value of a string of decimal digits (leading zeros allowed). */
  function ParseNat(s: string): nat
    requires AllDigits(s)
    decreases |s|
  {
    if |s| == 0 then 0 else 10 * ParseNat(s[..|s| - 1]) + DigitValue(s[|s| - 1])
  }

  lemma {:induction false} ParseNatDigits(n: nat)
    ensures ParseNat(NatDigits(n)) == n
    decreases n
  {
    if n >= 10 {
      var s := NatDigits(n / 10);
      var t := s + [DigitChar(n % 10)];
      assert t[..|t| - 1] == s;
      ParseNatDigits(n / 10);
    }
  }

  /** strconv.Itoa (and the `%d` verb): a '-' sign before the magnitude of a negative number. */
  function Itoa(n: int): (s: string)
    ensures |s| >= 1
    ensures s[0] == '-' <==> n < 0
    ensures n >= 0 ==> AllDigits(s)
    ensures n < 0 ==> |s| >= 2 && AllDigits(s[1..])
    ensures |s| >= 2 && s[0] != '-' ==> s[0] != '0'
    ensures n < 0 ==> s[1] != '0'
  {
    if n < 0 then "-" + NatDigits(-n) else NatDigits(n)
  }

  /** Reads back what Itoa writes: an optional '-' followed by at least one digit. */
  function ParseInt(s: string): Option<int> {
    if |s| >= 2 && s[0] == '-' && AllDigits(s[1..]) then
      var magnitude: int := ParseNat(s[1..]);
      Some(-magnitude)
    else if |s| >= 1 && AllDigits(s) then Some(ParseNat(s) as int)
    else None
  }

  lemma ItoaRoundTrip(n: int)
    ensures ParseInt(Itoa(n)) == Some(n)
  {
    var s := Itoa(n);
    if n < 0 {
      var digits := NatDigits(-n);
      assert s == "-" + digits;
      assert s[1..] == digits;
      ParseNatDigits(-n);
      assert ParseInt(s) == Some(-(ParseNat(digits) as int));
    } else {
      assert !IsDigit('-');
      assert s[0] != '-';
      ParseNatDigits(n);
      assert ParseInt(s) == Some(ParseNat(s) as int);
    }
  }

  /** The `%02d` verb on a non-negative number: at least two digits, zero-padded on the left. */
  function Pad2(n: nat): (s: string)
    ensures AllDigits(s)
    ensures |s| >= 2
    ensures n < 100 ==> |s| == 2
    ensures ParseNat(s) == n
  {
    var digits := NatDigits(n);
    ParseNatDigits(n);
    if n < 10 then
      assert ParseNat(['0'] + digits) == n by {
        assert (['0'] + digits)[..1] == ['0'];
      }
      ['0'] + digits
    else
      assert |NatDigits(n / 10)| == 1 <== n < 100;
      digits
  }
}
