/** itoa of internal/oci/transport.go: decimal digits written backwards into a 20-byte buffer. */
module Decimal {
  function Digit(d: int): char
    requires 0 <= d < 10
  {
    ['0', '1', '2', '3', '4', '5', '6', '7', '8', '9'][d]
  }

  /** The decimal digits of n, most significant first. */
  function Digits(n: nat): string {
    if n < 10 then [Digit(n)] else Digits(n / 10) + [Digit(n % 10)]
  }

  /** The number a string of decimal digits denotes, most significant digit first. */
  function Value(s: string): int {
    if s == "" then 0 else 10 * Value(s[..|s| - 1]) + (s[|s| - 1] as int - '0' as int)
  }

  lemma DigitValue(d: int)
    requires 0 <= d < 10
    ensures '0' <= Digit(d) <= '9' && Digit(d) as int - '0' as int == d
  {
  }

  /** Digits is the usual notation: it denotes n, in decimal digits, without a leading zero. */
  lemma {:induction false} DigitsDenote(n: nat)
    ensures Value(Digits(n)) == n
    ensures forall i | 0 <= i < |Digits(n)| :: '0' <= Digits(n)[i] <= '9'
    ensures n > 0 ==> Digits(n)[0] != '0'
    ensures |Digits(n)| >= 1
  {
    DigitValue(n % 10);
    if n < 10 {
      assert [Digit(n)][..0] == "";
    } else {
      DigitsDenote(n / 10);
      assert Digits(n)[..|Digits(n)| - 1] == Digits(n / 10);
    }
  }

  function Pow10(k: nat): nat {
    if k == 0 then 1 else 10 * Pow10(k - 1)
  }

  lemma {:induction false} DigitsLength(n: nat, k: nat)
    requires k >= 1 && n < Pow10(k)
    ensures |Digits(n)| <= k
  {
    if n >= 10 {
      DigitsLength(n / 10, k - 1);
    }
  }

  lemma {:induction false} Pow10Add(a: nat, b: nat)
    ensures Pow10(a + b) == Pow10(a) * Pow10(b)
  {
    if a > 0 {
      Pow10Add(a - 1, b);
      assert Pow10(a) * Pow10(b) == 10 * (Pow10(a - 1) * Pow10(b));
    }
  }

  lemma Pow10Twenty()
    ensures Pow10(20) == 100_000_000_000_000_000_000
  {
    assert Pow10(5) == 100_000 by {
      assert Pow10(2) == 100;
      assert Pow10(4) == 10_000;
    }
    Pow10Add(5, 5);
    Pow10Add(10, 10);
  }

  /** itoa on Go's 64-bit int: the decimal notation of a non-negative n, nothing for a negative one. */
  method Itoa(n: int) returns (s: string)
    requires -0x8000_0000_0000_0000 <= n < 0x8000_0000_0000_0000
    ensures n >= 0 ==> s == Digits(n)
    ensures n < 0 ==> s == ""
  {
    if n == 0 {
      return "0";
    }
    var buf := new char[20];
    var i := buf.Length;
    var rest := n;
    if n > 0 {
      Pow10Twenty();
      DigitsLength(n, 20);
    }
    while rest > 0
      invariant 0 <= i <= 20
      invariant n < 0 ==> rest == n && i == 20
      invariant n > 0 ==> rest >= 0
      invariant n > 0 && rest > 0 ==> Digits(n) == Digits(rest) + buf[i..] && |Digits(rest)| <= i
      invariant n > 0 && rest == 0 ==> Digits(n) == buf[i..]
      decreases rest
    {
      ghost var tail := buf[i..];
      i := i - 1;
      buf[i] := Digit(rest % 10);
      assert buf[i..] == [Digit(rest % 10)] + tail;
      if rest >= 10 {
        assert Digits(rest) + tail == Digits(rest / 10) + buf[i..];
      }
      rest := rest / 10;
    }
    s := buf[i..];
  }
}
