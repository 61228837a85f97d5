/**
 * Decimal rendering of integers as the platform's `String(n)` does it for
 * integers of moderate size, and `padStart(2, '0')`.
 */
module Decimal {

  predicate IsDigit(c: char) {
    '0' <= c <= '9'
  }

  function Digit(n: int): (c: char)
    requires 0 <= n < 10
    ensures IsDigit(c) && c as int - '0' as int == n
  {
    ('0' as int + n) as char
  }

  /** `String(n)` for a non-negative integer: its digits, most significant first. */
  function NatStr(n: nat): string
  {
    if n < 10 then [Digit(n)] else NatStr(n / 10) + [Digit(n % 10)]
  }

  /** The rendering is a non-empty run of digits, a single one exactly below ten. */
  lemma {:induction false} NatStrDigits(n: nat)
    ensures |NatStr(n)| >= 1
    ensures forall i :: 0 <= i < |NatStr(n)| ==> IsDigit(NatStr(n)[i])
    ensures (|NatStr(n)| == 1) == (n < 10)
  {
    if n >= 10 {
      NatStrDigits(n / 10);
    }
  }

  /** `String(x)` for any integer: a leading '-' for negative values. */
  function IntStr(x: int): string
  {
    if x < 0 then "-" + NatStr(-x) else NatStr(x)
  }

  /** The sign shows in the first character. */
  lemma IntStrSign(x: int)
    ensures |IntStr(x)| >= 1
    ensures (IntStr(x)[0] == '-') == (x < 0)
  {
    if x < 0 {
      NatStrDigits(-x);
    } else {
      NatStrDigits(x);
    }
  }

  /** `s.padStart(2, '0')`: prefix zeros until the string has length two. */
  function PadStart2(s: string): string
  {
    if |s| >= 2 then s else seq(2 - |s|, _ => '0') + s
  }

  /** Padding keeps the string as a suffix and puts zeros before it, to length two at least. */
  lemma PadStart2Layout(s: string)
    ensures |PadStart2(s)| == if |s| >= 2 then |s| else 2
    ensures PadStart2(s)[|PadStart2(s)| - |s|..] == s
    ensures forall i :: 0 <= i < |PadStart2(s)| - |s| ==> PadStart2(s)[i] == '0'
  {
  }

  /** `String(n).padStart(2, '0')`. */
  function Pad2(n: nat): string {
    PadStart2(NatStr(n))
  }

  lemma {:induction false} NatStrInjective(a: nat, b: nat)
    requires NatStr(a) == NatStr(b)
    ensures a == b
  {
    NatStrDigits(a);
    NatStrDigits(b);
    if a < 10 || b < 10 {
      assert NatStr(a)[0] == Digit(a) && NatStr(b)[0] == Digit(b);
    } else {
      var sa, sb := NatStr(a / 10), NatStr(b / 10);
      assert NatStr(a) == sa + [Digit(a % 10)];
      assert NatStr(b) == sb + [Digit(b % 10)];
      assert |sa| == |sb|;
      assert sa == NatStr(a)[..|sa|] && sb == NatStr(b)[..|sb|];
      assert Digit(a % 10) == NatStr(a)[|sa|] == Digit(b % 10);
      NatStrInjective(a / 10, b / 10);
    }
  }

  lemma IntStrInjective(x: int, y: int)
    requires IntStr(x) == IntStr(y)
    ensures x == y
  {
    IntStrSign(x);
    IntStrSign(y);
    if x < 0 {
      assert IntStr(x)[1..] == NatStr(-x) && IntStr(y)[1..] == NatStr(-y);
      NatStrInjective(-x, -y);
    } else {
      NatStrInjective(x, y);
    }
  }

  /** Below one hundred, the padded rendering is exactly the tens digit and the units digit. */
  lemma Pad2Digits(n: nat)
    requires n < 100
    ensures Pad2(n) == [Digit(n / 10), Digit(n % 10)]
  {
    if n >= 10 {
      assert NatStr(n) == NatStr(n / 10) + [Digit(n % 10)];
      assert NatStr(n / 10) == [Digit(n / 10)];
    }
  }

  lemma Pad2Injective(a: nat, b: nat)
    requires a < 100 && b < 100 && Pad2(a) == Pad2(b)
    ensures a == b
  {
    Pad2Digits(a);
    Pad2Digits(b);
    assert Digit(a / 10) == Digit(b / 10) && Digit(a % 10) == Digit(b % 10);
  }

  /** Four-digit years render as four digits. */
  lemma FourDigits(n: nat)
    requires 1000 <= n <= 9999
    ensures |NatStr(n)| == 4
  {
    assert NatStr(n) == NatStr(n / 10) + [Digit(n % 10)];
    assert NatStr(n / 10) == NatStr(n / 100) + [Digit((n / 10) % 10)];
    assert NatStr(n / 100) == NatStr(n / 1000) + [Digit((n / 100) % 10)];
  }
}
