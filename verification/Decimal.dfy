/** Decimal digit strings, as strconv and fmt read and write them. */
module Decimal {
  import opened Strings

  predicate Digit(c: char) {
    '0' <= c <= '9'
  }

  predicate AllDigits(s: string) {
    forall i | 0 <= i < |s| :: Digit(s[i])
  }

  function DigitValue(c: char): nat
    requires Digit(c)
  {
    c as int - '0' as int
  }

  function DigitChar(n: nat): (c: char)
    requires n < 10
    ensures Digit(c) && DigitValue(c) == n
  {
    ('0' as int + n) as char
  }

  function ValueOf(s: string): nat
    requires AllDigits(s)
  {
    if s == "" then 0 else ValueOf(s[..|s| - 1]) * 10 + DigitValue(s[|s| - 1])
  }

  /** fmt's %d. */
  function Digits(n: nat): (s: string)
    ensures s != "" && AllDigits(s)
  {
    if n < 10 then [DigitChar(n)] else Digits(n / 10) + [DigitChar(n % 10)]
  }

  lemma {:induction false} ValueOfDigits(n: nat)
    ensures ValueOf(Digits(n)) == n
  {
    if n < 10 {
      assert ValueOf([]) == 0;
      assert Digits(n)[..0] == [];
    } else {
      ValueOfDigits(n / 10);
      assert Digits(n)[..|Digits(n)| - 1] == Digits(n / 10);
    }
  }

  /** fmt's %03d below a thousand. */
  function Padded3(n: nat): (s: string)
    requires n < 1000
    ensures |s| == 3 && AllDigits(s)
  {
    [DigitChar(n / 100), DigitChar(n / 10 % 10), DigitChar(n % 10)]
  }

  /** Among equally long strings the first difference decides, whatever follows them. */
  lemma {:induction false} LessConcat(p: string, q: string, a: string, b: string)
    requires |p| == |q|
    ensures Less(p + a, q + b) <==> Less(p, q) || (p == q && Less(a, b))
  {
    if p == "" {
      assert p + a == a && q + b == b;
    } else {
      LessConcat(p[1..], q[1..], a, b);
      assert (p + a)[1..] == p[1..] + a && (q + b)[1..] == q[1..] + b;
      assert p == [p[0]] + p[1..] && q == [q[0]] + q[1..];
    }
  }

  lemma LessDigit(m: nat, n: nat)
    requires m < 10 && n < 10
    ensures Less([DigitChar(m)], [DigitChar(n)]) <==> m < n
    ensures [DigitChar(m)] == [DigitChar(n)] <==> m == n
  {
    var a, b := [DigitChar(m)], [DigitChar(n)];
    assert a[1..] == "" && b[1..] == "";
    assert a[0] == DigitChar(m) && b[0] == DigitChar(n);
  }

  /** Strings of digits with the same places compare place by place. */
  lemma {:induction false} LessPlaces(m: nat, n: nat, a: string, b: string)
    requires m < 10 && n < 10
    ensures Less([DigitChar(m)] + a, [DigitChar(n)] + b) <==> m < n || (m == n && Less(a, b))
    ensures [DigitChar(m)] + a == [DigitChar(n)] + b <==> m == n && a == b
  {
    LessDigit(m, n);
    LessConcat([DigitChar(m)], [DigitChar(n)], a, b);
    assert ([DigitChar(m)] + a)[1..] == a && ([DigitChar(n)] + b)[1..] == b;
  }

  /** Padding makes the string order the number order. */
  lemma LessPadded3(m: nat, n: nat)
    requires m < 1000 && n < 1000
    ensures Less(Padded3(m), Padded3(n)) <==> m < n
    ensures Padded3(m) == Padded3(n) <==> m == n
  {
    var a, b := [DigitChar(m % 10)], [DigitChar(n % 10)];
    var a2, b2 := [DigitChar(m / 10 % 10)] + a, [DigitChar(n / 10 % 10)] + b;
    LessDigit(m % 10, n % 10);
    LessPlaces(m / 10 % 10, n / 10 % 10, a, b);
    LessPlaces(m / 100, n / 100, a2, b2);
    assert Padded3(m) == [DigitChar(m / 100)] + a2 && Padded3(n) == [DigitChar(n / 100)] + b2;
    Places(m);
    Places(n);
  }

  lemma Places(m: nat)
    requires m < 1000
    ensures m / 100 < 10 && m == m / 100 * 100 + m / 10 % 10 * 10 + m % 10
  {
    assert m / 10 == m / 100 * 10 + m / 10 % 10;
  }
}
