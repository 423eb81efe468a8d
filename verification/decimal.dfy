/** Decimal text of integers: `fmt.Sprint` on an int64 and `strconv.ParseInt(s, 10, 64)`,
    without the 64-bit range check. */
module Decimal {
  import opened Cluster

  function Digit(d: nat): char
    requires d < 10
  {
    '0' + d as char
  }

  predicate IsDigit(c: char) {
    '0' <= c <= '9'
  }

  function Format(n: nat): (s: string)
    ensures s != [] && forall c :: c in s ==> IsDigit(c)
  {
    if n < 10 then [Digit(n)] else Format(n / 10) + [Digit(n % 10)]
  }

  predicate AllDigits(s: string) {
    s != [] && forall c :: c in s ==> IsDigit(c)
  }

  function Digits(s: string): nat
    requires forall c :: c in s ==> IsDigit(c)
  {
    if s == [] then 0
    else
      assert IsDigit(s[|s| - 1]);
      10 * Digits(s[..|s| - 1]) + (s[|s| - 1] as int - '0' as int)
  }

  /** An optional sign, then at least one digit; anything else is an error. */
  function Parse(s: string): Option<int>
  {
    if AllDigits(s) then Some(Digits(s))
    else if s != [] && s[0] in ['+', '-'] && AllDigits(s[1..]) then
      Some(if s[0] == '-' then 0 - Digits(s[1..]) else Digits(s[1..]))
    else None
  }

  lemma {:induction false} DigitsOfFormat(n: nat)
    ensures Digits(Format(n)) == n
  {
    if n >= 10 {
      DigitsOfFormat(n / 10);
      assert Format(n)[..|Format(n)| - 1] == Format(n / 10);
    }
  }

  /** A stamp that was written is read back exactly. */
  lemma {:induction false} ParseFormat(n: nat)
    ensures Parse(Format(n)) == Some(n)
  {
    DigitsOfFormat(n);
  }

  function PowerOfTen(i: nat): (p: nat)
    ensures p > 0
  {
    if i == 0 then 1 else 10 * PowerOfTen(i - 1)
  }

  /** The digit `i` places from the right is that decimal digit of the number, and there is no
      leading zero. */
  lemma {:induction false} DigitsMean(n: nat, i: nat)
    requires i < |Format(n)|
    ensures Format(n)[|Format(n)| - 1 - i] as int - '0' as int == n / PowerOfTen(i) % 10
    ensures n > 0 ==> Format(n)[0] != '0'
    ensures n < PowerOfTen(|Format(n)|)
  {
    if n >= 10 {
      var head := Format(n / 10);
      DigitsMean(n / 10, if i == 0 then 0 else i - 1);
      if i > 0 {
        assert Format(n)[|Format(n)| - 1 - i] == head[|head| - 1 - (i - 1)];
        DivideTwice(n, PowerOfTen(i - 1));
      }
    }
  }

  lemma DivideTwice(n: nat, p: nat)
    requires p > 0
    ensures n / 10 / p == n / (10 * p)
  {
    var m := n / 10;
    var q := m / p;
    var low, high := q * p, (q + 1) * p;
    assert low <= m < high;
    assert 10 * low <= n < 10 * high;
    assert q * (10 * p) == 10 * low && (q + 1) * (10 * p) == 10 * high;
    QuotientIs(n, 10 * p, q);
  }

  lemma QuotientIs(n: nat, d: nat, q: nat)
    requires d > 0 && q * d <= n < (q + 1) * d
    ensures n / d == q
  {
    var r := n / d;
    assert r * d <= n < (r + 1) * d;
    if r < q {
      Scaled(r + 1, q, d);
    } else if r > q {
      Scaled(q + 1, r, d);
    }
  }

  lemma Scaled(a: nat, b: nat, d: nat)
    requires a <= b
    ensures a * d <= b * d
  {
  }
}
