/** Decimal numerals as text: printing, padding and reading back. */
module Text {

  predicate IsDigit(c: char) {
    '0' <= c <= '9'
  }

  function DigitChar(n: nat): (c: char)
    requires n < 10
    ensures IsDigit(c)
  {
    ('0' as int + n) as char
  }

  function DigitValue(c: char): (n: nat)
    requires IsDigit(c)
    ensures n < 10
  {
    c as int - '0' as int
  }

  predicate AllDigits(s: string) {
    forall i :: 0 <= i < |s| ==> IsDigit(s[i])
  }

  // The Unicode White_Space property.
  predicate IsWhitespace(c: char) {
    var n := c as int;
    || 9 <= n <= 13 || n in {0x20, 0x85, 0xA0, 0x1680} || 0x2000 <= n <= 0x200A
    || n in {0x2028, 0x2029, 0x202F, 0x205F, 0x3000}
  }

  // One by one.
  lemma WhitespaceCodes(c: char)
    ensures c as int in {9, 10, 11, 12, 13, 0x20, 0x85, 0xA0, 0x1680, 0x2000, 0x2001, 0x2002, 0x2003, 0x2004, 0x2005,
                         0x2006, 0x2007, 0x2008, 0x2009, 0x200A, 0x2028, 0x2029, 0x202F, 0x205F, 0x3000}
       <==> IsWhitespace(c)
  {
  }

  function Join(parts: seq<string>, separator: char): string {
    if parts == [] then ""
    else if |parts| == 1 then parts[0]
    else parts[0] + [separator] + Join(parts[1..], separator)
  }

  lemma Regroup<T>(a: seq<T>, b: seq<T>, c: seq<T>)
    ensures a + (b + c) == a + b + c
  {
  }

  // Number of leading digits.
  function DigitRun(s: string): (n: nat)
    ensures n <= |s| && AllDigits(s[..n])
    ensures n < |s| ==> !IsDigit(s[n])
  {
    if s == "" || !IsDigit(s[0]) then 0
    else
      var n := DigitRun(s[1..]);
      assert s[..n + 1] == [s[0]] + s[1..][..n];
      n + 1
  }

  function Value(s: string): nat
    requires AllDigits(s)
  {
    if s == "" then 0 else Value(s[..|s| - 1]) * 10 + DigitValue(s[|s| - 1])
  }

  // The shortest decimal numeral of n.
  function Decimal(n: nat): (s: string)
    ensures s != "" && AllDigits(s)
  {
    if n < 10 then [DigitChar(n)] else Decimal(n / 10) + [DigitChar(n % 10)]
  }

  // The last `width` decimal digits of n, with leading zeros.
  function Padded(n: nat, width: nat): (s: string)
    ensures |s| == width && AllDigits(s)
  {
    if width == 0 then "" else Padded(n / 10, width - 1) + [DigitChar(n % 10)]
  }

  function Pow10(e: nat): (p: nat)
    ensures p > 0
  {
    if e == 0 then 1 else 10 * Pow10(e - 1)
  }

  lemma ValueAppend(s: string, c: char)
    requires AllDigits(s) && IsDigit(c)
    ensures AllDigits(s + [c]) && Value(s + [c]) == Value(s) * 10 + DigitValue(c)
  {
    assert (s + [c])[..|s|] == s;
  }

  lemma {:induction false} ValueOfDecimal(n: nat)
    ensures Value(Decimal(n)) == n
    ensures n > 0 ==> Decimal(n)[0] != '0'
  {
    if n >= 10 {
      ValueOfDecimal(n / 10);
      ValueAppend(Decimal(n / 10), DigitChar(n % 10));
    } else {
      assert Decimal(n)[..0] == "";
    }
  }

  lemma {:induction false} DecimalOfValue(s: string)
    requires s != "" && AllDigits(s) && s[0] != '0'
    ensures Decimal(Value(s)) == s && Value(s) > 0
  {
    var n := |s| - 1;
    if n > 0 {
      DecimalOfValue(s[..n]);
      var v := Value(s[..n]);
      assert Value(s) == v * 10 + DigitValue(s[n]);
      assert Value(s) / 10 == v && Value(s) % 10 == DigitValue(s[n]);
      assert Decimal(Value(s)) == s[..n] + [s[n]] == s;
    } else {
      assert s[..0] == "";
    }
  }

  lemma {:induction false} ValueOfPadded(n: nat, width: nat)
    ensures Value(Padded(n, width)) == n % Pow10(width)
  {
    if width > 0 {
      ValueOfPadded(n / 10, width - 1);
      ValueAppend(Padded(n / 10, width - 1), DigitChar(n % 10));
      ModTen(n, Pow10(width - 1));
    } else {
      assert n % 1 == 0;
    }
  }

  // Splitting off the last digit before or after taking a remainder.
  lemma ModTen(n: nat, p: nat)
    requires p > 0
    ensures n % (10 * p) == (n / 10) % p * 10 + n % 10
  {
    var q, r := n / 10 / p, n / 10 % p;
    assert n / 10 == p * q + r;
    assert n == 10 * (n / 10) + n % 10;
    var low := r * 10 + n % 10;
    assert n == (10 * p) * q + low by {
      assert 10 * (p * q) == (10 * p) * q;
    }
    Remainder(n, 10 * p, q, low);
  }

  lemma MultipleAtLeast(m: int, d: int)
    requires m > 0 && d >= 1
    ensures m * d >= m
  {
    assert m * d == m + m * (d - 1);
  }

  lemma Remainder(n: nat, m: nat, q: nat, r: nat)
    requires m > 0 && n == m * q + r && r < m
    ensures n % m == r && n / m == q
  {
    var q', r' := n / m, n % m;
    assert n == m * q' + r';
    assert m * (q - q') == r' - r && m * (q' - q) == r - r';
    if q > q' { MultipleAtLeast(m, q - q'); }
    if q' > q { MultipleAtLeast(m, q' - q); }
  }

  // ---- powers of ten ----

  // n * 10^e.
  function Raised(n: nat, e: nat): nat {
    if e == 0 then n else 10 * Raised(n, e - 1)
  }

  // n / 10^e, the fraction dropped.
  function Lowered(n: nat, e: nat): nat {
    if e == 0 then n else Lowered(n, e - 1) / 10
  }

  lemma {:induction false} RaisedIsProduct(n: nat, e: nat)
    ensures Raised(n, e) == n * Pow10(e)
  {
    if e == 0 {
    } else {
      RaisedIsProduct(n, e - 1);
    }
  }

  lemma {:induction false} LoweredIsQuotient(n: nat, e: nat)
    ensures Lowered(n, e) == n / Pow10(e)
  {
    if e == 0 {
    } else {
      LoweredIsQuotient(n, e - 1);
      DivideTwice(n, Pow10(e - 1));
    }
  }

  lemma DivideTwice(n: nat, p: nat)
    requires p > 0
    ensures n / p / 10 == n / (10 * p)
  {
    var q, r := n / p, n % p;
    var q', r' := q / 10, q % 10;
    assert n == p * q + r;
    assert p * q == (10 * p) * q' + p * r' by { assert p * (10 * q' + r') == (10 * p) * q' + p * r'; }
    MultipleAtLeast(p, 10 - r');
    Remainder(n, 10 * p, q', p * r' + r);
  }

  lemma {:induction false} RaisedTwice(n: nat, a: nat, b: nat)
    ensures Raised(Raised(n, a), b) == Raised(n, a + b)
  {
    if b == 0 {
    } else {
      RaisedTwice(n, a, b - 1);
    }
  }

  // Lowering undoes raising as far as it goes.
  lemma {:induction false} RaisedThenLowered(n: nat, a: nat, d: nat)
    ensures Lowered(Raised(n, a), d) == if d <= a then Raised(n, a - d) else Lowered(n, d - a)
  {
    if d == 0 {
    } else {
      RaisedThenLowered(n, a, d - 1);
    }
  }

  lemma {:induction false} RaisedSign(n: nat, e: nat)
    ensures Raised(n, e) == 0 <==> n == 0
    ensures Lowered(0, e) == 0
  {
    if e == 0 {
    } else {
      RaisedSign(n, e - 1);
    }
  }

  lemma ConcatStep(a: string, b: string, c: char)
    requires AllDigits(a + b) && AllDigits(b) && IsDigit(c)
    ensures AllDigits(a + (b + [c])) && Value(a + (b + [c])) == Value(a + b) * 10 + DigitValue(c)
    ensures Value(b + [c]) == Value(b) * 10 + DigitValue(c)
  {
    assert a + (b + [c]) == (a + b) + [c];
    ValueAppend(a + b, c);
    ValueAppend(b, c);
  }

  lemma {:induction false} ValueConcat(a: string, b: string)
    requires AllDigits(a) && AllDigits(b)
    ensures AllDigits(a + b) && Value(a + b) == Raised(Value(a), |b|) + Value(b)
    decreases |b|
  {
    if b == "" {
      assert a + b == a;
    } else {
      var init, c := b[..|b| - 1], b[|b| - 1];
      assert b == init + [c];
      ValueConcat(a, init);
      ConcatStep(a, init, c);
    }
  }

  lemma {:induction false} ValueTake(s: string, n: nat)
    requires AllDigits(s) && n <= |s|
    ensures Value(s[..n]) == Lowered(Value(s), |s| - n)
    decreases |s| - n
  {
    if n == |s| {
      assert s[..n] == s;
    } else {
      ValueTake(s, n + 1);
      assert s[..n + 1][..n] == s[..n];
    }
  }
}
