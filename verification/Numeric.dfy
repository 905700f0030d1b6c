/** PostgreSQL's binary numeric format as decimal text (src/proxy/pg_binary.rs, decode_numeric).
    Machine arithmetic is that of a release build: it wraps around. */
module Numeric {
  import opened Wrappers
  import opened Bytes
  import opened Text

  const NEGATIVE: nat := 0x4000
  const NAN: nat := 0xC000
  const INFINITY: nat := 0xD000
  const NEG_INFINITY: nat := 0xF000

  function Max0(n: int): nat {
    if n < 0 then 0 else n
  }

  function Wrap16(n: int): int {
    (n + 0x8000) % 0x1_0000 - 0x8000
  }

  function Zeros(n: nat): (s: string)
    ensures |s| == n && AllDigits(s)
  {
    seq(n, _ => '0')
  }

  // A base-10000 digit with at least four decimal digits.
  function Group(g: nat): (s: string)
    ensures AllDigits(s) && (g < 10_000 ==> |s| == 4)
  {
    if g < 10_000 then Padded(g, 4) else Decimal(g)
  }

  function DigitAt(digits: seq<nat>, i: nat): nat {
    if i < |digits| then digits[i] else 0
  }

  // The groups 0..n, the first one without leading zeros; absent groups are zero.
  function IntText(digits: seq<nat>, n: nat): (s: string)
    ensures s != "" && AllDigits(s)
  {
    if n == 0 then Decimal(DigitAt(digits, 0)) else IntText(digits, n - 1) + Group(DigitAt(digits, n))
  }

  // The groups from index `from` up to index `end`.
  function Groups(digits: seq<nat>, from: nat, end: nat): (s: string)
    requires from <= end <= |digits|
    ensures AllDigits(s)
  {
    if from == end then "" else Groups(digits, from, end - 1) + Group(digits[end - 1])
  }

  // Cut or extended with zeros to n characters.
  function Fit(s: string, n: nat): (r: string)
    ensures |r| == n
  {
    if |s| >= n then s[..n] else s + Zeros(n - |s|)
  }

  // The fraction before it is fitted to the scale: the group index is a 16-bit number.
  function FracText(digits: seq<nat>, weight: int): string {
    var first := Wrap16(weight + 1);
    Zeros(4 * Max0(-first)) + (if Max0(first) <= |digits| then Groups(digits, Max0(first), |digits|) else "")
  }

  // A sign, integer digits and, if there are any, fractional digits.
  function Numeral(negative: bool, a: string, b: string): string {
    (if negative then "-" else "") + (if b == "" then a else a + "." + b)
  }

  function NumericText(digits: seq<nat>, weight: int, negative: bool, dscale: nat): string {
    var frac := Fit(FracText(digits, weight), dscale);
    Numeral(negative, IntText(digits, Max0(weight)), frac)
  }

  // The base-10000 digits that follow the four header fields.
  function DigitsAt(bytes: seq<Byte>, n: nat): (d: seq<nat>)
    requires 8 + 2 * n <= |bytes|
    ensures |d| == n && forall i :: 0 <= i < n ==> d[i] == U16At(bytes, 8 + 2 * i)
  {
    seq(n, i requires 0 <= i < n => U16At(bytes, 8 + 2 * i))
  }

  function DecodeNumeric(bytes: seq<Byte>): Decoded {
    if |bytes| < 8 then Nothing
    else
      var ndigits, weight, sign, dscale := I16At(bytes, 0), I16At(bytes, 2), U16At(bytes, 4), Max0(I16At(bytes, 6));
      if sign == NAN then Literal("NaN")
      else if sign == INFINITY then Literal("Infinity")
      else if sign == NEG_INFINITY then Literal("-Infinity")
      // A negative count becomes an enormous one: its byte length wraps, for the smallest below 8.
      else if ndigits < 0 then (if ndigits >= -4 then Abort else Nothing)
      else if |bytes| < 8 + ndigits * 2 then Nothing
      else if ndigits == 0 then Literal(if dscale == 0 then "0" else "0." + Zeros(dscale))
      else Literal(NumericText(DigitsAt(bytes, ndigits), weight, sign == NEGATIVE, dscale))
  }

  /** What the decoder makes of the parts that are no digits: NaN and the infinities by the sign field alone, no
      text for a message that is too short, and a negative digit count that aborts or, below -4, gives no text. */
  lemma SpecialNumerics(bytes: seq<Byte>)
    ensures |bytes| < 8 ==> DecodeNumeric(bytes) == Nothing
    ensures |bytes| >= 8 ==>
              var n, high, low := I16At(bytes, 0), bytes[4], bytes[5];
              var special := low == 0 && high in {0xC0, 0xD0, 0xF0};
              && (low == 0 && high == 0xC0 ==> DecodeNumeric(bytes) == Literal("NaN"))
              && (low == 0 && high == 0xD0 ==> DecodeNumeric(bytes) == Literal("Infinity"))
              && (low == 0 && high == 0xF0 ==> DecodeNumeric(bytes) == Literal("-Infinity"))
              && (!special ==> && (DecodeNumeric(bytes) == Abort <==> -4 <= n < 0)
                               && (DecodeNumeric(bytes) == Nothing <==> n < -4 || (n >= 0 && |bytes| < 8 + 2 * n)))
  {
    if |bytes| >= 8 { assert U16At(bytes, 4) == (bytes[4] as int) * 256 + bytes[5] as int; }
  }

  method PrintInteger(digits: seq<nat>, weight: int) returns (intPart: string)
    ensures intPart == IntText(digits, Max0(weight))
  {
    intPart := "";
    for i := 0 to Max0(weight) + 1
      invariant i == 0 ==> intPart == ""
      invariant i > 0 ==> intPart == IntText(digits, i - 1)
    {
      var group := if i < |digits| then digits[i] else 0;
      if intPart == "" {
        intPart := intPart + Decimal(group);
      } else {
        intPart := intPart + Group(group);
      }
    }
  }

  method PrintZeroGroups(first: int) returns (text: string)
    ensures text == Zeros(4 * Max0(-first))
  {
    text := "";
    var g := first;
    while g < 0
      invariant first <= g
      invariant g <= 0 || g == first
      invariant |text| == 4 * (if first < 0 then g - first else 0)
      invariant forall i :: 0 <= i < |text| ==> text[i] == '0'
    {
      text := text + "0000";
      g := g + 1;
    }
  }

  method PrintGroups(digits: seq<nat>, from: nat) returns (text: string)
    requires from <= |digits|
    ensures text == Groups(digits, from, |digits|)
  {
    text := "";
    for di := from to |digits|
      invariant text == Groups(digits, from, di)
    {
      text := text + Group(digits[di]);
    }
  }

  method FitToScale(s: string, n: nat) returns (r: string)
    ensures r == Fit(s, n)
  {
    r := s;
    if |r| > n {
      r := r[..n];
    } else if |r| < n {
      r := r + Zeros(n - |r|);
    }
  }

  method PrintFraction(digits: seq<nat>, weight: int) returns (fracPart: string)
    ensures fracPart == FracText(digits, weight)
  {
    var first := Wrap16(weight + 1);
    fracPart := PrintZeroGroups(first);
    if Max0(first) <= |digits| {
      var groups := PrintGroups(digits, Max0(first));
      fracPart := fracPart + groups;
    } else {
      assert fracPart + "" == fracPart;
    }
  }

  lemma NumeralParts(negative: bool, a: string, b: string)
    ensures (if negative then "-" else "") + a + (if b == "" then "" else "." + b) == Numeral(negative, a, b)
  {
  }

  /** Builds the text of a non-zero finite numeric. */
  method PrintNumeric(digits: seq<nat>, weight: int, negative: bool, dscale: nat) returns (text: string)
    ensures text == NumericText(digits, weight, negative, dscale)
  {
    var intPart := PrintInteger(digits, weight);
    var fracPart := PrintFraction(digits, weight);
    fracPart := FitToScale(fracPart, dscale);
    text := (if negative then "-" else "") + intPart;
    NumeralParts(negative, intPart, fracPart);
    text := text + if dscale == 0 then "" else "." + fracPart;
  }

  // ---- The number that is meant ----

  // The first n digits as one base-10000 integer.
  function Unscaled(digits: seq<nat>, n: nat): nat
    requires n <= |digits|
  {
    if n == 0 then 0 else Unscaled(digits, n - 1) * 10_000 + digits[n - 1]
  }

  // n * 10^e, the fraction dropped.
  function Shift(n: nat, e: int): nat {
    if e >= 0 then Raised(n, e) else Lowered(n, -e)
  }

  // 10^dscale times the sum of digits[i] * 10000^(weight - i), the fraction dropped.
  function ScaledValue(digits: seq<nat>, weight: int, dscale: nat): nat {
    Shift(Unscaled(digits, |digits|), 4 * (weight + 1 - |digits|) + dscale)
  }

  // A decimal numeral: its sign, its digits as one integer, and how many of them are fractional.
  datatype Decimals = Decimals(negative: bool, value: nat, scale: nat)

  function PointIndex(s: string): (i: nat)
    ensures i <= |s|
  {
    if s == "" || s[0] == '.' then 0 else 1 + PointIndex(s[1..])
  }

  function ReadUnsigned(s: string): Option<(nat, nat)> {
    var i := PointIndex(s);
    var int_, frac := s[..i], if i < |s| then s[i + 1..] else "";
    if int_ == "" || !AllDigits(int_) || !AllDigits(frac) then None else Some((Value(int_ + frac), |frac|))
  }

  function ReadNumeric(s: string): Option<Decimals> {
    var negative := s != "" && s[0] == '-';
    WithSign(negative, ReadUnsigned(if negative then s[1..] else s))
  }

  function WithSign(negative: bool, r: Option<(nat, nat)>): Option<Decimals> {
    if r.Some? then Some(Decimals(negative, r.value.0, r.value.1)) else None
  }

  // ---- Arithmetic of digit strings ----

  predicate BaseTenThousand(digits: seq<nat>) {
    forall i :: 0 <= i < |digits| ==> digits[i] < 10_000
  }

  lemma {:induction false} ValueZeros(n: nat)
    ensures Value(Zeros(n)) == 0
  {
    if n == 0 {
    } else {
      assert Zeros(n)[..n - 1] == Zeros(n - 1);
      ValueZeros(n - 1);
    }
  }

  // Fitting a digit string moves its value by the difference of the lengths.
  lemma FittedValue(s: string, n: nat, v: nat, e: int)
    requires AllDigits(s) && v == Value(s) && e == n - |s|
    ensures AllDigits(Fit(s, n)) && Value(Fit(s, n)) == Shift(v, e)
  {
    if |s| >= n {
      ValueTake(s, n);
    } else {
      ValueConcat(s, Zeros(e));
      ValueZeros(e);
    }
  }

  lemma FitBehind(a: string, s: string, n: nat)
    ensures a + Fit(s, n) == Fit(a + s, |a| + n)
  {
  }

  lemma ShiftTwice(n: nat, a: nat, e: int)
    ensures Shift(Raised(n, a), e) == Shift(n, a + e)
  {
    if e >= 0 { RaisedTwice(n, a, e); } else { RaisedThenLowered(n, a, -e); }
  }

  // Moving a value by four more decimal places.
  lemma FourMore(u: nat, k: nat, e: nat)
    requires e == k + 4
    ensures Raised(u, k) * 10_000 == Raised(u, e)
  {
    assert Raised(u, k + 4) == 10 * Raised(u, k + 3);
    assert Raised(u, k + 3) == 10 * Raised(u, k + 2);
    assert Raised(u, k + 2) == 10 * Raised(u, k + 1);
  }

  lemma ConcatGroup(s: string, g: nat)
    requires AllDigits(s) && g < 10_000
    ensures AllDigits(s + Group(g)) && Value(s + Group(g)) == Value(s) * 10_000 + g && |s + Group(g)| == |s| + 4
  {
    GroupValue(g);
    ValueConcat(s, Group(g));
    FourMore(Value(s), 0, 4);
  }

  lemma {:induction false} GroupsFrom(digits: seq<nat>, from: nat, end: nat)
    requires from <= end <= |digits| && BaseTenThousand(digits)
    ensures |Groups(digits, from, end)| == 4 * (end - from)
    ensures Unscaled(digits, end) == Raised(Unscaled(digits, from), 4 * (end - from)) + Value(Groups(digits, from, end))
    decreases end
  {
    if from < end {
      GroupsFrom(digits, from, end - 1);
      ConcatGroup(Groups(digits, from, end - 1), digits[end - 1]);
      FourMore(Unscaled(digits, from), 4 * (end - 1 - from), 4 * (end - from));
    }
  }

  lemma GroupValue(g: nat)
    requires g < 10_000
    ensures Value(Group(g)) == g && |Group(g)| == 4 && Pow10(4) == 10_000
  {
    assert Pow10(2) == 100 && Pow10(3) == 1000;
    ValueOfPadded(g, 4);
  }

  lemma NextIntGroup(digits: seq<nat>, n: nat)
    requires n > 0 && BaseTenThousand(digits)
    ensures Value(IntText(digits, n)) == Value(IntText(digits, n - 1)) * 10_000 + DigitAt(digits, n)
  {
    ConcatGroup(IntText(digits, n - 1), DigitAt(digits, n));
  }

  // The integer part is the value of the groups 0..n.
  lemma {:induction false} IntTextInside(digits: seq<nat>, n: nat)
    requires n < |digits| && BaseTenThousand(digits)
    ensures Value(IntText(digits, n)) == Unscaled(digits, n + 1)
  {
    if n == 0 {
      ValueOfDecimal(digits[0]);
    } else {
      IntTextInside(digits, n - 1);
      NextIntGroup(digits, n);
    }
  }

  // Absent groups are zeros.
  lemma {:induction false} IntTextBeyond(digits: seq<nat>, n: nat)
    requires 0 < |digits| <= n + 1 && BaseTenThousand(digits)
    ensures Value(IntText(digits, n)) == Raised(Unscaled(digits, |digits|), 4 * (n + 1 - |digits|))
  {
    hide IntText, Unscaled, Value;
    if n + 1 == |digits| {
      IntTextInside(digits, n);
    } else {
      IntTextBeyond(digits, n - 1);
      NextIntGroup(digits, n);
      FourMore(Unscaled(digits, |digits|), 4 * (n - |digits|), 4 * (n + 1 - |digits|));
    }
  }

  // ---- The printed number ----

  // Integer and fraction digits as one number.
  function PrintedValue(digits: seq<nat>, weight: int, dscale: nat): nat
    requires AllDigits(Fit(FracText(digits, weight), dscale))
  {
    Value(IntText(digits, Max0(weight)) + Fit(FracText(digits, weight), dscale))
  }

  lemma FitDigits(s: string, n: nat)
    requires AllDigits(s)
    ensures AllDigits(Fit(s, n))
  {
  }

  lemma FracDigits(digits: seq<nat>, weight: int, dscale: nat)
    ensures AllDigits(FracText(digits, weight)) && AllDigits(Fit(FracText(digits, weight), dscale))
  {
    FitDigits(FracText(digits, weight), dscale);
  }

  predicate Fields(digits: seq<nat>, weight: int, dscale: nat) {
    0 < |digits| < 0x8000 && BaseTenThousand(digits) && -0x8000 <= weight < 0x8000 && dscale < 0x8000
  }

  lemma FirstGroup(weight: int)
    requires -0x8000 <= weight < 0x8000
    ensures Wrap16(weight + 1) == if weight == 0x7FFF then -0x8000 else weight + 1
  {
  }

  // The three shapes of the fraction text.
  lemma GroupsOnly(digits: seq<nat>, weight: int)
    requires 0 <= weight && weight + 1 <= |digits| < 0x8000
    ensures FracText(digits, weight) == Groups(digits, weight + 1, |digits|)
  {
    FirstGroup(weight);
    assert Zeros(0) == "";
  }

  lemma FracTextAt(digits: seq<nat>, weight: int, first: int)
    requires first == Wrap16(weight + 1) && first <= 0
    ensures FracText(digits, weight) == Zeros(4 * -first) + Groups(digits, 0, |digits|)
  {
  }

  lemma ZerosThenGroups(digits: seq<nat>, weight: int, n: nat)
    requires -0x8000 <= weight < 0 && n == 4 * (-weight - 1)
    ensures FracText(digits, weight) == Zeros(n) + Groups(digits, 0, |digits|)
  {
    FirstGroup(weight);
    FracTextAt(digits, weight, weight + 1);
  }

  lemma ZerosOnly(digits: seq<nat>, weight: int, dscale: nat)
    requires Fields(digits, weight, dscale) && weight + 1 > |digits|
    ensures Fit(FracText(digits, weight), dscale) == Zeros(dscale)
  {
    var frac := FracText(digits, weight);
    FirstGroup(weight);
    if weight == 0x7FFF {
      assert Fit(frac, dscale) == frac[..dscale] == Zeros(4 * 0x8000)[..dscale] == Zeros(dscale);
    } else {
      assert frac == "" && Fit(frac, dscale) == Zeros(dscale);
    }
  }

  // a followed by the fitted text of u's last digits.
  lemma JoinedValue(u: nat, head: nat, a: string, frac: string, dscale: nat)
    requires AllDigits(a) && AllDigits(frac) && Value(a) == head && u == Raised(head, |frac|) + Value(frac)
    ensures AllDigits(a + Fit(frac, dscale)) && Value(a + Fit(frac, dscale)) == Shift(u, dscale - |frac|)
  {
    ValueConcat(a, frac);
    FitBehind(a, frac, dscale);
    FittedValue(a + frac, |a| + dscale, u, dscale - |frac|);
  }

  // Digits on both sides of the point.
  lemma PrintedBoth(digits: seq<nat>, weight: int, dscale: nat)
    requires Fields(digits, weight, dscale) && 0 <= weight && weight + 1 <= |digits|
    ensures AllDigits(Fit(FracText(digits, weight), dscale))
    ensures PrintedValue(digits, weight, dscale) == ScaledValue(digits, weight, dscale)
  {
    FracDigits(digits, weight, dscale);
    GroupsOnly(digits, weight);
    IntTextInside(digits, weight);
    GroupsFrom(digits, weight + 1, |digits|);
    var a, frac := IntText(digits, weight), Groups(digits, weight + 1, |digits|);
    BothShift(digits, weight, dscale, Unscaled(digits, weight + 1), a, frac);
    PrintedIs(digits, weight, dscale, a, Fit(frac, dscale));
  }

  lemma BothShift(digits: seq<nat>, weight: nat, dscale: nat, head: nat, a: string, frac: string)
    requires AllDigits(a) && AllDigits(frac) && Value(a) == head
    requires Unscaled(digits, |digits|) == Raised(head, |frac|) + Value(frac) && |frac| == 4 * (|digits| - weight - 1)
    ensures Value(a + Fit(frac, dscale)) == ScaledValue(digits, weight, dscale)
  {
    ScaledIs(digits, weight, dscale, Unscaled(digits, |digits|), dscale - |frac|);
    JoinedValue(Unscaled(digits, |digits|), head, a, frac, dscale);
  }

  lemma WithZeros(a: string, n: nat, u: nat, k: nat)
    requires AllDigits(a) && Value(a) == Raised(u, k)
    ensures Value(a + Zeros(n)) == Shift(u, k + n)
  {
    ValueConcat(a, Zeros(n));
    ValueZeros(n);
    ShiftTwice(u, k, n);
  }

  // Only integer digits: the fraction is all zeros, also when the group index wraps around.
  lemma PrintedInteger(digits: seq<nat>, weight: int, dscale: nat)
    requires Fields(digits, weight, dscale) && weight + 1 > |digits|
    ensures AllDigits(Fit(FracText(digits, weight), dscale))
    ensures PrintedValue(digits, weight, dscale) == ScaledValue(digits, weight, dscale)
  {
    FracDigits(digits, weight, dscale);
    ZerosOnly(digits, weight, dscale);
    IntTextBeyond(digits, weight);
    IntegerShift(digits, weight, dscale, IntText(digits, weight), Unscaled(digits, |digits|),
                 4 * (weight + 1 - |digits|));
    PrintedIs(digits, weight, dscale, IntText(digits, weight), Zeros(dscale));
  }

  lemma IntegerShift(digits: seq<nat>, weight: nat, dscale: nat, a: string, u: nat, k: nat)
    requires u == Unscaled(digits, |digits|) && k == 4 * (weight + 1 - |digits|)
    requires AllDigits(a) && Value(a) == Raised(u, k)
    ensures Value(a + Zeros(dscale)) == ScaledValue(digits, weight, dscale)
  {
    ScaledIs(digits, weight, dscale, u, k + dscale);
    WithZeros(a, dscale, u, k);
  }

  lemma PrintedIs(digits: seq<nat>, weight: int, dscale: nat, a: string, frac: string)
    requires a == IntText(digits, Max0(weight)) && frac == Fit(FracText(digits, weight), dscale) && AllDigits(frac)
    ensures PrintedValue(digits, weight, dscale) == Value(a + frac)
  {
  }

  lemma ScaledIs(digits: seq<nat>, weight: int, dscale: nat, u: nat, e: int)
    requires u == Unscaled(digits, |digits|) && e == 4 * (weight + 1 - |digits|) + dscale
    ensures ScaledValue(digits, weight, dscale) == Shift(u, e)
  {
  }

  lemma ZerosInFront(n: nat, s: string)
    requires AllDigits(s)
    ensures AllDigits(Zeros(n) + s) && Value(Zeros(n) + s) == Value(s)
  {
    ValueConcat(Zeros(n), s);
    ValueZeros(n);
    RaisedSign(0, |s|);
  }

  // A fraction of n leading zeros and the digit groups.
  lemma LeadingZeros(n: nat, groups: string, dscale: nat, v: nat, e: int)
    requires AllDigits(groups) && v == Value(groups) && e == dscale - n - |groups|
    ensures AllDigits(Fit(Zeros(n) + groups, dscale))
    ensures Value(Fit(Zeros(n) + groups, dscale)) == Shift(v, e)
  {
    ZerosInFront(n, groups);
    FittedValue(Zeros(n) + groups, dscale, v, e);
  }

  lemma AllGroups(digits: seq<nat>)
    requires BaseTenThousand(digits)
    ensures |Groups(digits, 0, |digits|)| == 4 * |digits|
    ensures Unscaled(digits, |digits|) == Value(Groups(digits, 0, |digits|))
  {
    GroupsFrom(digits, 0, |digits|);
    RaisedSign(0, 4 * |digits|);
  }

  // Only fraction digits: leading zeros and all the digit groups.
  lemma FractionValue(digits: seq<nat>, weight: int, dscale: nat, n: nat, e: int)
    requires BaseTenThousand(digits) && -0x8000 <= weight < 0
    requires n == 4 * (-weight - 1) && e == dscale - n - 4 * |digits|
    ensures AllDigits(Fit(FracText(digits, weight), dscale))
    ensures Value(Fit(FracText(digits, weight), dscale)) == Shift(Unscaled(digits, |digits|), e)
  {
    AllGroups(digits);
    LeadingZeros(n, Groups(digits, 0, |digits|), dscale, Unscaled(digits, |digits|), e);
    ZerosThenGroups(digits, weight, n);
  }

  // The first digit is also printed as the integer part.
  lemma PrintedFraction(digits: seq<nat>, weight: int, dscale: nat)
    requires Fields(digits, weight, dscale) && weight < 0
    ensures AllDigits(Fit(FracText(digits, weight), dscale))
    ensures PrintedValue(digits, weight, dscale) == Raised(digits[0], dscale) + ScaledValue(digits, weight, dscale)
  {
    var n := 4 * (-weight - 1);
    var e := dscale - n - 4 * |digits|;
    var frac := Fit(FracText(digits, weight), dscale);
    FractionValue(digits, weight, dscale, n, e);
    FractionShift(digits, weight, dscale, frac, e);
    PrintedIs(digits, weight, dscale, Decimal(digits[0]), frac);
  }

  lemma FractionShift(digits: seq<nat>, weight: int, dscale: nat, frac: string, e: int)
    requires 0 < |digits| && |frac| == dscale && AllDigits(frac) && e == dscale - 4 * (-weight - 1) - 4 * |digits|
    requires Value(frac) == Shift(Unscaled(digits, |digits|), e)
    ensures Value(Decimal(digits[0]) + frac) == Raised(digits[0], dscale) + ScaledValue(digits, weight, dscale)
  {
    ScaledIs(digits, weight, dscale, Unscaled(digits, |digits|), e);
    ValueOfDecimal(digits[0]);
    ValueConcat(Decimal(digits[0]), frac);
  }

  lemma PointAfter(a: string, b: string)
    requires AllDigits(a)
    ensures PointIndex(a) == |a| && PointIndex(a + "." + b) == |a|
  {
    if a == "" {
    } else {
      assert (a + "." + b)[1..] == a[1..] + "." + b;
      PointAfter(a[1..], b);
    }
  }

  lemma ReadsParts(a: string, b: string)
    requires a != "" && AllDigits(a) && AllDigits(b)
    ensures ReadUnsigned(a + "." + b) == Some((Value(a + b), |b|))
    ensures ReadUnsigned(a) == Some((Value(a), 0))
  {
    PointAfter(a, b);
    var s := a + "." + b;
    assert s[..|a|] == a && s[|a| + 1..] == b;
    assert a[..|a|] == a && a + "" == a;
  }

  lemma ReadsSigned(negative: bool, s: string, r: Option<(nat, nat)>)
    requires s != "" && s[0] != '-' && ReadUnsigned(s) == r
    ensures ReadNumeric((if negative then "-" else "") + s) == WithSign(negative, r)
  {
    var t := (if negative then "-" else "") + s;
    if negative { assert t[1..] == s; } else { assert t == s; }
  }

  lemma StartsWithDigit(a: string, b: string)
    requires a != "" && AllDigits(a)
    ensures (a + b)[0] != '-'
  {
    assert IsDigit(a[0]);
  }

  lemma NumeralReads(negative: bool, a: string, b: string)
    requires a != "" && AllDigits(a) && AllDigits(b)
    ensures ReadNumeric(Numeral(negative, a, b)) == Some(Decimals(negative, Value(a + b), |b|))
  {
    ReadsParts(a, b);
    if b == "" {
      StartsWithDigit(a, "");
      assert a + b == a;
      ReadsSigned(negative, a, Some((Value(a), 0)));
    } else {
      StartsWithDigit(a, "." + b);
      ReadsSigned(negative, a + "." + b, Some((Value(a + b), |b|)));
    }
  }

  lemma NumericTextReads(digits: seq<nat>, weight: int, negative: bool, dscale: nat, v: nat)
    requires Fields(digits, weight, dscale) && AllDigits(Fit(FracText(digits, weight), dscale))
    requires v == PrintedValue(digits, weight, dscale)
    ensures ReadNumeric(NumericText(digits, weight, negative, dscale)) == Some(Decimals(negative, v, dscale))
  {
    NumeralReads(negative, IntText(digits, Max0(weight)), Fit(FracText(digits, weight), dscale));
  }

  lemma PrintedNumber(digits: seq<nat>, weight: int, dscale: nat)
    requires Fields(digits, weight, dscale)
    ensures AllDigits(Fit(FracText(digits, weight), dscale))
    ensures PrintedValue(digits, weight, dscale)
         == (if weight < 0 then Raised(digits[0], dscale) else 0) + ScaledValue(digits, weight, dscale)
  {
    if weight < 0 {
      PrintedFraction(digits, weight, dscale);
    } else if weight + 1 <= |digits| {
      PrintedBoth(digits, weight, dscale);
    } else {
      PrintedInteger(digits, weight, dscale);
    }
  }

  // A complete finite numeric as the server sends it.
  predicate IsFinite(bytes: seq<Byte>) {
    && |bytes| >= 8 && U16At(bytes, 4) !in {0xC000, 0xD000, 0xF000}
    && I16At(bytes, 0) >= 0 && |bytes| >= 8 + 2 * I16At(bytes, 0)
    && BaseTenThousand(DigitsAt(bytes, I16At(bytes, 0)))
  }

  // The number that the printed digits stand for.
  lemma PrintedReads(digits: seq<nat>, weight: int, negative: bool, dscale: nat) returns (v: nat)
    requires Fields(digits, weight, dscale)
    ensures ReadNumeric(NumericText(digits, weight, negative, dscale)) == Some(Decimals(negative, v, dscale))
    ensures v == (if weight < 0 then Raised(digits[0], dscale) else 0) + ScaledValue(digits, weight, dscale)
  {
    PrintedNumber(digits, weight, dscale);
    v := PrintedValue(digits, weight, dscale);
    NumericTextReads(digits, weight, negative, dscale, v);
  }

  // What is printed for a finite numeric.
  function FiniteText(digits: seq<nat>, weight: int, negative: bool, dscale: nat): string {
    if digits == [] then Numeral(false, "0", Zeros(dscale)) else NumericText(digits, weight, negative, dscale)
  }

  lemma FiniteDecodes(bytes: seq<Byte>)
    requires IsFinite(bytes)
    ensures DecodeNumeric(bytes) == Literal(FiniteText(
              DigitsAt(bytes, I16At(bytes, 0)), I16At(bytes, 2), U16At(bytes, 4) == NEGATIVE, Max0(I16At(bytes, 6))))
  {
    ZeroText(Max0(I16At(bytes, 6)));
  }

  lemma FiniteReads(digits: seq<nat>, weight: int, negative: bool, dscale: nat)
    requires digits == [] || Fields(digits, weight, dscale)
    ensures var r := ReadNumeric(FiniteText(digits, weight, negative, dscale));
            && r.Some? && r.value.scale == dscale
            && (digits != [] ==> r.value.negative == negative)
            && r.value.value == ScaledValue(digits, weight, dscale)
                 + (if digits != [] && weight < 0 then Raised(digits[0], dscale) else 0)
  {
    if digits == [] {
      ZeroReads(dscale);
      ZeroScaled(weight, dscale);
    } else {
      var _ := PrintedReads(digits, weight, negative, dscale);
    }
  }

  // 10^dscale times the sum of digits[i] * 10000^(weight - i), the fraction dropped, by powers of ten.
  function Meant(digits: seq<nat>, weight: int, dscale: nat): int {
    var u, e := Unscaled(digits, |digits|), 4 * (weight + 1 - |digits|) + dscale;
    if e >= 0 then u * Pow10(e) else u / Pow10(-e)
  }

  lemma ScaledIsMeant(digits: seq<nat>, weight: int, dscale: nat)
    ensures ScaledValue(digits, weight, dscale) == Meant(digits, weight, dscale)
  {
    var u, e := Unscaled(digits, |digits|), 4 * (weight + 1 - |digits|) + dscale;
    if e >= 0 { RaisedIsProduct(u, e); } else { LoweredIsQuotient(u, -e); }
  }

  /** Every finite numeric is printed with its sign and exactly dscale fractional digits; the number
      printed is the one meant, cut at dscale, exactly if its first base-10000 digit is not below the
      decimal point or is zero. Otherwise that digit appears once more as the integer part. */
  lemma NumericExactIff(bytes: seq<Byte>)
    requires IsFinite(bytes)
    ensures var n, weight, dscale := I16At(bytes, 0), I16At(bytes, 2), Max0(I16At(bytes, 6));
            var digits := DigitsAt(bytes, n);
            && DecodeNumeric(bytes).Literal?
            && var r := ReadNumeric(DecodeNumeric(bytes).text);
            && r.Some? && r.value.scale == dscale
            && (n > 0 ==> r.value.negative == (U16At(bytes, 4) == 0x4000))
            && r.value.value == Meant(digits, weight, dscale)
                 + (if n > 0 && weight < 0 then digits[0] * Pow10(dscale) else 0)
            && (r.value.value == Meant(digits, weight, dscale) <==> n == 0 || weight >= 0 || digits[0] == 0)
  {
    var digits, dscale := DigitsAt(bytes, I16At(bytes, 0)), Max0(I16At(bytes, 6));
    FiniteDecodes(bytes);
    FiniteReads(digits, I16At(bytes, 2), U16At(bytes, 4) == NEGATIVE, dscale);
    ScaledIsMeant(digits, I16At(bytes, 2), dscale);
    if digits != [] {
      RaisedSign(digits[0], dscale);
      RaisedIsProduct(digits[0], dscale);
    }
  }

  // A numeric without digits is printed as zero.
  lemma ZeroReads(dscale: nat)
    ensures ReadNumeric(Numeral(false, "0", Zeros(dscale))) == Some(Decimals(false, 0, dscale))
  {
    assert "0" + Zeros(dscale) == Zeros(1 + dscale);
    ValueZeros(1 + dscale);
    NumeralReads(false, "0", Zeros(dscale));
  }

  lemma ZeroText(dscale: nat)
    ensures Numeral(false, "0", Zeros(dscale)) == if dscale == 0 then "0" else "0." + Zeros(dscale)
  {
    assert "0" + "." == "0.";
  }

  lemma ZeroScaled(weight: int, dscale: nat)
    ensures ScaledValue([], weight, dscale) == 0
  {
    var e := 4 * (weight + 1) + dscale;
    RaisedSign(0, if e < 0 then -e else e);
  }

  lemma FiveThousand()
    ensures Decimal(5000) == Padded(5000, 4) == "5000"
  {
    assert Decimal(5) == "5" && Decimal(50) == "50" && Decimal(500) == "500";
    assert Padded(5, 1) == "5" && Padded(50, 2) == "50" && Padded(500, 3) == "500";
  }

  lemma HalfText()
    ensures NumericText([5000], -1, false, 1) == "5000.5"
  {
    FiveThousand();
    assert Groups([5000], 0, 0) == "" && Groups([5000], 0, 1) == "5000";
    assert Zeros(0) == "" && FracText([5000], -1) == "5000";
    assert Fit("5000", 1) == "5";
  }

  /** The server's bytes of 0.5: one digit, weight -1, no sign, scale 1, and 5000. */
  lemma HalfIsWrong()
    ensures DecodeNumeric([0, 1, 255, 255, 0, 0, 0, 1, 19, 136]) == Literal("5000.5")
  {
    var bytes: seq<Byte> := [0, 1, 255, 255, 0, 0, 0, 1, 19, 136];
    assert I16At(bytes, 0) == 1 && I16At(bytes, 2) == -1 && U16At(bytes, 4) == 0 && I16At(bytes, 6) == 1;
    assert DigitsAt(bytes, 1) == [5000];
    HalfText();
  }
}
