/** Fixed-width positional notation over an increasing alphabet: it reads back, and its text
    order is the order of the numbers. */
module Radix {
  import opened Text

  /** The first number that 64 bits do not hold. */
  const U64: nat := 0x1_0000_0000_0000_0000

  /** An alphabet of at least two symbols in increasing character order. */
  ghost predicate IsAlphabet(symbols: string) {
    |symbols| >= 2 && forall i, j :: 0 <= i < j < |symbols| ==> symbols[i] < symbols[j]
  }

  function Power(b: nat, n: nat): (p: nat)
    requires b > 0
    ensures p > 0
  {
    if n == 0 then 1 else b * Power(b, n - 1)
  }

  /** The `width` low digits of `v`, most significant first. */
  function Encode(symbols: string, v: nat, width: nat): (s: string)
    requires |symbols| >= 2
    ensures |s| == width
  {
    if width == 0 then "" else Encode(symbols, v / |symbols|, width - 1) + [symbols[v % |symbols|]]
  }

  /** The place of a symbol; zero for anything else. */
  function ValueOf(symbols: string, c: char): nat {
    if symbols == "" || symbols[|symbols| - 1] == c then (if symbols == "" then 0 else |symbols| - 1)
    else ValueOf(symbols[..|symbols| - 1], c)
  }

  function Decode(symbols: string, s: string): nat {
    if s == "" then 0 else |symbols| * Decode(symbols, s[..|s| - 1]) + ValueOf(symbols, s[|s| - 1])
  }

  lemma {:induction false} SymbolValue(symbols: string, d: nat)
    requires d < |symbols| && forall j :: d < j < |symbols| ==> symbols[j] != symbols[d]
    ensures ValueOf(symbols, symbols[d]) == d
  {
    if d < |symbols| - 1 { SymbolValue(symbols[..|symbols| - 1], d); }
  }

  // ------------------------------------------------------------------ arithmetic

  lemma TimesMonotone(p: nat, x: nat, y: nat)
    ensures x <= y ==> p * x <= p * y
  {
  }

  lemma DivMod(a: nat, p: nat, k: nat, m: nat)
    requires p > 0 && m < p && a == p * k + m
    ensures a / p == k && a % p == m
  {
    var q, r := a / p, a % p;
    assert a == p * q + r;
    TimesMonotone(p, q + 1, k);
    TimesMonotone(p, k + 1, q);
  }

  /** Splitting off the lowest digit commutes with quotient and remainder by a power. */
  lemma SplitDigit(v: nat, b: nat, p: nat)
    requires b > 0 && p > 0
    ensures b * p > 0
    ensures v / (b * p) == (v / b) / p
    ensures v % (b * p) == b * ((v / b) % p) + v % b
  {
    var q := v / b;
    SplitAt(v, b, p, q, v % b, q / p, q % p);
  }

  lemma SplitAt(v: nat, b: nat, p: nat, q: nat, r: nat, k: nat, m: nat)
    requires b > 0 && p > 0 && v == b * q + r && r < b && q == p * k + m && m < p
    ensures b * p > 0 && v / (b * p) == k && v % (b * p) == b * m + r
  {
    var x := b * p;
    var low := b * m + r;
    assert low < x by { Below(b, p, m, r); }
    assert v == x * k + low by { Regroup(b, p, k, m, r); }
    DivMod(v, x, k, low);
  }

  lemma Regroup(b: nat, p: nat, k: nat, m: nat, r: nat)
    ensures b * (p * k + m) + r == (b * p) * k + (b * m + r)
  {
  }

  lemma Below(b: nat, p: nat, m: nat, r: nat)
    requires m < p && r < b
    ensures b * m + r < b * p
  {
    TimesMonotone(b, m + 1, p);
  }

  lemma ModIsSmall(v: nat, p: nat)
    requires p > 0
    ensures v % p == v <==> v < p
  {
  }

  // ----------------------------------------------------------- reading and order

  lemma {:induction false} DecodeEncode(symbols: string, v: nat, width: nat)
    requires IsAlphabet(symbols)
    ensures Decode(symbols, Encode(symbols, v, width)) == v % Power(|symbols|, width)
  {
    if width > 0 {
      var b := |symbols|;
      DecodeEncode(symbols, v / b, width - 1);
      SymbolValue(symbols, v % b);
      SplitDigit(v, b, Power(b, width - 1));
      assert Encode(symbols, v, width)[..width - 1] == Encode(symbols, v / b, width - 1);
    }
  }

  /** Reading back what was written gives the number exactly when it fits the width. */
  lemma ReadBack(symbols: string, v: nat, width: nat)
    requires IsAlphabet(symbols)
    ensures Decode(symbols, Encode(symbols, v, width)) == v <==> v < Power(|symbols|, width)
  {
    DecodeEncode(symbols, v, width);
    ModIsSmall(v, Power(|symbols|, width));
  }

  lemma QuotientFits(v: nat, b: nat, p: nat)
    requires b > 0 && v < b * p
    ensures v / b < p
  {
    assert v == b * (v / b) + v % b;
    TimesMonotone(b, p, v / b);
  }

  lemma QuotientIsNat(x: nat, b: nat)
    requires b > 0
    ensures 0 <= x / b
  {
    var q, r := x / b, x % b;
    assert x == b * q + r;
    NegativeTimes(b, q);
  }

  lemma NegativeTimes(b: nat, q: int)
    ensures q < 0 ==> b * q + b <= 0
  {
  }

  lemma QuotientOrder(x: nat, y: nat, b: nat)
    requires b > 0 && x < y
    ensures x / b < y / b || (x / b == y / b && x % b < y % b)
  {
    assert x == b * (x / b) + x % b && y == b * (y / b) + y % b;
    TimesMonotone(b, y / b + 1, x / b);
  }

  lemma LessWithDigit(u: string, v: string, c: char, d: char)
    requires |u| == |v| && (Less(u, v) || (u == v && c < d))
    ensures Less(u + [c], v + [d])
  {
    if Less(u, v) { LessByPrefix(u, v, [c], [d]); } else { LessAfterPrefix(u, [c], [d]); }
  }

  lemma QuotientOfPower(v: nat, b: nat, n: nat)
    requires b > 0
    ensures v / Power(b, n + 1) == (v / b) / Power(b, n)
    ensures v < Power(b, n + 1) ==> v / b < Power(b, n)
  {
    SplitDigit(v, b, Power(b, n));
    if v < Power(b, n + 1) { QuotientFits(v, b, Power(b, n)); }
  }

  /** The smaller number has the smaller quotient, or the same quotient and a smaller digit. */
  lemma SplitOrder(x: nat, y: nat, b: nat, width: nat)
    requires b > 0 && x < y < Power(b, width)
    ensures width > 0 && 0 <= x / b && 0 <= y / b
    ensures x / b < y / b < Power(b, width - 1) || (x / b == y / b && x % b < y % b)
  {
    assert Power(b, 0) == 1;
    QuotientIsNat(x, b);
    QuotientIsNat(y, b);
    QuotientOrder(x, y, b);
    QuotientOfPower(y, b, width - 1);
  }

  lemma {:induction false} EncodeOrder(symbols: string, x: nat, y: nat, width: nat)
    requires IsAlphabet(symbols) && x < y < Power(|symbols|, width)
    ensures Less(Encode(symbols, x, width), Encode(symbols, y, width))
    decreases width
  {
    SplitOrder(x, y, |symbols|, width);
    var xq, yq := x / |symbols|, y / |symbols|;
    var c, d := symbols[x % |symbols|], symbols[y % |symbols|];
    var u, v := Encode(symbols, xq, width - 1), Encode(symbols, yq, width - 1);
    if xq < yq { EncodeOrder(symbols, xq, yq, width - 1); } else { assert c < d; }
    LessWithDigit(u, v, c, d);
  }

  /** Digit `i` by dividing down and taking the remainder. */
  lemma {:induction false} EncodeAt(symbols: string, v: nat, width: nat, i: nat)
    requires |symbols| >= 2 && i < width
    ensures Encode(symbols, v, width)[i] == symbols[v / Power(|symbols|, width - 1 - i) % |symbols|]
    decreases width
  {
    var b := |symbols|;
    if i == width - 1 {
      assert Power(b, 0) == 1 && v / 1 == v;
    } else {
      var q := v / b;
      EncodeAt(symbols, q, width - 1, i);
      QuotientOfPower(v, b, width - 2 - i);
      assert Encode(symbols, v, width)[i] == Encode(symbols, q, width - 1)[i];
    }
  }

  // --------------------------------------------------------------------- decimals

  const DIGITS: string := "0123456789"

  lemma DigitsAreAlphabet()
    ensures |DIGITS| == 10 && IsAlphabet(DIGITS)
  {
  }

  function Padded(n: nat, width: nat): string {
    Encode(DIGITS, n, width)
  }

  /** The shortest decimal form. */
  function Decimal(n: nat): (s: string)
    ensures s != ""
  {
    if n < 10 then [DIGITS[n]] else Decimal(n / 10) + [DIGITS[n % 10]]
  }

  // ------------------------------------------------------------------- decimal numbers

  predicate IsDigit(c: char) {
    '0' <= c <= '9'
  }

  lemma DigitSymbol(d: nat)
    requires d < 10
    ensures |DIGITS| == 10 && IsDigit(DIGITS[d])
  {
  }

  lemma DigitValue(d: nat)
    requires d < 10
    ensures ValueOf(DIGITS, DIGITS[d]) == d
  {
    DigitsAreAlphabet();
    SymbolValue(DIGITS, d);
  }

  lemma DecodeOne(c: char)
    ensures Decode(DIGITS, [c]) == ValueOf(DIGITS, c)
  {
    assert [c][..0] == "";
  }

  /** One more symbol at the end. */
  lemma DecodeLast(s: string, c: char)
    ensures Decode(DIGITS, s + [c]) == |DIGITS| * Decode(DIGITS, s) + ValueOf(DIGITS, c)
  {
    assert (s + [c])[..|s|] == s;
  }

  lemma DecodeDigit(s: string, d: nat)
    requires d < 10
    ensures |DIGITS| == 10 && Decode(DIGITS, s + [DIGITS[d]]) == 10 * Decode(DIGITS, s) + d
    ensures Decode(DIGITS, [DIGITS[d]]) == d
  {
    DigitSymbol(d);
    DigitValue(d);
    DecodeOne(DIGITS[d]);
    DecodeLast(s, DIGITS[d]);
  }

  lemma {:induction false} DecimalReadsBack(n: nat)
    ensures Decode(DIGITS, Decimal(n)) == n
  {
    if n < 10 {
      DecodeDigit("", n);
    } else {
      DecimalReadsBack(n / 10);
      DecodeDigit(Decimal(n / 10), n % 10);
    }
  }
}
