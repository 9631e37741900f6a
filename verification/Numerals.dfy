/** Numbers: what their texts are worth by place value, read and written. */
module Numerals {
  import opened Bytes
  import opened Arithmetic
  import opened JsonText
  import opened JsonGrammar

  // ---------------------------------------------------------------- place value

  ghost predicate AllDigits(t: text) {
    forall i :: 0 <= i < |t| ==> '0' as int <= t[i] <= '9' as int
  }

  /** Each digit times its power of ten. */
  function PlaceValue(t: text): int {
    if t == [] then 0 else (t[0] - '0' as int) * Pow10(|t| - 1) + PlaceValue(t[1..])
  }

  lemma {:induction false} PlaceValueBounds(t: text)
    requires AllDigits(t)
    ensures 0 <= PlaceValue(t) < Pow10(|t|)
  {
    if t != [] {
      PlaceValueBounds(t[1..]);
      Scaled(t[0] - '0' as int, 9, Pow10(|t| - 1));
      Scaled(0, t[0] - '0' as int, Pow10(|t| - 1));
    }
  }

  /** One more digit at the end. */
  lemma {:induction false} PlaceValueGrows(t: text, c: chr)
    ensures PlaceValue(t + [c]) == 10 * PlaceValue(t) + (c - '0' as int)
  {
    if t == [] {
      assert t + [c] == [c] && [c][1..] == [];
    } else {
      PlaceValueGrows(t[1..], c);
      assert (t + [c])[1..] == t[1..] + [c] && (t + [c])[0] == t[0];
      TenTimes(t[0] - '0' as int, Pow10(|t| - 1));
    }
  }

  lemma TenTimes(a: int, b: int)
    ensures a * (10 * b) == 10 * (a * b)
  {
  }

  // ---------------------------------------------------------------- what is written

  /** `%d` in its canonical form: a minus exactly for negative numbers, and then either a single zero or digits that do
      not start with one and are worth the absolute value. */
  lemma {:induction false} IntTextIsCanonical(n: int)
    ensures IntText(n)[0] == MINUS <==> n < 0
    ensures var t := if n < 0 then IntText(n)[1..] else IntText(n);
            t != [] && AllDigits(t) && PlaceValue(t) == (if n < 0 then -n else n)
            && if n == 0 then t == ['0' as int] else t[0] != '0' as int
  {
    DigitsAreCanonical(if n < 0 then -n else n);
  }

  lemma {:induction false} DigitsAreCanonical(n: nat)
    ensures AllDigits(Digits(n)) && PlaceValue(Digits(n)) == n
    ensures if n == 0 then Digits(n) == ['0' as int] else Digits(n)[0] != '0' as int
  {
    if n >= 10 {
      DigitsAreCanonical(n / 10);
      PlaceValueGrows(Digits(n / 10), ZERO + n % 10);
    } else {
      assert Digits(n) == [ZERO + n];
      assert [ZERO + n][1..] == [];
    }
  }

  // ---------------------------------------------------------------- what is read

  predicate NoDigit(k: text) { k == [] || !('0' as int <= k[0] <= '9' as int) }

  /** A run of digits behind what is worth `n`. */
  lemma {:induction false} DigitsAreRead(b: text, k: text, n: nat, count: nat)
    requires AllDigits(b) && NoDigit(k)
    ensures PlaceValue(b) >= 0
    ensures ScanDigits(b + k, n, count) == (n * Pow10(|b|) + PlaceValue(b), count + |b|, k)
    decreases |b|
  {
    PlaceValueBounds(b);
    if b == [] {
      assert b + k == k;
    } else {
      var d := b[0] - '0' as int;
      assert (b + k)[1..] == b[1..] + k;
      DigitsAreRead(b[1..], k, n * 10 + d, count + 1);
      Shifted(n, d, Pow10(|b| - 1));
    }
  }

  lemma Shifted(n: int, d: int, p: int)
    ensures (n * 10 + d) * p == n * (10 * p) + d * p
  {
  }

  /** A number as the parser sees it: a sign, a zero, digits that do not start with one, and the digits behind a point
      and behind an exponent mark, all of them optional. */
  datatype Numeral = Numeral(minus: bool, zero: bool, whole: text, fraction: text, mark: text, exponent: text)

  predicate IsMark(t: text) {
    t == [] || ((t[0] == 'e' as int || t[0] == 'E' as int)
                && (|t| == 1 || (|t| == 2 && (t[1] == '+' as int || t[1] == '-' as int))))
  }

  ghost predicate IsNumeral(x: Numeral) {
    AllDigits(x.whole) && AllDigits(x.fraction) && AllDigits(x.exponent) && IsMark(x.mark)
    && (x.whole != [] ==> x.whole[0] != '0' as int) && (x.mark == [] ==> x.exponent == [])
    && (x.minus || x.zero || x.whole != [])
  }

  function Behind(x: Numeral): text {
    If(x.fraction != [], ['.' as int] + x.fraction) + (x.mark + x.exponent)
  }

  function NumeralText(x: Numeral): text {
    If(x.minus, ['-' as int]) + (If(x.zero, ['0' as int]) + (x.whole + Behind(x)))
  }

  /** Mantissa and exponent: the point counts for as many powers of ten as there are digits behind it. */
  function NumeralValue(x: Numeral): Json {
    var mantissa := PlaceValue(x.whole) * Pow10(|x.fraction|) + PlaceValue(x.fraction);
    var exponent := PlaceValue(x.exponent);
    Number(if x.minus then -mantissa else mantissa,
           (if |x.mark| == 2 && x.mark[1] == '-' as int then -exponent else exponent) - |x.fraction|)
  }

  /** The parser takes as much as it can: `k` does not go on with the number. */
  predicate Stops(x: Numeral, k: text) {
    if x.mark != [] then NoDigit(k) && (|x.mark| == 1 && x.exponent == [] ==> Peek(k) != PLUS && Peek(k) != MINUS)
    else
      Peek(k) != LOWER_E && Peek(k) != UPPER_E
      && if x.fraction != [] then NoDigit(k)
         else (Peek(k) == DOT ==> NoDigit(k[1..])) && (NoDigit(k) || (x.whole == [] && x.zero && k[0] == ZERO))
  }

  lemma {:induction false} IntegerIsRead(zero: bool, whole: text, v: text)
    requires AllDigits(whole) && (whole != [] ==> whole[0] != '0' as int)
    requires NoDigit(v) || (whole == [] && zero && v[0] == ZERO)
    ensures PlaceValue(whole) >= 0 && ScanInteger(If(zero, ['0' as int]) + (whole + v)) == (PlaceValue(whole), v)
  {
    var u := whole + v;
    var s := If(zero, ['0' as int]) + u;
    assert zero ==> s[1..] == u;
    assert !zero ==> s == u;
    PlaceValueBounds(whole);
    if whole == [] {
      assert u == v;
    } else {
      assert u[0] == whole[0];
      DigitsAreRead(whole, v, 0, 0);
    }
  }

  lemma {:induction false} FractionIsRead(f: text, v: text, n: nat)
    requires AllDigits(f) && (if f == [] then Peek(v) == DOT ==> NoDigit(v[1..]) else NoDigit(v))
    ensures PlaceValue(f) >= 0
    ensures ScanFraction(If(f != [], ['.' as int] + f) + v, n) == (n * Pow10(|f|) + PlaceValue(f), |f|, v)
  {
    PlaceValueBounds(f);
    if f == [] {
      assert If(f != [], ['.' as int] + f) + v == v;
    } else {
      var s := ['.' as int] + f + v;
      assert s[1..] == f + v && (f + v)[0] == f[0];
      DigitsAreRead(f, v, n, 0);
    }
  }

  lemma {:induction false} ExponentIsRead(mark: text, e: text, k: text)
    requires IsMark(mark) && AllDigits(e) && (mark == [] ==> e == [] && Peek(k) != LOWER_E && Peek(k) != UPPER_E)
    requires mark != [] ==> NoDigit(k) && (|mark| == 1 && e == [] ==> Peek(k) != PLUS && Peek(k) != MINUS)
    ensures ScanExponent(mark + e + k)
         == (if |mark| == 2 && mark[1] == '-' as int then -PlaceValue(e) else PlaceValue(e), k)
  {
    var s := mark + e + k;
    if mark == [] {
      assert s == k;
    } else {
      DigitsAreRead(e, k, 0, 0);
      assert s[0] == mark[0];
      if |mark| == 2 {
        assert s[1..][0] == mark[1] && s[1..][1..] == e + k;
      } else {
        assert s[1..] == e + k;
        assert e != [] ==> (e + k)[0] == e[0];
        assert e == [] ==> e + k == k;
      }
    }
  }

  /** What is behind the digits in front of the point. */
  lemma {:induction false} BehindIsRead(x: Numeral, k: text, n: nat)
    requires IsNumeral(x) && Stops(x, k)
    ensures var (m, scale, w) := ScanFraction(Behind(x) + k, n);
            m == n * Pow10(|x.fraction|) + PlaceValue(x.fraction) && scale == |x.fraction|
            && w == x.mark + x.exponent + k
    ensures NoDigit(Behind(x) + k) || (x.whole == [] && x.zero && (Behind(x) + k)[0] == ZERO)
  {
    var f := If(x.fraction != [], ['.' as int] + x.fraction);
    var w := x.mark + x.exponent + k;
    Assoc(f, x.mark + x.exponent, k);
    assert x.mark != [] ==> w[0] == x.mark[0];
    assert x.mark == [] ==> w == k;
    assert f != [] ==> (f + w)[0] == f[0];
    assert f == [] ==> f + w == w;
    FractionIsRead(x.fraction, w, n);
  }

  /** A number is read as what its text is worth, whatever follows that cannot go on with it. */
  lemma {:induction false} NumeralIsRead(x: Numeral, k: text)
    requires IsNumeral(x) && Stops(x, k)
    ensures var s := NumeralText(x) + k;
            (Peek(s) == MINUS || IsDigit(Peek(s))) && ParseNumber(s) == Ok(NumeralValue(x), k)
  {
    var s := NumeralText(x) + k;
    var t := If(x.zero, ['0' as int]) + (x.whole + (Behind(x) + k));
    NumeralShape(x, k);
    NumberParts(s, x.minus, t);
    UnsignedIsRead(x, k, t);
  }

  lemma {:induction false} UnsignedIsRead(x: Numeral, k: text, t: text)
    requires IsNumeral(x) && Stops(x, k) && t == If(x.zero, ['0' as int]) + (x.whole + (Behind(x) + k))
    ensures var (n, v) := ScanInteger(t);
            var (m, scale, w) := ScanFraction(v, n);
            m == PlaceValue(x.whole) * Pow10(|x.fraction|) + PlaceValue(x.fraction) && scale == |x.fraction|
            && ScanExponent(w) == (if |x.mark| == 2 && x.mark[1] == '-' as int then -PlaceValue(x.exponent)
                                   else PlaceValue(x.exponent), k)
  {
    PlaceValueBounds(x.whole);
    BehindIsRead(x, k, PlaceValue(x.whole));
    IntegerIsRead(x.zero, x.whole, Behind(x) + k);
    ExponentIsRead(x.mark, x.exponent, k);
  }

  lemma {:induction false} NumberParts(s: text, minus: bool, t: text)
    requires if minus then s != [] && s[0] == MINUS && s[1..] == t else s == t && IsDigit(Peek(t))
    ensures var (n, v) := ScanInteger(t);
            var (m, scale, w) := ScanFraction(v, n);
            var (e, rest) := ScanExponent(w);
            var mantissa: int := m;
            (Peek(s) == MINUS || IsDigit(Peek(s)))
            && ParseNumber(s) == Ok(Number(if minus then -mantissa else mantissa, e - scale), rest)
  {
  }

  lemma {:induction false} NumeralShape(x: Numeral, k: text)
    requires IsNumeral(x)
    ensures var s := NumeralText(x) + k;
            var t := If(x.zero, ['0' as int]) + (x.whole + (Behind(x) + k));
            s == If(x.minus, ['-' as int]) + t
            && (if x.minus then s[0] == MINUS && s[1..] == t else s == t && IsDigit(Peek(t)))
  {
    var sign, zero := If(x.minus, ['-' as int]), If(x.zero, ['0' as int]);
    Assoc(sign, zero + (x.whole + Behind(x)), k);
    Assoc(zero, x.whole + Behind(x), k);
    Assoc(x.whole, Behind(x), k);
    var t := zero + (x.whole + (Behind(x) + k));
    assert x.minus ==> (sign + t)[1..] == t;
    assert !x.minus ==> sign + t == t;
    assert x.zero ==> t[0] == '0' as int;
    assert !x.zero && x.whole != [] ==> t[0] == x.whole[0];
  }

  // ---------------------------------------------------------------- every number

  lemma {:induction false} DigitRun(s: text) returns (b: text)
    ensures b <= s && AllDigits(b) && NoDigit(s[|b|..])
  {
    if NoDigit(s) {
      b := [];
    } else {
      var c := DigitRun(s[1..]);
      b := [s[0]] + c;
      assert s[|b|..] == s[1..][|c|..];
    }
  }

  lemma {:induction false} ExponentOf(s: text) returns (mark: text, e: text, k: text)
    ensures s == mark + e + k && IsMark(mark) && AllDigits(e)
    ensures mark == [] ==> e == [] && Peek(k) != LOWER_E && Peek(k) != UPPER_E
    ensures mark != [] ==> NoDigit(k) && (|mark| == 1 && e == [] ==> Peek(k) != PLUS && Peek(k) != MINUS)
  {
    mark, e, k := [], [], s;
    if Peek(s) == LOWER_E || Peek(s) == UPPER_E {
      var t := s[1..];
      mark := [s[0]] + if Peek(t) == PLUS || Peek(t) == MINUS then [t[0]] else [];
      var u := s[|mark|..];
      e := DigitRun(u);
      k := u[|e|..];
      assert |mark| == 1 && e == [] ==> u == t && k == t;
    }
  }

  /** What is behind the digits in front of the point. */
  lemma {:induction false} BehindOf(v: text) returns (fraction: text, mark: text, e: text, k: text)
    ensures v == If(fraction != [], ['.' as int] + fraction) + (mark + e) + k
    ensures AllDigits(fraction) && IsMark(mark) && AllDigits(e)
    ensures mark == [] ==> e == [] && Peek(k) != LOWER_E && Peek(k) != UPPER_E
    ensures mark == [] ==> if fraction != [] then NoDigit(k) else v == k && (Peek(k) == DOT ==> NoDigit(k[1..]))
    ensures mark != [] ==> NoDigit(k) && (|mark| == 1 && e == [] ==> Peek(k) != PLUS && Peek(k) != MINUS)
  {
    fraction := [];
    if Peek(v) == DOT {
      fraction := DigitRun(v[1..]);
    }
    var f := If(fraction != [], ['.' as int] + fraction);
    var w := v[|f|..];
    PointAndDigits(v, fraction, w);
    mark, e, k := ExponentOf(w);
    Assoc(f, mark + e, k);
    assert mark == [] ==> mark + e + k == k;
  }

  lemma PointAndDigits(v: text, b: text, w: text)
    requires if b == [] then w == v else v != [] && v[0] == DOT && b <= v[1..] && w == v[1 + |b|..]
    ensures v == If(b != [], ['.' as int] + b) + w
    ensures b != [] ==> w == v[1..][|b|..]
  {
    if b != [] {
      assert v[1..] == b + w;
    }
  }

  lemma {:induction false} IntegerOf(t: text) returns (zero: bool, whole: text)
    ensures AllDigits(whole) && (whole != [] ==> whole[0] != '0' as int)
    ensures var z := If(zero, ['0' as int]) + whole;
            z <= t && (NoDigit(t[|z|..]) || (whole == [] && zero && t[|z|] == ZERO))
    ensures IsDigit(Peek(t)) ==> zero || whole != []
  {
    zero := Peek(t) == ZERO;
    var u := if zero then t[1..] else t;
    whole := [];
    if Peek(u) != ZERO {
      whole := DigitRun(u);
    }
    var z := If(zero, ['0' as int]) + whole;
    assert t[|z|..] == u[|whole|..];
    assert zero ==> t == ['0' as int] + u;
  }

  /** Every text that the parser takes for a number starts with such a numeral, and what is left cannot go on with
      it. */
  lemma {:induction false} NumeralOf(s: text) returns (x: Numeral, k: text)
    requires Peek(s) == MINUS || IsDigit(Peek(s))
    ensures IsNumeral(x) && Stops(x, k) && s == NumeralText(x) + k
  {
    if Peek(s) == MINUS {
      x, k := UnsignedOf(s[1..], true);
      NumeralShape(x, k);
      assert s == ['-' as int] + s[1..];
    } else {
      x, k := UnsignedOf(s, false);
      NumeralShape(x, k);
    }
  }

  lemma {:induction false} UnsignedOf(t: text, minus: bool) returns (x: Numeral, k: text)
    requires minus || IsDigit(Peek(t))
    ensures IsNumeral(x) && Stops(x, k) && x.minus == minus
    ensures t == If(x.zero, ['0' as int]) + (x.whole + (Behind(x) + k))
  {
    var zero, whole := IntegerOf(t);
    var v := t[|If(zero, ['0' as int]) + whole|..];
    var fraction, mark, e;
    fraction, mark, e, k := BehindOf(v);
    x := Numeral(minus, zero, whole, fraction, mark, e);
    Rejoin(t, If(zero, ['0' as int]), whole, v);
  }

  lemma Rejoin(t: text, zero: text, whole: text, v: text)
    requires zero + whole <= t && v == t[|zero + whole|..]
    ensures t == zero + (whole + v)
  {
    assert t == zero + whole + v;
    Assoc(zero, whole, v);
  }
}
