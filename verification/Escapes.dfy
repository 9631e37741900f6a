/** Literals as sequences of characters and escapes, and what each of them stands for. */
module Escapes {
  import opened Bytes
  import opened Utf8
  import opened Literals

  // ---------------------------------------------------------------- hexadecimal digits

  const LOWER_DIGITS := "0123456789abcdef"
  const UPPER_DIGITS := "0123456789ABCDEF"

  function HexDigit(d: nat, upper: bool): (c: chr)
    requires d < 16
    ensures c != QUOTE && c != BACKSLASH
  {
    var ch := if upper then UPPER_DIGITS[d] else LOWER_DIGITS[d];
    assert '0' <= ch <= 'f';
    assert ch != '\\';
    ch as int
  }

  /** Four digits, the most significant first; `upper` says which of the letters are capital. */
  function HexText(u: nat, upper: seq<bool>): (t: text)
    requires u < 0x10000 && |upper| == 4
    ensures |t| == 4
  {
    [HexDigit(u / 0x1000, upper[0]), HexDigit(u / 0x100 % 0x10, upper[1]),
     HexDigit(u / 0x10 % 0x10, upper[2]), HexDigit(u % 0x10, upper[3])]
  }

  lemma {:induction false} DigitIsRead(d: nat, upper: bool)
    requires d < 16
    ensures HexValue(HexDigit(d, upper)) == d
  {
    assert upper ==> UPPER_DIGITS[d] == if d < 10 then '0' + d as char else 'A' + (d - 10) as char;
    assert !upper ==> LOWER_DIGITS[d] == if d < 10 then '0' + d as char else 'a' + (d - 10) as char;
  }

  /** Four hexadecimal digits are read as the number that they are written for, whatever follows them. */
  lemma {:induction false} Hex4Reads(u: nat, upper: seq<bool>, k: text)
    requires u < 0x10000 && |upper| == 4
    ensures Hex4(HexText(u, upper) + k) == u
  {
    var t := HexText(u, upper);
    DigitIsRead(u / 0x1000, upper[0]);
    DigitIsRead(u / 0x100 % 0x10, upper[1]);
    DigitIsRead(u / 0x10 % 0x10, upper[2]);
    DigitIsRead(u % 0x10, upper[3]);
    assert forall i :: 0 <= i < 4 ==> (t + k)[i] == t[i];
    assert u / 0x10 / 0x10 == u / 0x100 && u / 0x100 / 0x10 == u / 0x1000;
  }

  predicate IsHexDigit(c: chr) {
    '0' as int <= c <= '9' as int || 'a' as int <= c <= 'f' as int || 'A' as int <= c <= 'F' as int
  }

  /** Anything else is read as 0. */
  lemma Hex4Rejects(s: text, i: nat)
    requires i < 4 && (i < |s| ==> !IsHexDigit(s[i]))
    ensures Hex4(s) == 0
  {
  }

  // ---------------------------------------------------------------- the inside of a literal

  /** A character that stands for itself, a backslash with one character, and `\u` with the four characters behind it,
      which are hexadecimal digits or not. */
  datatype Unit =
    | Plain(c: chr)
    | Short(c: chr)
    | Coded(u: nat, upper: seq<bool>)
    | Uncoded(h: text)

  predicate IsUnit(x: Unit) {
    match x
    case Plain(c) => c != QUOTE && c != BACKSLASH
    case Short(c) => c != LOWER_U
    case Coded(u, upper) => u < 0x10000 && |upper| == 4
    case Uncoded(h) =>
      |h| == 4 && FourPlain(h)
      && !(IsHexDigit(h[0]) && IsHexDigit(h[1]) && IsHexDigit(h[2]) && IsHexDigit(h[3]))
  }

  predicate AreUnits(xs: seq<Unit>) {
    xs == [] || (IsUnit(xs[0]) && AreUnits(xs[1..]))
  }

  /** `\uXXXX` */
  function EscapeText(u: nat, upper: seq<bool>): (t: text)
    requires u < 0x10000 && |upper| == 4
    ensures |t| == 6
  {
    [BACKSLASH, LOWER_U] + HexText(u, upper)
  }

  function UnitText(x: Unit): (t: text)
    requires IsUnit(x)
    ensures 1 <= |t| <= 6
  {
    match x
    case Plain(c) => [c]
    case Short(c) => [BACKSLASH, c]
    case Coded(u, upper) => EscapeText(u, upper)
    case Uncoded(h) => [BACKSLASH, LOWER_U] + h
  }

  function UnitsText(xs: seq<Unit>): text
    requires AreUnits(xs)
  {
    if xs == [] then [] else UnitText(xs[0]) + UnitsText(xs[1..])
  }

  /** The table in section 7 of RFC 8259; what is not in it stands for itself. */
  function Meant(c: chr): chr {
    if c == 'b' as int then 0x08
    else if c == 'f' as int then 0x0C
    else if c == 'n' as int then 0x0A
    else if c == 'r' as int then 0x0D
    else if c == 't' as int then 0x09
    else c
  }

  /** The first half of a pair that a second escape follows, whatever that is. */
  predicate StartsPair(xs: seq<Unit>)
    requires AreUnits(xs)
  {
    |xs| > 1 && xs[0].Coded? && 0xD800 <= xs[0].u < 0xDC00 && (xs[1].Coded? || xs[1].Uncoded?)
  }

  /** The number that the digits of an escape are read as. */
  function CodeOf(x: Unit): nat
    requires IsUnit(x) && (x.Coded? || x.Uncoded?)
  {
    if x.Coded? then x.u else 0
  }

  /** What one of them stands for when it is not the first half of a pair. */
  function UnitMeaning(x: Unit): text
    requires IsUnit(x)
  {
    match x
    case Plain(c) => [c]
    case Short(c) => [Meant(c)]
    case Coded(u, _) => if u == 0 || 0xD800 <= u < 0xE000 then [] else Encode(u)
    case Uncoded(_) => []
  }

  /** What a pair of escapes stands for. */
  function PairMeaning(hi: nat, lo: nat): text
    requires 0xD800 <= hi < 0xDC00
  {
    if 0xDC00 <= lo < 0xE000 then Encode(0x10000 + (hi - 0xD800) * 0x400 + (lo - 0xDC00)) else []
  }

  /** What a literal stands for: section 7 of RFC 8259 in UTF-8, where U+0000, unpaired surrogates, pairs that do not
      match and escapes that are not hexadecimal disappear. */
  function Meaning(xs: seq<Unit>): text
    requires AreUnits(xs)
  {
    if xs == [] then []
    else if StartsPair(xs) then
      assert AreUnits(xs[1..]);
      PairMeaning(xs[0].u, CodeOf(xs[1])) + Meaning(xs[2..])
    else UnitMeaning(xs[0]) + Meaning(xs[1..])
  }

  /** What the first pass counts: an escape as one character, the digits of `\u` as four more. */
  function Counted(xs: seq<Unit>): nat
    requires AreUnits(xs)
  {
    if xs == [] then 0
    else (if xs[0].Coded? || xs[0].Uncoded? then 5 else 1) + Counted(xs[1..])
  }

  /** What can follow the inside of a literal: its closing quote, or the NUL. */
  predicate Closes(k: text) { k == [] || k[0] == QUOTE }

  lemma {:induction false} EscapeRead(x: Unit, k: text)
    requires IsUnit(x) && (x.Coded? || x.Uncoded?) && WellEscaped(k)
    ensures var s := UnitText(x) + k;
            |UnitText(x)| == 6 && s[0] == BACKSLASH && s[1] == LOWER_U && s[6..] == k && FourPlain(s[2..])
            && Hex4(s[2..]) == CodeOf(x) && WellEscaped(s)
  {
    var s := UnitText(x) + k;
    var h := if x.Coded? then HexText(x.u, x.upper) else x.h;
    assert UnitText(x) == [BACKSLASH, LOWER_U] + h;
    assert s[2..] == h + k && s[6..] == k;
    CodeRead(x, h, k);
    assert CompleteEscape(s);
  }

  lemma {:induction false} CodeRead(x: Unit, h: text, k: text)
    requires IsUnit(x) && (x.Coded? || x.Uncoded?) && h == if x.Coded? then HexText(x.u, x.upper) else x.h
    ensures FourPlain(h + k) && Hex4(h + k) == CodeOf(x)
  {
    if x.Coded? {
      Hex4Reads(x.u, x.upper, k);
    } else {
      var i := if !IsHexDigit(h[0]) then 0 else if !IsHexDigit(h[1]) then 1 else if !IsHexDigit(h[2]) then 2 else 3;
      Hex4Rejects(h + k, i);
    }
  }

  lemma {:induction false} SimpleRead(x: Unit, k: text)
    requires IsUnit(x) && (x.Plain? || x.Short?) && WellEscaped(k)
    ensures var s := UnitText(x) + k;
            WellEscaped(s) && s[0] != QUOTE && s[|UnitText(x)|..] == k
            && ReadStep(s) == Step([if x.Plain? then x.c else Meant(x.c)], |UnitText(x)|)
            && CountedLength(s) == 1 + CountedLength(k)
  {
    var s := UnitText(x) + k;
    assert s[|UnitText(x)|..] == k;
    if x.Short? {
      assert CompleteEscape(s);
    }
  }

  /** The two halves of a pair are read together. */
  lemma {:induction false} PairRead(s: text, hi: nat, lo: nat)
    requires |s| >= 12 && s[0] == BACKSLASH && s[1] == LOWER_U && WellEscaped(s)
    requires Hex4(s[2..]) == hi && 0xD800 <= hi < 0xDC00
    requires s[6] == BACKSLASH && s[7] == LOWER_U && WellEscaped(s[6..]) && Hex4(s[8..]) == lo
    ensures ReadStep(s) == Step(PairMeaning(hi, lo), 12)
  {
    UnicodeIsComplete(s);
    if 0xDC00 <= lo < 0xE000 {
      PairRoundTrip(0, hi, lo);
    }
  }

  /** A pair, and then the rest. */
  lemma {:induction false} PairThen(x: Unit, y: Unit, k: text)
    requires IsUnit(x) && IsUnit(y) && x.Coded? && 0xD800 <= x.u < 0xDC00 && (y.Coded? || y.Uncoded?) && WellEscaped(k)
    ensures var s := UnitText(x) + (UnitText(y) + k);
            WellEscaped(s) && Decoded(s) == PairMeaning(x.u, CodeOf(y)) + Decoded(k)
            && LiteralLength(s) == 12 + LiteralLength(k)
  {
    var t := UnitText(y) + k;
    var s := UnitText(x) + t;
    EscapeRead(y, k);
    EscapeRead(x, t);
    assert s[6..] == t;
    assert s[8..] == t[2..] && s[12..] == t[6..];
    assert s[6] == t[0] && s[7] == t[1];
    PairRead(s, x.u, CodeOf(y));
    StepThen(s);
  }

  lemma {:induction false} SingleRead(x: Unit, k: text)
    requires IsUnit(x) && (x.Coded? || x.Uncoded?) && WellEscaped(k)
    requires 0xD800 <= CodeOf(x) < 0xDC00 ==> k == [] || k[0] != BACKSLASH || At(k, 1) != LOWER_U
    ensures var s := UnitText(x) + k;
            var out := if CodeOf(x) == 0 || 0xD800 <= CodeOf(x) < 0xE000 then [] else Encode(CodeOf(x));
            WellEscaped(s) && s[0] == BACKSLASH && s[6..] == k && ReadStep(s) == Step(out, 6)
  {
    var s := UnitText(x) + k;
    EscapeRead(x, k);
    UnicodeIsComplete(s);
    assert At(s, 6) == Peek(k) && (k != [] ==> At(s, 7) == At(k, 1));
  }

  /** What the second loop makes of the whole follows from one turn and the rest. */
  lemma {:induction false} StepThen(s: text)
    requires s != [] && s[0] != QUOTE && WellEscaped(s)
    ensures var r := ReadStep(s);
            Decoded(s) == r.out + Decoded(s[r.used..]) && LiteralLength(s) == r.used + LiteralLength(s[r.used..])
  {
    assert Decoded(s) == DecodedOn(s) && LiteralLength(s) == LengthOn(s);
  }

  /** One of them, and then the rest. */
  lemma {:induction false} UnitThen(x: Unit, k: text)
    requires IsUnit(x) && WellEscaped(k)
    requires x.Coded? && 0xD800 <= x.u < 0xDC00 ==> k == [] || k[0] != BACKSLASH || At(k, 1) != LOWER_U
    ensures var s := UnitText(x) + k;
            WellEscaped(s) && Decoded(s) == UnitMeaning(x) + Decoded(k)
            && LiteralLength(s) == |UnitText(x)| + LiteralLength(k)
  {
    if x.Plain? || x.Short? {
      SimpleRead(x, k);
    } else {
      SingleRead(x, k);
    }
    StepThen(UnitText(x) + k);
  }

  /** Every literal is decoded as what its characters and escapes stand for. It ends behind its closing quote, or at
      the NUL when there is none. */
  lemma {:induction false} LiteralMeans(xs: seq<Unit>, k: text)
    requires AreUnits(xs) && Closes(k)
    ensures var s := UnitsText(xs) + k;
            WellEscaped(s) && Decoded(s) == Meaning(xs)
            && LiteralLength(s) == |UnitsText(xs)| + if k == [] then 0 else 1
    decreases |xs|
  {
    var s := UnitsText(xs) + k;
    if xs == [] {
      assert s == k;
    } else if StartsPair(xs) {
      PairShape(xs, k);
      LiteralMeans(xs[2..], k);
      PairThen(xs[0], xs[1], UnitsText(xs[2..]) + k);
    } else {
      LiteralMeans(xs[1..], k);
      Assoc(UnitText(xs[0]), UnitsText(xs[1..]), k);
      NoEscapeNext(xs, k);
      UnitThen(xs[0], UnitsText(xs[1..]) + k);
    }
  }

  lemma PairShape(xs: seq<Unit>, k: text)
    requires AreUnits(xs) && |xs| > 1
    ensures AreUnits(xs[2..]) && IsUnit(xs[1])
    ensures UnitsText(xs) + k == UnitText(xs[0]) + (UnitText(xs[1]) + (UnitsText(xs[2..]) + k))
    ensures |UnitsText(xs)| == |UnitText(xs[0])| + |UnitText(xs[1])| + |UnitsText(xs[2..])|
  {
    assert xs[1..][1..] == xs[2..];
    Assoc(UnitText(xs[0]), UnitsText(xs[1..]), k);
    Assoc(UnitText(xs[1]), UnitsText(xs[2..]), k);
  }

  lemma NoEscapeNext(xs: seq<Unit>, k: text)
    requires AreUnits(xs) && xs != [] && !StartsPair(xs) && Closes(k)
    ensures var t := UnitsText(xs[1..]) + k;
            xs[0].Coded? && 0xD800 <= xs[0].u < 0xDC00 ==> t == [] || t[0] != BACKSLASH || At(t, 1) != LOWER_U
  {
    var rest := xs[1..];
    var t := UnitsText(rest) + k;
    if rest == [] {
      assert t == k;
    } else {
      Assoc(UnitText(rest[0]), UnitsText(rest[1..]), k);
      assert t[0] == UnitText(rest[0])[0];
      assert rest[0].Short? ==> t[1] == rest[0].c;
    }
  }

  /** The first pass counts one for each of them, and five for `\u`. */
  lemma {:induction false} LiteralCounts(xs: seq<Unit>, k: text)
    requires AreUnits(xs) && Closes(k)
    ensures WellEscaped(UnitsText(xs) + k) && CountedLength(UnitsText(xs) + k) == Counted(xs)
    decreases |xs|
  {
    var s := UnitsText(xs) + k;
    if xs == [] {
      assert s == k;
    } else {
      var t := UnitsText(xs[1..]) + k;
      LiteralCounts(xs[1..], k);
      Assoc(UnitText(xs[0]), UnitsText(xs[1..]), k);
      if xs[0].Plain? || xs[0].Short? {
        SimpleRead(xs[0], t);
      } else {
        EscapeRead(xs[0], t);
        UnicodeIsCounted(s);
      }
    }
  }

  /** And every text on which the parser stays inside its buffers is of this form up to where the literal ends. */
  lemma {:induction false} LiteralSplit(s: text) returns (xs: seq<Unit>, k: text)
    requires WellEscaped(s)
    ensures AreUnits(xs) && Closes(k) && s == UnitsText(xs) + k
    decreases |s|
  {
    if s == [] || s[0] == QUOTE {
      xs, k := [], s;
    } else {
      var x: Unit;
      var n: nat;
      if s[0] != BACKSLASH {
        x, n := Plain(s[0]), 1;
      } else {
        EscapeIsComplete(s);
        if s[1] != LOWER_U {
          x, n := Short(s[1]), 2;
        } else {
          n := 6;
          x := CodedOrNot(s);
        }
      }
      assert s == UnitText(x) + s[n..];
      xs, k := LiteralSplit(s[n..]);
      Assoc(UnitText(x), UnitsText(xs), k);
      xs := [x] + xs;
    }
  }

  lemma {:induction false} DigitOf(c: chr) returns (d: nat, upper: bool)
    requires IsHexDigit(c)
    ensures d < 16 && HexDigit(d, upper) == c
  {
    if c <= '9' as int {
      d, upper := c - 48, false;
    } else if c <= 'F' as int {
      d, upper := c - 55, true;
    } else {
      d, upper := c - 87, false;
    }
    DigitIsRead(d, upper);
  }

  lemma FourDigits(a: nat, b: nat, c: nat, d: nat)
    requires a < 16 && b < 16 && c < 16 && d < 16
    ensures var u := ((a * 16 + b) * 16 + c) * 16 + d;
            u / 0x1000 == a && u / 0x100 % 0x10 == b && u / 0x10 % 0x10 == c && u % 0x10 == d
  {
    var v := (a * 16 + b) * 16 + c;
    var u := v * 16 + d;
    assert u / 0x10 == v && v / 0x10 == a * 16 + b;
    assert u / 0x100 == v / 0x10 && u / 0x1000 == v / 0x10 / 0x10;
  }

  lemma {:induction false} FourHexDigits(h: text) returns (u: nat, upper: seq<bool>)
    requires |h| == 4 && IsHexDigit(h[0]) && IsHexDigit(h[1]) && IsHexDigit(h[2]) && IsHexDigit(h[3])
    ensures u < 0x10000 && |upper| == 4 && HexText(u, upper) == h
  {
    var a, ua := DigitOf(h[0]);
    var b, ub := DigitOf(h[1]);
    var c, uc := DigitOf(h[2]);
    var d, ud := DigitOf(h[3]);
    u, upper := ((a * 16 + b) * 16 + c) * 16 + d, [ua, ub, uc, ud];
    FourDigits(a, b, c, d);
    SameDigits(u, upper, h, a, b, c, d);
  }

  lemma SameDigits(u: nat, upper: seq<bool>, h: text, a: nat, b: nat, c: nat, d: nat)
    requires u < 0x10000 && |upper| == 4 && |h| == 4 && a < 16 && b < 16 && c < 16 && d < 16
    requires u / 0x1000 == a && u / 0x100 % 0x10 == b && u / 0x10 % 0x10 == c && u % 0x10 == d
    requires h[0] == HexDigit(a, upper[0]) && h[1] == HexDigit(b, upper[1])
    requires h[2] == HexDigit(c, upper[2]) && h[3] == HexDigit(d, upper[3])
    ensures HexText(u, upper) == h
  {
  }

  lemma {:induction false} CodedOrNot(s: text) returns (x: Unit)
    requires |s| >= 6 && s[0] == BACKSLASH && s[1] == LOWER_U && FourPlain(s[2..])
    ensures IsUnit(x) && UnitText(x) == s[..6]
  {
    var h := s[2..6];
    if IsHexDigit(h[0]) && IsHexDigit(h[1]) && IsHexDigit(h[2]) && IsHexDigit(h[3]) {
      var u, upper := FourHexDigits(h);
      x := Coded(u, upper);
    } else {
      x := Uncoded(h);
    }
    assert s[..6] == [BACKSLASH, LOWER_U] + h;
  }

  // ---------------------------------------------------------------- single escapes

  /** A scalar value below U+10000 is decoded to its UTF-8 from the escape with its four digits. */
  lemma {:induction false} ScalarEscape(u: nat, upper: seq<bool>, k: text)
    requires (0 < u < 0xD800 || 0xE000 <= u < 0x10000) && |upper| == 4 && WellEscaped(k)
    ensures var s := EscapeText(u, upper) + k; WellEscaped(s) && Decoded(s) == Encode(u) + Decoded(k)
  {
    UnitThen(Coded(u, upper), k);
  }

  /** And one above from the escapes with its two surrogates. */
  lemma {:induction false} SurrogateEscapes(u: nat, hi: nat, lo: nat, upper: seq<bool>, upper': seq<bool>, k: text)
    requires 0x10000 <= u < 0x110000 && |upper| == 4 && |upper'| == 4 && WellEscaped(k)
    requires hi == 0xD800 + (u - 0x10000) / 0x400 && lo == 0xDC00 + (u - 0x10000) % 0x400
    ensures hi < 0x10000 && lo < 0x10000
    ensures var s := EscapeText(hi, upper) + (EscapeText(lo, upper') + k);
            WellEscaped(s) && Decoded(s) == Encode(u) + Decoded(k)
  {
    HalvesJoin(u, hi, lo);
    var x, y := Coded(hi, upper), Coded(lo, upper');
    PairThen(x, y, k);
    assert UnitText(x) == EscapeText(hi, upper) && UnitText(y) == EscapeText(lo, upper');
  }

  lemma HalvesJoin(u: nat, hi: nat, lo: nat)
    requires 0x10000 <= u < 0x110000 && hi == 0xD800 + (u - 0x10000) / 0x400 && lo == 0xDC00 + (u - 0x10000) % 0x400
    ensures 0xD800 <= hi < 0xDC00 && 0xDC00 <= lo < 0xE000
    ensures 0x10000 + (hi - 0xD800) * 0x400 + (lo - 0xDC00) == u && PairMeaning(hi, lo) == Encode(u)
  {
  }

  // ---------------------------------------------------------------- what is written

  /** The shortest form that section 7 of RFC 8259 allows, with lower-case digits; a slash is not escaped. */
  lemma EscapeForms(c: chr)
    ensures Escape(c) ==
            if c == '"' as int then [BACKSLASH, '"' as int]
            else if c == '\\' as int then [BACKSLASH, '\\' as int]
            else if c == 0x08 then [BACKSLASH, 'b' as int]
            else if c == 0x0C then [BACKSLASH, 'f' as int]
            else if c == 0x0A then [BACKSLASH, 'n' as int]
            else if c == 0x0D then [BACKSLASH, 'r' as int]
            else if c == 0x09 then [BACKSLASH, 't' as int]
            else if c < 0x20 then EscapeText(c, [false, false, false, false])
            else [c]
  {
    if c < 0x20 {
      ControlForm(c);
    }
  }

  lemma ControlForm(c: chr)
    requires c < 0x20
    ensures EscapeText(c, [false, false, false, false])
         == [BACKSLASH, LOWER_U, ZERO, ZERO, HexChar(c / 16), HexChar(c % 16)]
  {
    DigitForms(c / 16);
    DigitForms(c % 16);
    assert c / 0x1000 == 0 && c / 0x100 % 0x10 == 0 && c / 0x10 % 0x10 == c / 16;
  }

  lemma DigitForms(d: nat)
    requires d < 16
    ensures HexChar(d) == HexDigit(d, false) && HexDigit(0, false) == ZERO
  {
    DigitIsRead(d, false);
  }
}
