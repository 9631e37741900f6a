/** JSON string literals: how cJSON writes them, how it reads them back, and section 7 of RFC 8259. */
module Literals {
  import opened Bytes
  import opened Utf8

  // ---------------------------------------------------------------- writing

  function HexChar(d: nat): (c: chr)
    requires d < 16
  {
    if d < 10 then ZERO + d else LOWER_A + (d - 10)
  }

  /** What one character becomes inside a printed literal. */
  function Escape(c: chr): (e: text)
  {
    if c > 31 && c != QUOTE && c != BACKSLASH then [c]
    else if c == BACKSLASH || c == QUOTE then [BACKSLASH, c]
    else if c == BS then [BACKSLASH, LOWER_B]
    else if c == FF then [BACKSLASH, LOWER_F]
    else if c == LF then [BACKSLASH, LOWER_N]
    else if c == CR then [BACKSLASH, LOWER_R]
    else if c == TAB then [BACKSLASH, LOWER_T]
    else [BACKSLASH, LOWER_U, ZERO, ZERO, HexChar(c / 16), HexChar(c % 16)]
  }

  function Escaped(s: text): text {
    if s == [] then [] else Escape(s[0]) + Escaped(s[1..])
  }

  /** The whole printed literal. */
  function Literal(s: text): text {
    [QUOTE] + Escaped(s) + [QUOTE]
  }

  // ---------------------------------------------------------------- reading

  function HexValue(c: byte): (d: int)
    ensures -1 <= d < 16
  {
    if ZERO <= c <= NINE then c - ZERO
    else if UPPER_A <= c <= UPPER_A + 5 then 10 + (c - UPPER_A)
    else if LOWER_A <= c <= LOWER_A + 5 then 10 + (c - LOWER_A)
    else -1
  }

  /** parse_hex4: four hexadecimal digits, or 0 when one of the characters is not a digit. */
  function Hex4(s: text): (h: nat)
    ensures h < 0x10000
  {
    if |s| >= 4 && HexValue(s[0]) >= 0 && HexValue(s[1]) >= 0 && HexValue(s[2]) >= 0 && HexValue(s[3]) >= 0 then
      ((HexValue(s[0]) * 16 + HexValue(s[1])) * 16 + HexValue(s[2])) * 16 + HexValue(s[3])
    else 0
  }

  /** `s` starts inside a literal. Every escape up to the closing quote (or the NUL) is complete: a backslash
      is followed by a character, and \u by four characters that are neither quotes nor backslashes. */
  predicate WellEscaped(s: text)
    decreases |s|, 1
  {
    if s == [] || s[0] == QUOTE then true
    else if s[0] != BACKSLASH then WellEscaped(s[1..])
    else CompleteEscape(s)
  }

  predicate CompleteEscape(s: text)
    decreases |s|, 0
  {
    |s| >= 2
    && if s[1] != LOWER_U then WellEscaped(s[2..])
       else |s| >= 6 && FourPlain(s[2..]) && WellEscaped(s[6..])
  }

  lemma {:induction false} EscapeIsComplete(s: text)
    requires s != [] && s[0] == BACKSLASH && WellEscaped(s)
    ensures |s| >= 2
    ensures if s[1] != LOWER_U then WellEscaped(s[2..]) else |s| >= 6 && FourPlain(s[2..]) && WellEscaped(s[6..])
  {
    assert CompleteEscape(s);
  }

  predicate IsPlain(c: chr) { c != QUOTE && c != BACKSLASH }

  predicate FourPlain(s: text) {
    |s| >= 4 && IsPlain(s[0]) && IsPlain(s[1]) && IsPlain(s[2]) && IsPlain(s[3])
  }

  lemma {:induction false} UnicodeIsComplete(s: text)
    requires |s| >= 2 && s[0] == BACKSLASH && s[1] == LOWER_U && WellEscaped(s)
    ensures |s| >= 6 && FourPlain(s[2..]) && WellEscaped(s[6..])
  {
    EscapeIsComplete(s);
  }

  /** Output and number of characters consumed by one turn of the second loop of parse_string. */
  datatype Step = Step(out: text, used: nat)

  function ReadStep(s: text): (r: Step)
    requires s != [] && s[0] != QUOTE && WellEscaped(s)
    ensures 1 <= r.used <= |s| && WellEscaped(s[r.used..])
  {
    if s[0] != BACKSLASH then Step([s[0]], 1)
    else
      EscapeIsComplete(s);
      if s[1] == LOWER_U then ReadUnicode(s) else Step([Unescaped(s[1])], 2)
  }

  function Unescaped(c: chr): chr {
    if c == LOWER_B then BS
    else if c == LOWER_F then FF
    else if c == LOWER_N then LF
    else if c == LOWER_R then CR
    else if c == LOWER_T then TAB
    else c
  }

  function ReadUnicode(s: text): (r: Step)
    requires |s| >= 2 && s[0] == BACKSLASH && s[1] == LOWER_U && WellEscaped(s)
    ensures 1 <= r.used <= |s| && WellEscaped(s[r.used..])
  {
    UnicodeIsComplete(s);
    var uc := Hex4(s[2..]);
    if IsLowSurrogate(uc) || uc == 0 then Step([], 6)
    else if IsHighSurrogate(uc) then
      if At(s, 6) != BACKSLASH || At(s, 7) != LOWER_U then Step([], 6)
      else
        UnicodeIsComplete(s[6..]);
        assert s[6..][6..] == s[12..];
        var uc2 := Hex4(s[8..]);
        if !IsLowSurrogate(uc2) then Step([], 12)
        else Step(Encode(Combine(uc, uc2)), 12)
    else Step(Encode(uc), 6)
  }

  /** The decoded string. */
  function Decoded(s: text): text
    requires WellEscaped(s)
    decreases |s|, 1
  {
    if s == [] || s[0] == QUOTE then [] else DecodedOn(s)
  }

  function DecodedOn(s: text): text
    requires s != [] && s[0] != QUOTE && WellEscaped(s)
    decreases |s|, 0
  {
    var r := ReadStep(s);
    r.out + Decoded(s[r.used..])
  }

  /** How far parse_string gets: past the closing quote, or to the NUL when there is none. */
  function LiteralLength(s: text): (n: nat)
    requires WellEscaped(s)
    ensures n <= |s|
    decreases |s|, 1
  {
    if s == [] then 0 else if s[0] == QUOTE then 1 else LengthOn(s)
  }

  function LengthOn(s: text): (n: nat)
    requires s != [] && s[0] != QUOTE && WellEscaped(s)
    ensures n <= |s|
    decreases |s|, 0
  {
    var r := ReadStep(s);
    r.used + LiteralLength(s[r.used..])
  }

  /** `len` as counted by the first loop of parse_string. */
  function CountedLength(s: text): nat
    requires WellEscaped(s)
  {
    if s == [] || s[0] == QUOTE then 0
    else if s[0] != BACKSLASH then 1 + CountedLength(s[1..])
    else SkipPair(s); 1 + CountedLength(s[2..])
  }

  /** The first loop skips a backslash and one character; what follows is still well escaped. */
  lemma {:induction false} SkipPair(s: text)
    requires s != [] && s[0] == BACKSLASH && WellEscaped(s)
    ensures |s| >= 2 && WellEscaped(s[2..])
  {
    if s[1] == LOWER_U {
      var t := s[2..];
      assert t[4..] == s[6..];
      assert t[1..][1..] == t[2..] && t[2..][1..] == t[3..] && t[3..][1..] == t[4..];
      assert WellEscaped(t[3..]);
      assert WellEscaped(t[2..]);
      assert WellEscaped(t[1..]);
    }
  }

  /** The second loop never stores more characters than the first one counted. */
  lemma {:induction false} DecodedFits(s: text)
    requires WellEscaped(s)
    ensures |Decoded(s)| <= CountedLength(s)
    decreases |s|
  {
    if s != [] && s[0] != QUOTE {
      var r := ReadStep(s);
      DecodedFits(s[r.used..]);
      StepIsCounted(s);
    }
  }

  /** One turn of the second loop stores no more than the first loop counted over the same characters. */
  lemma {:induction false} StepIsCounted(s: text)
    requires s != [] && s[0] != QUOTE && WellEscaped(s)
    ensures |ReadStep(s).out| + CountedLength(s[ReadStep(s).used..]) <= CountedLength(s)
  {
    if s[0] == BACKSLASH && s[1] == LOWER_U {
      UnicodeIsCounted(s);
      if ReadStep(s).used == 12 {
        UnicodeIsComplete(s);
        UnicodeIsCounted(s[6..]);
        assert s[6..][6..] == s[12..];
      }
    }
  }

  /** \uXXXX counts as five. */
  lemma {:induction false} UnicodeIsCounted(s: text)
    requires |s| >= 2 && s[0] == BACKSLASH && s[1] == LOWER_U && WellEscaped(s)
    ensures |s| >= 6 && WellEscaped(s[6..]) && CountedLength(s) == 5 + CountedLength(s[6..])
  {
    UnicodeIsComplete(s);
    SkipPair(s);
    var t := s[2..];
    assert t[1..][1..] == t[2..] && t[2..][1..] == t[3..] && t[3..][1..] == t[4..] == s[6..];
    assert CountedLength(t) == 1 + CountedLength(t[1..]);
    assert CountedLength(t[1..]) == 1 + CountedLength(t[2..]);
    assert CountedLength(t[2..]) == 1 + CountedLength(t[3..]);
  }

  // ---------------------------------------------------------------- section 7 of RFC 8259

  /** An element of a literal: a byte that stands for itself or is escaped with one letter, or a UTF-16 unit. */
  datatype Token = Raw(b: chr) | Unit(u: nat)

  /** A byte passed through, or a code point still to be encoded. */
  datatype Piece = Byte(b: chr) | Scalar(u: nat)

  function Tokens(s: text): seq<Token>
    requires WellEscaped(s)
  {
    if s == [] || s[0] == QUOTE then []
    else if s[0] != BACKSLASH then [Raw(s[0])] + Tokens(s[1..])
    else
      EscapeIsComplete(s);
      if s[1] != LOWER_U then [Raw(Unescaped(s[1]))] + Tokens(s[2..])
      else [Unit(Hex4(s[2..]))] + Tokens(s[6..])
  }

  /** Pairs of surrogates become one code point; U+0000, a lone surrogate and both halves of a high surrogate
      followed by another unit that is not a low one disappear. */
  function Pieces(ts: seq<Token>): seq<Piece> {
    if ts == [] then []
    else
      match ts[0]
      case Raw(b) => [Byte(b)] + Pieces(ts[1..])
      case Unit(u) =>
        if IsHighSurrogate(u) && |ts| > 1 && ts[1].Unit? then
          (if IsLowSurrogate(ts[1].u) then [Scalar(Combine(u, ts[1].u))] else []) + Pieces(ts[2..])
        else (if IsScalar(u) then [Scalar(u)] else []) + Pieces(ts[1..])
  }

  function Encoded(ps: seq<Piece>): text {
    if ps == [] then []
    else
      (match ps[0]
       case Byte(b) => [b]
       case Scalar(u) => if IsScalar(u) then Encode(u) else [])
      + Encoded(ps[1..])
  }

  /** parse_string decodes a literal in one pass exactly as tokenising it, pairing surrogates and encoding the
      code points in UTF-8 would. */
  lemma {:induction false} DecodedIsRfc8259(s: text)
    requires WellEscaped(s)
    ensures Decoded(s) == Encoded(Pieces(Tokens(s)))
    decreases |s|
  {
    if s != [] && s[0] != QUOTE {
      var r := ReadStep(s);
      DecodedIsRfc8259(s[r.used..]);
      var rest := Tokens(s[r.used..]);
      if s[0] != BACKSLASH || s[1] != LOWER_U {
        PieceThenRest(Byte(r.out[0]), Pieces(rest));
      } else {
        UnicodeStep(s);
      }
    }
  }

  lemma {:induction false} PieceThenRest(p: Piece, ps: seq<Piece>)
    ensures Encoded([p] + ps) == Encoded([p]) + Encoded(ps)
  {
    assert ([p] + ps)[1..] == ps;
    assert [p][1..] == [];
    assert Encoded([p]) + Encoded([]) == Encoded([p]);
  }

  lemma {:induction false} UnicodeStep(s: text)
    requires |s| >= 2 && s[0] == BACKSLASH && s[1] == LOWER_U && WellEscaped(s)
    ensures var r := ReadStep(s);
            Encoded(Pieces(Tokens(s))) == r.out + Encoded(Pieces(Tokens(s[r.used..])))
  {
    UnicodeIsComplete(s);
    var u, t, ts := Hex4(s[2..]), s[6..], Tokens(s);
    assert ts == [Unit(u)] + Tokens(t) && ts[1..] == Tokens(t);
    if IsHighSurrogate(u) && At(s, 6) == BACKSLASH && At(s, 7) == LOWER_U {
      assert t[0] == BACKSLASH && t[1] == LOWER_U;
      PairedStep(s, u, t, ts);
    } else {
      assert IsHighSurrogate(u) ==> t == [] || !(t[0] == BACKSLASH && t[1] == LOWER_U);
      LoneStep(s, u, t, ts);
    }
  }

  lemma {:induction false} PairedStep(s: text, u: nat, t: text, ts: seq<Token>)
    requires |s| >= 6 && s[0] == BACKSLASH && s[1] == LOWER_U && WellEscaped(s)
    requires u == Hex4(s[2..]) && t == s[6..] && WellEscaped(t) && ts == [Unit(u)] + Tokens(t)
    requires IsHighSurrogate(u) && |t| >= 2 && t[0] == BACKSLASH && t[1] == LOWER_U
    ensures var r := ReadStep(s);
            Encoded(Pieces(ts)) == r.out + Encoded(Pieces(Tokens(s[r.used..])))
  {
    UnicodeIsComplete(t);
    assert t[6..] == s[12..] && t[2..] == s[8..];
    var v, rest := Hex4(s[8..]), Tokens(s[12..]);
    assert Tokens(t) == [Unit(v)] + rest;
    PairedPieces(u, v, rest, ts);
  }

  lemma {:induction false} PairedPieces(u: nat, v: nat, rest: seq<Token>, ts: seq<Token>)
    requires IsHighSurrogate(u) && ts == [Unit(u)] + ([Unit(v)] + rest)
    ensures Encoded(Pieces(ts)) == (if IsLowSurrogate(v) then Encode(Combine(u, v)) else []) + Encoded(Pieces(rest))
  {
    assert ts[1] == Unit(v) && ts[2..] == rest;
    if IsLowSurrogate(v) {
      PieceThenRest(Scalar(Combine(u, v)), Pieces(rest));
    } else {
      assert Pieces(ts) == Pieces(rest);
    }
  }

  lemma {:induction false} LoneStep(s: text, u: nat, t: text, ts: seq<Token>)
    requires |s| >= 6 && s[0] == BACKSLASH && s[1] == LOWER_U && WellEscaped(s)
    requires u == Hex4(s[2..]) && t == s[6..] && WellEscaped(t) && ts == [Unit(u)] + Tokens(t)
    requires IsHighSurrogate(u) ==> t == [] || t[0] != BACKSLASH || At(t, 1) != LOWER_U
    ensures var r := ReadStep(s);
            Encoded(Pieces(ts)) == r.out + Encoded(Pieces(Tokens(s[r.used..])))
  {
    assert ts[1..] == Tokens(t);
    if IsScalar(u) {
      PieceThenRest(Scalar(u), Pieces(Tokens(t)));
    } else {
      assert IsHighSurrogate(u) ==> !(|ts| > 1 && ts[1].Unit?);
      assert Pieces(ts) == Pieces(Tokens(t));
    }
  }

  // ---------------------------------------------------------------- round trip

  /** What is written for one character is read back as that character. */
  lemma {:induction false} StepRoundTrip(c: chr, k: text)
    requires WellEscaped(k)
    ensures WellEscaped(Escape(c) + k)
    ensures ReadStep(Escape(c) + k) == Step([c], |Escape(c)|)
    ensures (Escape(c) + k)[|Escape(c)|..] == k
  {
    var s := Escape(c) + k;
    if |Escape(c)| == 6 {
      assert s[2..] == [ZERO, ZERO, HexChar(c / 16), HexChar(c % 16)] + k;
      assert s[6..] == k;
      assert Hex4(s[2..]) == c;
    }
  }

  /** Reading the inside of a printed literal gives the string back, whatever follows the closing quote. */
  lemma {:induction false} LiteralRoundTrip(s: text, rest: text)
    ensures WellEscaped(Escaped(s) + [QUOTE] + rest)
    ensures Decoded(Escaped(s) + [QUOTE] + rest) == s
    ensures LiteralLength(Escaped(s) + [QUOTE] + rest) == |Escaped(s)| + 1
  {
    if s == [] {
      assert Escaped(s) + [QUOTE] + rest == [QUOTE] + rest;
    } else {
      LiteralRoundTrip(s[1..], rest);
      var k := Escaped(s[1..]) + [QUOTE] + rest;
      Assoc4(Escape(s[0]), Escaped(s[1..]), [QUOTE], rest);
      StepThenRest(s[0], k);
    }
  }

  lemma {:induction false} StepThenRest(c: chr, k: text)
    requires WellEscaped(k)
    ensures WellEscaped(Escape(c) + k) && Decoded(Escape(c) + k) == [c] + Decoded(k)
    ensures LiteralLength(Escape(c) + k) == |Escape(c)| + LiteralLength(k)
  {
    StepRoundTrip(c, k);
  }

  /** Printing is injective: two strings with the same literal are the same string. */
  lemma {:induction false} LiteralIsInjective(s: text, t: text)
    requires Literal(s) == Literal(t)
    ensures s == t
  {
    Assoc([QUOTE], Escaped(s), [QUOTE]);
    Assoc([QUOTE], Escaped(t), [QUOTE]);
    SameTail([QUOTE], Escaped(s) + [QUOTE], Escaped(t) + [QUOTE]);
    LiteralRoundTrip(s, []);
    LiteralRoundTrip(t, []);
  }

  lemma SameTail(a: text, b: text, c: text)
    requires a + b == a + c
    ensures b == c
  {
    assert b == (a + b)[|a|..] && c == (a + c)[|a|..];
  }
}
