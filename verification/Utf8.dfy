/** UTF-8 (section 3 of RFC 3629) and UTF-16 surrogate pairs (section 2 of RFC 2781). */
module Utf8 {
  import opened Bytes

  predicate IsHighSurrogate(u: int) { 0xD800 <= u <= 0xDBFF }

  predicate IsLowSurrogate(u: int) { 0xDC00 <= u <= 0xDFFF }

  /** A Unicode scalar value other than U+0000, which no C string can hold. */
  predicate IsScalar(u: int) {
    0 < u < 0x110000 && !IsHighSurrogate(u) && !IsLowSurrogate(u)
  }

  /** Section 2.2 of RFC 2781, on the low ten bits of each half. */
  function Combine(hi: nat, lo: nat): (u: nat)
    requires IsHighSurrogate(hi) && IsLowSurrogate(lo)
    ensures 0x10000 <= u < 0x110000
  {
    0x10000 + (hi % 0x400) * 0x400 + lo % 0x400
  }

  /** Section 2.1 of RFC 2781: the pair that stands for `u`. */
  function HighHalf(u: nat): nat
    requires 0x10000 <= u < 0x110000
  {
    0xD800 + (u - 0x10000) / 0x400
  }

  function LowHalf(u: nat): nat
    requires 0x10000 <= u < 0x110000
  {
    0xDC00 + (u - 0x10000) % 0x400
  }

  /** Combining is a bijection between surrogate pairs and the supplementary planes. */
  lemma PairRoundTrip(u: nat, hi: nat, lo: nat)
    ensures 0x10000 <= u < 0x110000 ==>
              IsHighSurrogate(HighHalf(u)) && IsLowSurrogate(LowHalf(u)) &&
              Combine(HighHalf(u), LowHalf(u)) == u
    ensures IsHighSurrogate(hi) && IsLowSurrogate(lo) ==>
              HighHalf(Combine(hi, lo)) == hi && LowHalf(Combine(hi, lo)) == lo &&
              Combine(hi, lo) == 0x10000 + (hi - 0xD800) * 0x400 + (lo - 0xDC00)
  {
    if IsHighSurrogate(hi) && IsLowSurrogate(lo) {
      assert hi % 0x400 == hi - 0xD800;
      assert lo % 0x400 == lo - 0xDC00;
    }
  }

  /** The table in section 3 of RFC 3629. */
  function Encode(u: nat): (e: text)
    requires 0 < u < 0x110000
    ensures 1 <= |e| <= 4
  {
    if u < 0x80 then [u]
    else if u < 0x800 then [0xC0 + u / 0x40, 0x80 + u % 0x40]
    else if u < 0x10000 then [0xE0 + u / 0x1000, 0x80 + u / 0x40 % 0x40, 0x80 + u % 0x40]
    else [0xF0 + u / 0x40000, 0x80 + u / 0x1000 % 0x40, 0x80 + u / 0x40 % 0x40, 0x80 + u % 0x40]
  }

  predicate IsTail(b: chr) { 0x80 <= b <= 0xBF }

  /** The most significant bits come first, behind the marker that tells the length, and six in each byte after. */
  lemma {:induction false} EncodeBytes(u: nat)
    requires 0 < u < 0x110000
    ensures var e := Encode(u);
            |e| == (if u < 0x80 then 1 else if u < 0x800 then 2 else if u < 0x10000 then 3 else 4)
            && (forall i :: 0 < i < |e| ==> 0x80 <= e[i] < 0xC0)
            && (|e| == 1 ==> u == e[0])
            && (|e| == 2 ==> 0xC0 <= e[0] < 0xE0 && u == 0x40 * (e[0] as int - 0xC0) + (e[1] as int - 0x80))
            && (|e| == 3 ==> 0xE0 <= e[0] < 0xF0
                             && u == 0x1000 * (e[0] as int - 0xE0) + 0x40 * (e[1] as int - 0x80) + (e[2] as int - 0x80))
            && (|e| == 4 ==> 0xF0 <= e[0] < 0xF8
                             && u == 0x40000 * (e[0] as int - 0xF0) + 0x1000 * (e[1] as int - 0x80)
                                     + 0x40 * (e[2] as int - 0x80)
                                     + (e[3] as int - 0x80))
  {
    ShiftTwice(u);
    ShiftTwice(u / 0x40);
  }

  /** The decoder of section 3 of RFC 3629: no overlong form, no surrogate, nothing above U+10FFFF.
      Zero stands for "not a well-formed sequence". */
  function Decode(e: text): nat {
    if |e| == 1 && e[0] < 0x80 then e[0]
    else if |e| == 2 && 0xC2 <= e[0] <= 0xDF && IsTail(e[1]) then
      Join(e[0] as int - 0xC0, e[1])
    else if |e| == 3 && 0xE0 <= e[0] <= 0xEF && IsTail(e[1]) && IsTail(e[2]) &&
            (e[0] == 0xE0 ==> 0xA0 <= e[1]) && (e[0] == 0xED ==> e[1] <= 0x9F) then
      Join(Join(e[0] as int - 0xE0, e[1]), e[2])
    else if |e| == 4 && 0xF0 <= e[0] <= 0xF4 && IsTail(e[1]) && IsTail(e[2]) && IsTail(e[3]) &&
            (e[0] == 0xF0 ==> 0x90 <= e[1]) && (e[0] == 0xF4 ==> e[1] <= 0x8F) then
      Join(Join(Join(e[0] as int - 0xF0, e[1]), e[2]), e[3])
    else 0
  }

  /** Appends the six bits of a tail byte. */
  function Join(bits: nat, tail: chr): nat
    requires IsTail(tail)
  {
    0x40 * bits + (tail as int - 0x80)
  }

  /** Every scalar value is encoded as the well-formed sequence that stands for it, and that sequence does not start
      with a shorter one. */
  lemma EncodeRoundTrip(u: nat)
    requires IsScalar(u)
    ensures Decode(Encode(u)) == u
    ensures forall k :: 0 <= k < |Encode(u)| ==> Decode(Encode(u)[..k]) == 0
  {
    var v := u / 0x40;
    assert u / 0x1000 == v / 0x40 && u / 0x40000 == v / 0x40 / 0x40;
    assert 0x800 <= u < 0x10000 && v / 0x40 == 0xD ==> v % 0x40 < 0x20;
  }

  /** And every well-formed sequence is the encoding of the scalar value that it stands for. */
  lemma DecodeRoundTrip(e: text)
    requires Decode(e) != 0
    ensures IsScalar(Decode(e)) && Encode(Decode(e)) == e
  {
    if |e| == 2 {
      JoinSplits(e[0] as int - 0xC0, e[1]);
    } else if |e| == 3 {
      DecodeThree(e);
    } else if |e| == 4 {
      DecodeFour(e);
    }
  }

  lemma DecodeThree(e: text)
    requires Decode(e) != 0 && |e| == 3
    ensures IsScalar(Decode(e)) && Encode(Decode(e)) == e
  {
    var a := e[0] as int - 0xE0;
    JoinSplits(a, e[1]);
    JoinSplits(Join(a, e[1]), e[2]);
    ShiftTwice(Decode(e));
  }

  lemma DecodeFour(e: text)
    requires Decode(e) != 0 && |e| == 4
    ensures IsScalar(Decode(e)) && Encode(Decode(e)) == e
  {
    var a := e[0] as int - 0xF0;
    JoinSplits(a, e[1]);
    JoinSplits(Join(a, e[1]), e[2]);
    JoinSplits(Join(Join(a, e[1]), e[2]), e[3]);
    ShiftTwice(Decode(e));
    ShiftTwice(Decode(e) / 0x40);
  }

  lemma JoinSplits(bits: nat, tail: chr)
    requires IsTail(tail)
    ensures Join(bits, tail) / 0x40 == bits && 0x80 + Join(bits, tail) % 0x40 == tail
  {
  }

  lemma ShiftTwice(u: nat)
    ensures u / 0x1000 == u / 0x40 / 0x40 && u / 0x40000 == u / 0x40 / 0x1000
  {
  }

  /** The bit operations of parse_string and the arithmetic used above agree. */
  lemma BitsAreArithmetic(uc: bv32, uc2: bv32)
    requires uc < 0x110000 && uc2 < 0x110000
    ensures (uc | 0x80) & 0xBF == 0x80 + uc % 0x40
    ensures uc >> 6 == uc / 0x40
    ensures uc < 0x20 ==> uc | 0xC0 == 0xC0 + uc
    ensures uc < 0x10 ==> uc | 0xE0 == 0xE0 + uc
    ensures uc < 0x08 ==> uc | 0xF0 == 0xF0 + uc
    ensures 0x10000 + (((uc & 0x3FF) << 10) | (uc2 & 0x3FF)) ==
            0x10000 + (uc % 0x400) * 0x400 + uc2 % 0x400
  {
  }
}
