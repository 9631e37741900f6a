/** parse_string: a pass that measures the literal and a pass that decodes it. */
module StringParser {
  import opened Bytes
  import opened Utf8
  import opened Literals
  import opened Buffers

  /** parse_hex4 stops at the first character that is no digit, so it never reads past the NUL. */
  method ParseHex4(s: text, i: nat) returns (h: nat)
    requires i <= |s|
    ensures h == Hex4(s[i..])
  {
    h := 0;
    ghost var t := s[i..];
    if HexValue(At(s, i)) < 0 { return 0; }
    h := h + HexValue(At(s, i));
    if HexValue(At(s, i + 1)) < 0 { return 0; }
    h := h * 16 + HexValue(At(s, i + 1));
    if HexValue(At(s, i + 2)) < 0 { return 0; }
    h := h * 16 + HexValue(At(s, i + 2));
    if HexValue(At(s, i + 3)) < 0 { return 0; }
    h := h * 16 + HexValue(At(s, i + 3));
    assert |t| >= 4 && t[0] == s[i] && t[1] == s[i + 1] && t[2] == s[i + 2] && t[3] == s[i + 3];
  }

  /** The first loop. */
  method Measure(s: text, i: nat) returns (len: nat)
    requires i <= |s| && WellEscaped(s[i..])
    ensures len == CountedLength(s[i..])
  {
    var ptr := i;
    len := 0;
    while At(s, ptr) != QUOTE && At(s, ptr) != 0
      invariant i <= ptr <= |s| && WellEscaped(s[ptr..])
      invariant len + CountedLength(s[ptr..]) == CountedLength(s[i..])
      decreases |s| - ptr
    {
      ghost var t := s[ptr..];
      assert t[0] == s[ptr] && t[1..] == s[ptr + 1..];
      len := len + 1;
      var c := At(s, ptr);
      ptr := ptr + 1;
      if c == BACKSLASH {
        SkipPair(t);
        assert t[2..] == s[ptr + 1..];
        ptr := ptr + 1;
      }
    }
  }

  /** The bytes of `e` from `q` on are behind `w`. */
  ghost predicate Backed(a: array<byte>, r: Region, w: text, e: text, q: nat)
    reads a
  {
    |r.was| == a.Length && r.at + |w| <= q <= r.at + |w| + |e| <= r.end <= a.Length
    && (forall j :: r.at <= j < r.at + |w| ==> a[j] == w[j - r.at])
    && (forall j :: q <= j < r.at + |w| + |e| ==> a[j] == e[j - r.at - |w|])
    && (forall j :: 0 <= j < r.at || r.end <= j < a.Length ==> a[j] == r.was[j])
  }

  /** `*--p = c` */
  method PutBack(a: array<byte>, p: nat, c: byte, ghost r: Region, ghost w: text, ghost e: text) returns (q: nat)
    requires Backed(a, r, w, e, p) && p > r.at + |w| && c == e[p - 1 - r.at - |w|]
    modifies a
    ensures q == p - 1 && Backed(a, r, w, e, q)
  {
    q := p - 1;
    a[q] := c;
  }

  /** The bytes of the encoding, six bits at a time from the last one on. */
  lemma SixBitsAtATime(uc: nat)
    requires 0 < uc < 0x110000
    ensures var e, u1, u2, u3 := Encode(uc), uc / 0x40, uc / 0x40 / 0x40, uc / 0x40 / 0x40 / 0x40;
            if uc < 0x80 then e == [uc]
            else if uc < 0x800 then e == [0xC0 + u1, 0x80 + uc % 0x40]
            else if uc < 0x10000 then e == [0xE0 + u2, 0x80 + u1 % 0x40, 0x80 + uc % 0x40]
            else e == [0xF0 + u3, 0x80 + u2 % 0x40, 0x80 + u1 % 0x40, 0x80 + uc % 0x40]
  {
    assert uc / 0x40 / 0x40 == uc / 0x1000 && uc / 0x1000 / 0x40 == uc / 0x40000;
  }

  /** The bytes of one code point, stored from the last to the first. */
  method PutUtf8(a: array<byte>, p: nat, uc: nat, ghost r: Region, ghost w: text) returns (q: nat)
    requires 0 < uc < 0x110000 && Writing(a, r, w) && p == r.at + |w| && p + |Encode(uc)| <= r.end
    modifies a
    ensures q == p + |Encode(uc)| && Writing(a, r, w + Encode(uc))
  {
    var len := if uc < 0x80 then 1 else if uc < 0x800 then 2 else if uc < 0x10000 then 3 else 4;
    q := p + len;
    var u := uc;
    ghost var e := Encode(uc);
    SixBitsAtATime(uc);
    if len >= 4 {
      q := PutBack(a, q, 0x80 + u % 0x40, r, w, e);
      u := u / 0x40;
    }
    if len >= 3 {
      q := PutBack(a, q, 0x80 + u % 0x40, r, w, e);
      u := u / 0x40;
    }
    if len >= 2 {
      q := PutBack(a, q, 0x80 + u % 0x40, r, w, e);
      u := u / 0x40;
    }
    q := PutBack(a, q, u + if len == 1 then 0 else if len == 2 then 0xC0 else if len == 3 then 0xE0 else 0xF0, r, w, e);
    q := q + len;
  }

  /** `\uXXXX`, possibly with a second half, from the backslash at `i` on. */
  method DecodeUnicode(s: text, i: nat, a: array<byte>, p: nat, ghost r: Region, ghost w: text)
      returns (ptr: nat, q: nat)
    requires i + 2 <= |s| && s[i] == BACKSLASH && s[i + 1] == LOWER_U && WellEscaped(s[i..])
    requires Writing(a, r, w) && p == r.at + |w| && p + |ReadUnicode(s[i..]).out| <= r.end
    modifies a
    ensures ptr == i + ReadUnicode(s[i..]).used
    ensures q == p + |ReadUnicode(s[i..]).out| && Writing(a, r, w + ReadUnicode(s[i..]).out)
  {
    ghost var t := s[i..];
    UnicodeIsComplete(t);
    assert t[2..] == s[i + 2..];
    assert w + [] == w;
    q := p;
    var uc := ParseHex4(s, i + 2);
    ptr := i + 6;
    if (0xDC00 <= uc <= 0xDFFF) || uc == 0 {
      return;
    }
    if 0xD800 <= uc <= 0xDBFF {
      ptr, uc := SecondHalf(s, i, uc);
      if uc == 0 {
        return;
      }
    }
    q := PutUtf8(a, p, uc, r, w);
  }

  /** Behind the high surrogate `uc` at `i`: the combined code point, or 0 when the second half is missing or wrong. */
  method SecondHalf(s: text, i: nat, uc: nat) returns (ptr: nat, u: nat)
    requires i + 2 <= |s| && s[i] == BACKSLASH && s[i + 1] == LOWER_U && WellEscaped(s[i..])
    requires uc == Hex4(s[i..][2..]) && 0xD800 <= uc <= 0xDBFF
    ensures ptr == i + ReadUnicode(s[i..]).used
    ensures if u == 0 then ReadUnicode(s[i..]).out == [] else u < 0x110000 && ReadUnicode(s[i..]).out == Encode(u)
  {
    ghost var t := s[i..];
    UnicodeIsComplete(t);
    ptr, u := i + 6, 0;
    assert At(t, 6) == At(s, i + 6);
    if At(s, ptr) != BACKSLASH || At(s, ptr + 1) != LOWER_U {
      return;
    }
    UnicodeIsComplete(t[6..]);
    assert t[8..] == s[i + 8..];
    var uc2 := ParseHex4(s, ptr + 2);
    ptr := ptr + 6;
    if uc2 < 0xDC00 || uc2 > 0xDFFF {
      return;
    }
    u := 0x10000 + ((uc % 0x400) * 0x400 + uc2 % 0x400);
  }

  /** One turn of the second loop. */
  method DecodeStep(s: text, i: nat, a: array<byte>, p: nat, ghost r: Region, ghost w: text) returns (ptr: nat, q: nat)
    requires i < |s| && s[i] != QUOTE && WellEscaped(s[i..])
    requires Writing(a, r, w) && p == r.at + |w| && p + |ReadStep(s[i..]).out| <= r.end
    modifies a
    ensures ptr == i + ReadStep(s[i..]).used
    ensures q == p + |ReadStep(s[i..]).out| && Writing(a, r, w + ReadStep(s[i..]).out)
  {
    ghost var t := s[i..];
    assert t[0] == s[i];
    if At(s, i) != BACKSLASH {
      q := Put(a, p, s[i], r, w);
      ptr := i + 1;
    } else {
      assert t[1] == s[i + 1];
      match s[i + 1]
      case 98 =>
        q := Put(a, p, BS, r, w);
        ptr := i + 2;
      case 102 =>
        q := Put(a, p, FF, r, w);
        ptr := i + 2;
      case 110 =>
        q := Put(a, p, LF, r, w);
        ptr := i + 2;
      case 114 =>
        q := Put(a, p, CR, r, w);
        ptr := i + 2;
      case 116 =>
        q := Put(a, p, TAB, r, w);
        ptr := i + 2;
      case 117 =>
        ptr, q := DecodeUnicode(s, i, a, p, r, w);
      case c =>
        q := Put(a, p, c, r, w);
        ptr := i + 2;
    }
  }

  /** Between two turns of the second loop: `w` is what the literal entered at `i` has given up to `ptr`, and
      the rest still fits into what the first loop counted. */
  ghost predicate Decoding(s: text, i: nat, ptr: nat, w: text, len: nat) {
    i <= ptr <= |s| && WellEscaped(s[i..]) && WellEscaped(s[ptr..])
    && w + Decoded(s[ptr..]) == Decoded(s[i..])
    && |w| + CountedLength(s[ptr..]) <= len
    && ptr - i + LiteralLength(s[ptr..]) == LiteralLength(s[i..])
  }

  lemma {:induction false} DecodingStarts(s: text, i: nat)
    requires i <= |s| && WellEscaped(s[i..])
    ensures Decoding(s, i, i, [], CountedLength(s[i..]))
  {
    assert [] + Decoded(s[i..]) == Decoded(s[i..]);
  }

  lemma {:induction false} DecodingStep(s: text, i: nat, ptr: nat, w: text, len: nat)
    requires Decoding(s, i, ptr, w, len) && ptr < |s| && s[ptr] != QUOTE
    ensures var step := ReadStep(s[ptr..]);
            Decoding(s, i, ptr + step.used, w + step.out, len) && |w| + |step.out| <= len
  {
    var t := s[ptr..];
    var step := ReadStep(t);
    StepIsCounted(t);
    assert t[step.used..] == s[ptr + step.used..];
    assert Decoded(t) == DecodedOn(t) == step.out + Decoded(t[step.used..]);
    assert LiteralLength(t) == LengthOn(t) == step.used + LiteralLength(t[step.used..]);
    Assoc(w, step.out, Decoded(t[step.used..]));
  }

  lemma {:induction false} DecodingEnds(s: text, i: nat, ptr: nat, w: text, len: nat)
    requires Decoding(s, i, ptr, w, len) && (ptr < |s| ==> s[ptr] == QUOTE)
    ensures w == Decoded(s[i..]) && |w| <= len
    ensures LiteralLength(s[i..]) == ptr - i + if ptr < |s| then 1 else 0
  {
    assert ptr < |s| ==> s[ptr..][0] == s[ptr];
    assert w + [] == w;
  }

  /** The second loop: decodes into the buffer of `len + 1` bytes and stores the NUL. */
  method Decode(s: text, i: nat, out: array<byte>, ghost len: nat) returns (ptr: nat)
    requires i <= |s| && WellEscaped(s[i..]) && len == CountedLength(s[i..]) && out.Length == len + 1
    modifies out
    ensures Holds(out, 0, Decoded(s[i..])) && i <= ptr <= |s| && (ptr < |s| ==> s[ptr] == QUOTE)
    ensures LiteralLength(s[i..]) == ptr - i + if ptr < |s| then 1 else 0
  {
    ptr := i;
    var ptr2 := 0;
    ghost var r, w: text := Region(out[..], 0, out.Length), [];
    DecodingStarts(s, i);
    while At(s, ptr) != QUOTE && At(s, ptr) != 0
      invariant Decoding(s, i, ptr, w, len) && ptr2 == |w| && Writing(out, r, w)
      decreases |s| - ptr
    {
      ghost var step := ReadStep(s[ptr..]);
      DecodingStep(s, i, ptr, w, len);
      ptr, ptr2 := DecodeStep(s, ptr, out, ptr2, r, w);
      w := w + step.out;
    }
    DecodingEnds(s, i, ptr, w, len);
    Terminate(out, ptr2, r, w);
  }

  /** parse_string: fails when there is no opening quote; otherwise the decoded string, in a new buffer, and
      the position behind the closing quote or at the NUL. */
  method ParseString(s: text, i: nat) returns (out: array?<byte>, end: nat)
    requires i <= |s| && (i < |s| && s[i] == QUOTE ==> WellEscaped(s[i + 1..]))
    ensures (out == null) == (At(s, i) != QUOTE)
    ensures out != null ==> fresh(out) && i < |s| && Holds(out, 0, Decoded(s[i + 1..]))
    ensures out != null ==> end == i + 1 + LiteralLength(s[i + 1..]) <= |s|
  {
    if At(s, i) != QUOTE {
      return null, 0;
    }
    var len := Measure(s, i + 1);
    var buffer := new byte[len + 1];
    end := Decode(s, i + 1, buffer, len);
    if At(s, end) == QUOTE {
      end := end + 1;
    }
    out := buffer;
  }
}
