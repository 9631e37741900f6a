/** Minifying a document that the parser accepts does not change its value. */
module MinifiedMeaning {
  import opened Bytes
  import opened Literals
  import opened JsonText
  import opened JsonGrammar
  import opened RoundTrip
  import opened Minifier

  /** What minifying keeps of a text. */
  function KeptOf(s: text): text
    requires Minify(s).Kept?
  {
    Minify(s).t
  }

  /** A character that is neither blank nor the start of a comment or literal is kept. */
  lemma {:induction false} FirstKept(s: text)
    requires s != [] && s[0] > SPACE && s[0] != SLASH && s[0] != QUOTE && Minify(s).Kept?
    ensures Minify(s[1..]).Kept? && KeptOf(s) == [s[0]] + KeptOf(s[1..]) && KeptOf(s)[1..] == KeptOf(s[1..])
  {
  }

  /** So is a run of such characters. */
  lemma {:induction false} PlainKept(w: text, k: text)
    requires (forall i :: 0 <= i < |w| ==> w[i] > SPACE && w[i] != SLASH && w[i] != QUOTE) && Minify(w + k).Kept?
    ensures Minify(k).Kept? && KeptOf(w + k) == w + KeptOf(k)
  {
    if w == [] {
      assert w + k == k;
    } else {
      FirstKept(w + k);
      assert (w + k)[1..] == w[1..] + k;
      PlainKept(w[1..], k);
      Assoc([w[0]], w[1..], KeptOf(k));
      assert w == [w[0]] + w[1..];
    }
  }

  /** Skipping white space first or minifying first is the same, up to a comment. */
  lemma {:induction false} SkipKept(s: text)
    requires Minify(s).Kept? && (Skip(s) != [] ==> Skip(s)[0] != SLASH)
    ensures Minify(Skip(s)).Kept? && Skip(KeptOf(s)) == KeptOf(Skip(s)) && Peek(KeptOf(Skip(s))) == Peek(Skip(s))
  {
    if s != [] {
      if s[0] <= SPACE {
        SkipKept(s[1..]);
        if !IsBlank(s[0]) {
          assert KeptOf(s)[1..] == KeptOf(s[1..]);
        }
      } else if s[0] != QUOTE {
        FirstKept(s);
      }
    }
  }

  // ---------------------------------------------------------------- literals

  /** Both ways of looking for the end of a literal agree. */
  lemma {:induction false} InsideIsLength(s: text)
    requires WellEscaped(s) && InsideLength(s) > 0
    ensures LiteralLength(s) == InsideLength(s)
  {
    if s[0] != QUOTE {
      var r := ReadStep(s);
      InsideFrom(s);
      InsideIsLength(s[r.used..]);
      assert LiteralLength(s) == LengthOn(s);
    }
  }

  lemma {:induction false} InsideFrom(s: text)
    requires s != [] && s[0] != QUOTE && WellEscaped(s) && InsideLength(s) > 0
    ensures var n := ReadStep(s).used; InsideLength(s[n..]) > 0 && InsideLength(s) == n + InsideLength(s[n..])
  {
    if s[0] == BACKSLASH {
      EscapeIsComplete(s);
      if s[1] == LOWER_U {
        InsideUnicode(s);
        if ReadStep(s).used == 12 {
          InsideUnicode(s[6..]);
          assert s[6..][6..] == s[12..];
        }
      }
    }
  }

  lemma {:induction false} InsideUnicode(s: text)
    requires |s| >= 2 && s[0] == BACKSLASH && s[1] == LOWER_U && WellEscaped(s) && InsideLength(s) > 0
    ensures |s| >= 6 && InsideLength(s[6..]) > 0 && InsideLength(s) == 6 + InsideLength(s[6..])
  {
    UnicodeIsComplete(s);
    InsidePlain(s[2..]);
    assert s[2..][4..] == s[6..];
  }

  lemma {:induction false} InsidePlain(s: text)
    requires FourPlain(s) && InsideLength(s) > 0
    ensures InsideLength(s[4..]) > 0 && InsideLength(s) == 4 + InsideLength(s[4..])
  {
    var a, b, c := s[1..], s[2..], s[3..];
    assert a[1..] == b && b[1..] == c && c[1..] == s[4..];
    assert InsideLength(c) == 1 + InsideLength(s[4..]) || InsideLength(c) < 0;
    assert InsideLength(b) == 1 + InsideLength(c) || InsideLength(b) < 0;
    assert InsideLength(a) == 1 + InsideLength(b) || InsideLength(a) < 0;
  }

  /** What a literal decodes to does not depend on what follows its closing quote. */
  lemma {:induction false} LiteralIsLocal(s: text, k: text)
    requires WellEscaped(s) && InsideLength(s) > 0
    ensures var t := s[..LiteralLength(s)] + k;
            WellEscaped(t) && LiteralLength(t) == LiteralLength(s) && Decoded(t) == Decoded(s)
  {
    var n := LiteralLength(s);
    var t := s[..n] + k;
    if s[0] != QUOTE {
      var r := ReadStep(s);
      var rest := s[r.used..];
      InsideFrom(s);
      LiteralIsLocal(rest, k);
      assert n == LengthOn(s) == r.used + LiteralLength(rest);
      var u := rest[..LiteralLength(rest)] + k;
      assert t == s[..r.used] + u && t[r.used..] == u;
      StepIsLocal(s, t, u);
      assert Decoded(s) == DecodedOn(s) && Decoded(t) == DecodedOn(t);
      assert LiteralLength(t) == LengthOn(t);
    }
  }

  lemma {:induction false} StepIsLocal(s: text, t: text, u: text)
    requires s != [] && s[0] != QUOTE && WellEscaped(s) && InsideLength(s) > 0
    requires var n := ReadStep(s).used;
             n < |s| && t == s[..n] + u && WellEscaped(u) && u != [] && u[0] == s[n]
             && (s[n] == BACKSLASH ==> |u| > 1 && n + 1 < |s| && u[1] == s[n + 1])
    ensures WellEscaped(t) && ReadStep(t) == ReadStep(s)
  {
    var n := ReadStep(s).used;
    assert t[n..] == u;
    if s[0] == BACKSLASH {
      EscapeIsComplete(s);
      if s[1] == LOWER_U {
        UnicodeIsLocal(s, t, u);
      } else {
        assert CompleteEscape(t);
      }
    }
  }

  lemma {:induction false} UnicodeIsLocal(s: text, t: text, u: text)
    requires |s| >= 2 && s[0] == BACKSLASH && s[1] == LOWER_U && WellEscaped(s)
    requires var n := ReadUnicode(s).used;
             n < |s| && t == s[..n] + u && WellEscaped(u) && u != [] && u[0] == s[n]
             && (s[n] == BACKSLASH ==> |u| > 1 && n + 1 < |s| && u[1] == s[n + 1])
    ensures WellEscaped(t) && ReadStep(t) == ReadUnicode(s)
  {
    UnicodeIsComplete(s);
    var n := ReadUnicode(s).used;
    assert forall i :: 0 <= i < n ==> t[i] == s[i];
    assert Hex4(t[2..]) == Hex4(s[2..]);
    if n == 12 {
      UnicodeIsComplete(s[6..]);
      assert Hex4(t[8..]) == Hex4(s[8..]);
      assert t[6..][6..] == u && CompleteEscape(t[6..]);
    } else {
      assert t[6..] == u;
    }
    assert CompleteEscape(t);
  }

  /** A string is read the same behind what minifying keeps. */
  lemma {:induction false} StringKept(s: text)
    requires Minify(s).Kept? && ParseString(s).Ok?
    ensures var p := ParseString(s); Minify(p.rest).Kept? && ParseString(KeptOf(s)) == Ok(p.value, KeptOf(p.rest))
  {
    var x := s[1..];
    InsideIsLength(x);
    var n := LiteralLength(x);
    var u := KeptOf(s[1 + n..]);
    assert s[1 + n..] == ParseString(s).rest;
    assert KeptOf(s) == s[..1 + n] + u;
    assert KeptOf(s)[1..] == x[..n] + u;
    LiteralIsLocal(x, u);
    assert KeptOf(s)[1 + n..] == u;
  }

  // ---------------------------------------------------------------- numbers

  /** Nothing that a number could go on with. */
  predicate Ends(k: text) {
    k == [] || (!IsDigit(k[0]) && k[0] != DOT && k[0] != LOWER_E && k[0] != UPPER_E && k[0] != PLUS && k[0] != MINUS)
  }

  predicate NoDigit(k: text) { k == [] || !IsDigit(k[0]) }

  /** The characters that the number scanner reads. */
  predicate IsNumeral(c: chr) {
    IsDigit(c) || c == DOT || c == LOWER_E || c == UPPER_E || c == PLUS || c == MINUS
  }

  ghost predicate Numerals(a: text) {
    forall i :: 0 <= i < |a| ==> IsNumeral(a[i])
  }

  /** `a` is the run of digits that is read from `s`. */
  lemma {:induction false} DigitsSplit(s: text, n: nat, count: nat) returns (a: text)
    ensures s == a + ScanDigits(s, n, count).2 && forall i :: 0 <= i < |a| ==> IsDigit(a[i])
    ensures IsDigit(Peek(s)) ==> a != []
    ensures forall k :: NoDigit(k) ==>
              ScanDigits(a + k, n, count) == (ScanDigits(s, n, count).0, ScanDigits(s, n, count).1, k)
  {
    if s != [] && IsDigit(s[0]) {
      a := DigitsSplit(s[1..], n * 10 + (s[0] - ZERO), count + 1);
      forall k | NoDigit(k)
        ensures ScanDigits([s[0]] + a + k, n, count) == (ScanDigits(s, n, count).0, ScanDigits(s, n, count).1, k)
      {
        assert ([s[0]] + a + k)[1..] == a + k;
      }
      a := [s[0]] + a;
    } else {
      a := [];
      assert forall k: text :: [] + k == k;
    }
  }

  lemma {:induction false} IntegerSplit(s: text) returns (a: text)
    ensures s == a + ScanInteger(s).1 && Numerals(a) && (IsDigit(Peek(s)) ==> a != [])
    ensures forall k :: NoDigit(k) ==> ScanInteger(a + k) == (ScanInteger(s).0, k)
  {
    var zero := if Peek(s) == ZERO then [ZERO] else [];
    var u := s[|zero|..];
    a := [];
    if ZERO < Peek(u) <= NINE {
      a := DigitsSplit(u, 0, 0);
    }
    forall k | NoDigit(k) ensures ScanInteger(zero + a + k) == (ScanInteger(s).0, k) {
      assert zero != [] ==> (zero + a + k)[1..] == a + k;
      assert zero == [] ==> zero + a + k == a + k;
      assert a != [] ==> (a + k)[0] == u[0];
      assert a == [] ==> a + k == k;
    }
    a := zero + a;
  }

  lemma {:induction false} FractionSplit(s: text, n: nat) returns (a: text)
    ensures s == a + ScanFraction(s, n).2 && Numerals(a) && (a == [] || a[0] == DOT)
    ensures forall k :: NoDigit(k) && Peek(k) != DOT ==>
              ScanFraction(a + k, n) == (ScanFraction(s, n).0, ScanFraction(s, n).1, k)
  {
    a := [];
    if Peek(s) == DOT && IsDigit(Peek(s[1..])) {
      var d := DigitsSplit(s[1..], n, 0);
      a := [DOT] + d;
      forall k | NoDigit(k) && Peek(k) != DOT
        ensures ScanFraction(a + k, n) == (ScanFraction(s, n).0, ScanFraction(s, n).1, k)
      {
        assert (a + k)[1..] == d + k && Peek(d + k) == d[0] == Peek(s[1..]);
      }
    } else {
      assert forall k: text :: [] + k == k;
    }
  }

  lemma {:induction false} ExponentSplit(s: text) returns (a: text)
    ensures s == a + ScanExponent(s).1 && Numerals(a) && (a == [] || a[0] == LOWER_E || a[0] == UPPER_E)
    ensures forall k :: Ends(k) ==> ScanExponent(a + k) == (ScanExponent(s).0, k)
  {
    if Peek(s) != LOWER_E && Peek(s) != UPPER_E {
      a := [];
      assert forall k: text :: [] + k == k;
    } else {
      a := MarkedSplit(s);
    }
  }

  /** An exponent that is there. */
  lemma {:induction false} MarkedSplit(s: text) returns (a: text)
    requires Peek(s) == LOWER_E || Peek(s) == UPPER_E
    ensures s == a + ScanExponent(s).1 && Numerals(a) && a != [] && a[0] == s[0]
    ensures forall k :: Ends(k) ==> ScanExponent(a + k) == (ScanExponent(s).0, k)
  {
    var t := s[1..];
    var sign := if Peek(t) == PLUS || Peek(t) == MINUS then [t[0]] else [];
    var u := t[|sign|..];
    var d := DigitsSplit(u, 0, 0);
    a := [s[0]] + (sign + d);
    assert t == sign + u && s == [s[0]] + t;
    ExponentIs(s[0], sign, u);
    forall k | Ends(k) ensures ScanExponent(a + k) == (ScanExponent(s).0, k) {
      SignIsSign(d, k);
      ExponentIs(s[0], sign, d + k);
      Glue([s[0]], sign, d, k);
    }
    Glue([s[0]], sign, d, ScanExponent(s).1);
    NumeralsJoin(sign, d);
    NumeralsJoin([s[0]], sign + d);
  }

  lemma SignIsSign(d: text, k: text)
    requires Ends(k) && forall i :: 0 <= i < |d| ==> IsDigit(d[i])
    ensures Peek(d + k) != PLUS && Peek(d + k) != MINUS
  {
    assert d == [] ==> d + k == k;
    assert d != [] ==> (d + k)[0] == d[0];
  }

  lemma {:induction false} ExponentIs(e: chr, sign: text, u: text)
    requires (e == LOWER_E || e == UPPER_E) && (sign == [] || sign == [PLUS] || sign == [MINUS])
    requires sign == [] ==> Peek(u) != PLUS && Peek(u) != MINUS
    ensures var (n, _, rest) := ScanDigits(u, 0, 0);
            ScanExponent([e] + (sign + u)) == (if sign == [MINUS] then 0 - n else n, rest)
  {
    var s := [e] + (sign + u);
    assert s[1..] == sign + u;
    assert sign != [] ==> s[1..][1..] == u;
    assert sign == [] ==> sign + u == u;
  }

  /** A number without its sign: mantissa, digits behind the point, exponent and what follows. */
  function Unsigned(s: text): (nat, nat, int, text) {
    var (n, v) := ScanInteger(s);
    var (m, scale, w) := ScanFraction(v, n);
    var (e, rest) := ScanExponent(w);
    (m, scale, e, rest)
  }

  lemma {:induction false} UnsignedSplit(s: text) returns (a: text)
    ensures s == a + Unsigned(s).3 && Numerals(a) && (IsDigit(Peek(s)) ==> a != [] && a[0] == s[0])
    ensures forall k :: Ends(k) ==> Unsigned(a + k) == (Unsigned(s).0, Unsigned(s).1, Unsigned(s).2, k)
  {
    var (n, v) := ScanInteger(s);
    var (m, scale, w) := ScanFraction(v, n);
    var i := IntegerSplit(s);
    var f := FractionSplit(v, n);
    var e := ExponentSplit(w);
    a := i + (f + e);
    forall k | Ends(k) ensures Unsigned(a + k) == (m, scale, Unsigned(s).2, k) {
      Unmixed(f, e, k);
      Glue(i, f, e, k);
    }
    Glue(i, f, e, Unsigned(s).3);
    NumeralsJoin(f, e);
    NumeralsJoin(i, f + e);
  }

  lemma NumeralsJoin(a: text, b: text)
    requires Numerals(a) && Numerals(b)
    ensures Numerals(a + b)
  {
  }

  lemma Glue(a: text, b: text, c: text, k: text)
    ensures a + (b + c) + k == a + (b + (c + k))
  {
    Assoc(a, b + c, k);
    Assoc(b, c, k);
  }

  /** Behind the digits of the integer comes none, and behind those of the fraction neither. */
  lemma Unmixed(f: text, e: text, k: text)
    requires (f == [] || f[0] == DOT) && (e == [] || e[0] == LOWER_E || e[0] == UPPER_E) && Ends(k)
    ensures NoDigit(e + k) && Peek(e + k) != DOT && NoDigit(f + (e + k))
  {
    assert e != [] ==> (e + k)[0] == e[0];
    assert e == [] ==> e + k == k;
    assert f != [] ==> (f + (e + k))[0] == f[0];
    assert f == [] ==> f + (e + k) == e + k;
  }

  /** A number is read the same before anything that it cannot go on with. */
  lemma {:induction false} NumberSplit(s: text) returns (a: text)
    requires Peek(s) == MINUS || IsDigit(Peek(s))
    ensures s == a + ParseNumber(s).rest && Numerals(a) && a != [] && a[0] == s[0]
    ensures forall k :: Ends(k) ==> ParseNumber(a + k) == Ok(ParseNumber(s).value, k)
  {
    var sign := if Peek(s) == MINUS then [MINUS] else [];
    var t := s[|sign|..];
    var d := UnsignedSplit(t);
    a := sign + d;
    NumeralsJoin(sign, d);
    NumberIs(sign, t);
    assert s == sign + t;
    forall k | Ends(k) ensures ParseNumber(a + k) == Ok(ParseNumber(s).value, k) {
      assert sign == [] ==> (d + k)[0] == d[0];
      NumberIs(sign, d + k);
      Assoc(sign, d, k);
    }
    Assoc(sign, d, Unsigned(t).3);
  }

  lemma {:induction false} NumberIs(sign: text, u: text)
    requires sign == [MINUS] || (sign == [] && IsDigit(Peek(u)))
    ensures var (m, scale, e, rest) := Unsigned(u); var mantissa: int := m;
            (Peek(sign + u) == MINUS || IsDigit(Peek(sign + u)))
            && ParseNumber(sign + u) == Ok(Number(if sign == [] then mantissa else -mantissa, e - scale), rest)
  {
    assert sign == [] ==> sign + u == u;
    assert sign != [] ==> (sign + u)[1..] == u;
  }

  // ---------------------------------------------------------------- documents

  /** What follows a value in a text that is accepted. */
  predicate Delimited(k: text) {
    k == [] || k[0] == COMMA || k[0] == RBRACKET || k[0] == RBRACE
  }

  lemma {:induction false} DelimitedEnds(k: text)
    requires Minify(k).Kept? && Delimited(Skip(k))
    ensures Ends(KeptOf(k))
  {
    SkipKept(k);
    assert KeptOf(k) != [] && KeptOf(k)[0] > SPACE ==> Skip(KeptOf(k)) == KeptOf(k);
  }

  lemma {:induction false} NumberKept(s: text)
    requires Minify(s).Kept? && (Peek(s) == MINUS || IsDigit(Peek(s))) && Delimited(Skip(ParseNumber(s).rest))
    ensures var p := ParseNumber(s);
            Minify(p.rest).Kept? && Peek(KeptOf(s)) == Peek(s) && ParseNumber(KeptOf(s)) == Ok(p.value, KeptOf(p.rest))
  {
    var a := NumberSplit(s);
    var rest := ParseNumber(s).rest;
    PlainKept(a, rest);
    DelimitedEnds(rest);
  }

  lemma {:induction false} WordKept(s: text, w: text)
    requires w <= s && Minify(s).Kept? && forall i :: 0 <= i < |w| ==> w[i] > SPACE && w[i] != SLASH && w[i] != QUOTE
    ensures Minify(s[|w|..]).Kept? && w <= KeptOf(s) && KeptOf(s)[|w|..] == KeptOf(s[|w|..])
  {
    assert s == w + s[|w|..];
    PlainKept(w, s[|w|..]);
  }

  /** `q` is what `p` becomes when the text is minified. */
  ghost predicate SameBut<T>(p: Parse<T>, q: Parse<T>) {
    p.Ok? ==> Minify(p.rest).Kept? && q == Ok(p.value, KeptOf(p.rest))
  }

  /** Minifying what is left of a text does not change the value that is read next. */
  lemma {:induction false} ValueKept(s: text)
    requires Minify(s).Kept? && (s != [] ==> s[0] > SPACE)
    requires ParseValue(s).Ok? ==> Delimited(Skip(ParseValue(s).rest))
    ensures SameBut(ParseValue(s), ParseValue(KeptOf(s)))
    decreases |s|, 1
  {
    if NULL <= s || FALSE <= s || TRUE <= s {
      WordValueKept(s);
    } else if Peek(s) == QUOTE {
      StringValueKept(s);
    } else if Peek(s) == MINUS || IsDigit(Peek(s)) {
      NumberValueKept(s);
    } else if Peek(s) == LBRACKET {
      ArrayKept(s);
    } else if Peek(s) == LBRACE {
      ObjectKept(s);
    }
  }

  lemma {:induction false} WordValueKept(s: text)
    requires Minify(s).Kept? && (NULL <= s || FALSE <= s || TRUE <= s)
    ensures SameBut(ParseValue(s), ParseValue(KeptOf(s)))
  {
    WordKept(s, if NULL <= s then NULL else if FALSE <= s then FALSE else TRUE);
  }

  lemma {:induction false} StringValueKept(s: text)
    requires Minify(s).Kept? && Peek(s) == QUOTE
    ensures SameBut(ParseValue(s), ParseValue(KeptOf(s)))
  {
    if ParseString(s).Ok? {
      StringKept(s);
    }
  }

  lemma {:induction false} NumberValueKept(s: text)
    requires Minify(s).Kept? && (Peek(s) == MINUS || IsDigit(Peek(s))) && Delimited(Skip(ParseNumber(s).rest))
    ensures SameBut(ParseValue(s), ParseValue(KeptOf(s)))
  {
    NumberKept(s);
  }

  /** A value does not start with a slash. */
  lemma {:induction false} ValueStart(s: text)
    ensures ParseSkipped(s).Ok? ==> Peek(Skip(s)) != SLASH
    ensures ParseItems(s).Ok? ==> Peek(Skip(s)) != SLASH && Peek(Skip(s)) != RBRACKET
    ensures ParseMembers(s).Ok? ==> Peek(Skip(s)) == QUOTE
  {
    if ParseItems(s).Ok? {
      assert ParseSkipped(s).Ok?;
    }
    if ParseSkipped(s).Ok? {
      assert ParseValue(Skip(s)).Ok?;
    }
    if ParseMembers(s).Ok? {
      assert ParseMember(s).Ok? && ParseMember(s) == NamedValue(Skip(s));
    }
  }

  lemma {:induction false} ArrayKept(s: text)
    requires Peek(s) == LBRACKET && Minify(s).Kept?
    ensures SameBut(ParseValue(s), ParseValue(KeptOf(s)))
    decreases |s|, 0
  {
    if ParseValue(s).Ok? {
      FirstKept(s);
      var u := s[1..];
      var t := Skip(u);
      assert s == [LBRACKET] + u;
      if Peek(t) == RBRACKET {
        EmptyBrackets(LBRACKET, u);
        SkipKept(u);
        FirstKept(t);
        EmptyBrackets(LBRACKET, KeptOf(u));
      } else {
        ArrayStep(u);
        ValueStart(t);
        SkipKept(u);
        ItemsKept(t);
        ArrayStep(KeptOf(u));
      }
    }
  }

  lemma {:induction false} ObjectKept(s: text)
    requires Peek(s) == LBRACE && Minify(s).Kept?
    ensures SameBut(ParseValue(s), ParseValue(KeptOf(s)))
    decreases |s|, 0
  {
    if ParseValue(s).Ok? {
      FirstKept(s);
      var u := s[1..];
      var t := Skip(u);
      assert s == [LBRACE] + u;
      if Peek(t) == RBRACE {
        EmptyBrackets(LBRACE, u);
        SkipKept(u);
        FirstKept(t);
        EmptyBrackets(LBRACE, KeptOf(u));
      } else {
        ObjectStep(u);
        ValueStart(t);
        SkipKept(u);
        MembersKept(t);
        ObjectStep(KeptOf(u));
      }
    }
  }

  lemma {:induction false} SkippedKept(s: text)
    requires Minify(s).Kept? && (ParseSkipped(s).Ok? ==> Delimited(Skip(ParseSkipped(s).rest)))
    ensures SameBut(ParseSkipped(s), ParseSkipped(KeptOf(s)))
    decreases |s|, 2
  {
    if ParseSkipped(s).Ok? {
      ValueStart(s);
      SkipKept(s);
      ValueKept(Skip(s));
    }
  }

  lemma {:induction false} ItemsKept(s: text)
    requires Minify(s).Kept?
    ensures SameBut(ParseItems(s), ParseItems(KeptOf(s)))
    decreases |s|, 3
  {
    if ParseItems(s).Ok? {
      var p := ParseSkipped(s);
      SkippedKept(s);
      SkipKept(p.rest);
      var t := Skip(p.rest);
      FirstKept(t);
      if Peek(t) == COMMA {
        ItemsKept(t[1..]);
      }
    }
  }

  lemma {:induction false} MemberKept(s: text)
    requires Minify(s).Kept? && (ParseMember(s).Ok? ==> Delimited(Skip(ParseMember(s).rest)))
    ensures SameBut(ParseMember(s), ParseMember(KeptOf(s)))
    decreases |s|, 3
  {
    if ParseMember(s).Ok? {
      var u := Skip(s);
      assert NamedValue(u).Ok?;
      SkipKept(s);
      StringKept(u);
      var p := ParseString(u);
      SkipKept(p.rest);
      var t := Skip(p.rest);
      FirstKept(t);
      SkippedKept(t[1..]);
    }
  }

  lemma {:induction false} MembersKept(s: text)
    requires Minify(s).Kept?
    ensures SameBut(ParseMembers(s), ParseMembers(KeptOf(s)))
    decreases |s|, 4
  {
    if ParseMembers(s).Ok? {
      var p := ParseMember(s);
      MemberKept(s);
      SkipKept(p.rest);
      var t := Skip(p.rest);
      FirstKept(t);
      if Peek(t) == COMMA {
        MembersKept(t[1..]);
      }
    }
  }

  /** Every document that the parser accepts up to its NUL has the same value when it is minified. */
  lemma {:induction false} MinifyKeepsMeaning(s: text)
    requires Minify(s).Kept? && ParseDocument(s, true).Ok?
    ensures ParseDocument(Minify(s).t, true) == ParseDocument(s, true)
  {
    SkippedKept(s);
    SkipKept(ParseSkipped(s).rest);
  }

  /** Where the parser need not see the NUL this fails: of `1 2` it reads 1, and of `12` twelve. */
  lemma {:induction false} MeaningWithoutNul()
    ensures var s, t := IntText(1) + ([SPACE] + IntText(2)), IntText(12);
            Minify(s) == Minified.Kept(t) && ParseDocument(t, false) == Ok(Number(12, 0), [])
            && ParseDocument(s, false) == Ok(Number(1, 0), [SPACE] + IntText(2))
  {
    var k := [SPACE] + IntText(2);
    KeptTwelve();
    NumberRoundTrip(1, k);
    NumberRoundTrip(12, []);
    assert IntText(12) + [] == IntText(12);
    assert ParseSkipped(IntText(1) + k) == ParseNumber(IntText(1) + k);
    assert ParseSkipped(IntText(12)) == ParseNumber(IntText(12));
  }

  lemma {:induction false} KeptTwelve()
    ensures IntText(1) == [ZERO + 1] && IntText(12) == [ZERO + 1, ZERO + 2]
    ensures Minify(IntText(1) + ([SPACE] + IntText(2))) == Minified.Kept(IntText(12))
  {
    var one, two := IntText(1), IntText(2);
    var k := [SPACE] + two;
    assert (one + k)[1..] == k && k[1..] == two && two[1..] == [];
    assert Minify(two) == Keep(two, Minify([]));
    assert Minify(k) == Minify(two);
    assert Minify(one + k) == Keep(one, Minify(k));
  }
}
