/** A lexical condition under which the parser never leaves its buffers. */
module WellFormedText {
  import opened Bytes
  import opened Literals
  import opened JsonText
  import opened JsonGrammar

  /** Scanning from outside a literal, the escapes of every literal in the text are complete. A caller can
      check this without parsing. */
  predicate LiteralsComplete(s: text)
    decreases |s|
  {
    s == [] ||
    if s[0] != QUOTE then LiteralsComplete(s[1..])
    else WellEscaped(s[1..]) && LiteralsComplete(s[1 + LiteralLength(s[1..])..])
  }

  /** `p` is no overrun, and what it leaves unread is again complete. */
  ghost predicate Sound<T>(p: Parse<T>) {
    !p.Overrun? && (p.Ok? ==> LiteralsComplete(p.rest))
  }

  lemma {:induction false} SkipSound(s: text)
    requires LiteralsComplete(s)
    ensures LiteralsComplete(Skip(s))
  {
    if s != [] && s[0] <= SPACE {
      SkipSound(s[1..]);
    }
  }

  lemma {:induction false} DigitsSound(s: text, n: nat, count: nat)
    requires LiteralsComplete(s)
    ensures LiteralsComplete(ScanDigits(s, n, count).2)
  {
    if s != [] && IsDigit(s[0]) {
      DigitsSound(s[1..], n * 10 + (s[0] - ZERO), count + 1);
    }
  }

  lemma {:induction false} ExponentSound(s: text)
    requires LiteralsComplete(s)
    ensures LiteralsComplete(ScanExponent(s).1)
  {
    if Peek(s) == LOWER_E || Peek(s) == UPPER_E {
      var t := s[1..];
      if Peek(t) == PLUS || Peek(t) == MINUS {
        DigitsSound(t[1..], 0, 0);
      } else {
        DigitsSound(t, 0, 0);
      }
    }
  }

  lemma {:induction false} NumberSound(s: text)
    requires LiteralsComplete(s) && (Peek(s) == MINUS || IsDigit(Peek(s)))
    ensures Sound(ParseNumber(s))
  {
    var t := if Peek(s) == MINUS then s[1..] else s;
    DigitsSound(if Peek(t) == ZERO then t[1..] else t, 0, 0);
    var (n, v) := ScanInteger(t);
    if Peek(v) == DOT {
      DigitsSound(v[1..], n, 0);
    }
    ExponentSound(ScanFraction(v, n).2);
  }

  lemma {:induction false} PrefixSound(s: text, w: text)
    requires LiteralsComplete(s) && w <= s && forall i :: 0 <= i < |w| ==> w[i] != QUOTE
    ensures LiteralsComplete(s[|w|..])
  {
    if w != [] {
      assert s[1..][|w| - 1..] == s[|w|..];
      PrefixSound(s[1..], w[1..]);
    }
  }

  /** On a text whose literals are complete the parser stays in bounds, whatever else is wrong with the text. */
  lemma {:induction false} ValueSound(s: text)
    requires LiteralsComplete(s)
    ensures Sound(ParseValue(s))
    decreases |s|, 0
  {
    if NULL <= s {
      PrefixSound(s, NULL);
    } else if FALSE <= s {
      PrefixSound(s, FALSE);
    } else if TRUE <= s {
      PrefixSound(s, TRUE);
    } else if s != [] {
      if s[0] == MINUS || IsDigit(s[0]) {
        NumberSound(s);
      } else if s[0] == LBRACKET {
        SkipSound(s[1..]);
        ItemsSound(Skip(s[1..]));
      } else if s[0] == LBRACE {
        SkipSound(s[1..]);
        MembersSound(Skip(s[1..]));
      }
    }
  }

  lemma {:induction false} ItemsSound(s: text)
    requires LiteralsComplete(s)
    ensures Sound(ParseItems(s))
    decreases |s|, 1
  {
    SkipSound(s);
    ValueSound(Skip(s));
    var p := ParseSkipped(s);
    if p.Ok? {
      SkipSound(p.rest);
      var t := Skip(p.rest);
      if Peek(t) == COMMA {
        ItemsSound(t[1..]);
      }
    }
  }

  lemma {:induction false} MemberSound(s: text)
    requires LiteralsComplete(s)
    ensures Sound(ParseMember(s))
    decreases |s|, 1
  {
    SkipSound(s);
    assert ParseMember(s) == NamedValue(Skip(s));
    var p := ParseString(Skip(s));
    if p.Ok? {
      SkipSound(p.rest);
      var t := Skip(p.rest);
      if Peek(t) == COLON {
        SkipSound(t[1..]);
        ValueSound(Skip(t[1..]));
        assert Sound(ParseSkipped(t[1..]));
      }
    }
  }

  lemma {:induction false} MembersSound(s: text)
    requires LiteralsComplete(s)
    ensures Sound(ParseMembers(s))
    decreases |s|, 2
  {
    MemberSound(s);
    var p := ParseMember(s);
    if p.Ok? {
      SkipSound(p.rest);
      var t := Skip(p.rest);
      if Peek(t) == COMMA {
        MembersSound(t[1..]);
      }
    }
  }

  /** cJSON_ParseWithOpts on such a text either fails or returns a tree. */
  lemma {:induction false} DocumentSound(s: text, requireNul: bool)
    requires LiteralsComplete(s)
    ensures !ParseDocument(s, requireNul).Overrun?
  {
    SkipSound(s);
    ValueSound(Skip(s));
  }
}
