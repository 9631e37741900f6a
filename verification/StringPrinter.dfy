/** print_string_ptr: the two passes over the string, and the bytes they write. */
module StringPrinter {
  import opened Bytes
  import opened Literals
  import opened Buffers

  lemma {:induction false} EscapedGrows(s: text, c: chr)
    ensures Escaped(s + [c]) == Escaped(s) + Escape(c)
  {
    if s == [] {
      assert [c][1..] == [];
      assert s + [c] == [c];
    } else {
      assert (s + [c])[1..] == s[1..] + [c];
      EscapedGrows(s[1..], c);
      Assoc(Escape(s[0]), Escaped(s[1..]), Escape(c));
    }
  }

  lemma {:induction false} EscapedPrefix(s: text, i: nat)
    requires i < |s|
    ensures Escaped(s[..i + 1]) == Escaped(s[..i]) + Escape(s[i])
    ensures |Escaped(s[..i + 1])| <= |Escaped(s)|
    decreases |s| - i
  {
    assert s[..i + 1] == s[..i] + [s[i]];
    EscapedGrows(s[..i], s[i]);
    if i + 1 < |s| {
      EscapedPrefix(s, i + 1);
    } else {
      assert s[..i + 1] == s;
    }
  }

  lemma {:induction false} EscapedPlain(s: text)
    requires forall k :: 0 <= k < |s| ==> s[k] > 31 && s[k] != QUOTE && s[k] != BACKSLASH
    ensures Escaped(s) == s
  {
    if s != [] {
      EscapedPlain(s[1..]);
      assert s == [s[0]] + s[1..];
    }
  }

  lemma {:induction false} EscapedIsLonger(s: text, k: nat)
    requires k <= |s|
    ensures |Escaped(s)| >= |s|
    ensures k < |s| && |Escape(s[k])| > 1 ==> |Escaped(s)| > |s|
  {
    if s != [] {
      EscapedIsLonger(s[1..], if k > 0 then k - 1 else |s| - 1);
    }
  }

  /** The first loop: does any character need an escape? A byte above 127 is negative as a C char. */
  method NeedsEscape(str: text) returns (flag: bool)
    ensures flag <==> Escaped(str) != str
  {
    flag := false;
    for i := 0 to |str|
      invariant flag ==> |Escaped(str)| > |str|
      invariant !flag ==> forall k :: 0 <= k < i ==> str[k] > 31 && str[k] != QUOTE && str[k] != BACKSLASH
    {
      if str[i] < 32 || str[i] == QUOTE || str[i] == BACKSLASH {
        flag := true;
        EscapedIsLonger(str, i);
      }
    }
    if !flag {
      EscapedPlain(str);
    }
  }

  /** The length that is reserved: `len`, before the two quotes and the NUL are added. */
  method MeasureString(str: text) returns (len: nat)
    ensures len == |Escaped(str)|
  {
    len := 0;
    for i := 0 to |str|
      invariant len == |Escaped(str[..i])|
    {
      EscapedPrefix(str, i);
      var token := str[i];
      len := len + 1;
      if token == QUOTE || token == BACKSLASH || token == BS || token == FF || token == LF || token == CR
        || token == TAB {
        len := len + 1;
      } else if token < 32 {
        len := len + 5;
      }
    }
    assert str[..|str|] == str;
  }

  /** Number of bytes print_string_ptr reserves; either pass through the string gives the same. */
  method ReserveString(str: text) returns (size: nat, flag: bool)
    ensures size == |Literal(str)| + 1
    ensures !flag ==> Escaped(str) == str
  {
    flag := NeedsEscape(str);
    if !flag {
      size := |str| + 3;
    } else {
      var len := MeasureString(str);
      size := len + 3;
    }
  }

  /** One turn of the second loop. sprintf also stores a NUL behind the digits; the closing quote replaces it. */
  method PutEscape(a: array<byte>, p: nat, c: chr, ghost r: Region, ghost w: text) returns (q: nat)
    requires Writing(a, r, w) && p == r.at + |w| && p + |Escape(c)| < r.end
    modifies a
    ensures q == p + |Escape(c)| && Writing(a, r, w + Escape(c))
  {
    if c > 31 && c != QUOTE && c != BACKSLASH {
      q := Put(a, p, c, r, w);
    } else {
      q := Put(a, p, BACKSLASH, r, w);
      ghost var v := w + [BACKSLASH];
      if c == BACKSLASH {
        q := Put(a, q, BACKSLASH, r, v);
      } else if c == QUOTE {
        q := Put(a, q, QUOTE, r, v);
      } else if c == BS {
        q := Put(a, q, LOWER_B, r, v);
      } else if c == FF {
        q := Put(a, q, LOWER_F, r, v);
      } else if c == LF {
        q := Put(a, q, LOWER_N, r, v);
      } else if c == CR {
        q := Put(a, q, LOWER_R, r, v);
      } else if c == TAB {
        q := Put(a, q, LOWER_T, r, v);
      } else {
        var digits: text := [LOWER_U, ZERO, ZERO, HexChar(c / 16), HexChar(c % 16)];
        q := PutText(a, q, digits, r, v);
        a[q] := 0;
        assert v + digits == w + Escape(c);
      }
      assert |Escape(c)| == 2 ==> v + [Escape(c)[1]] == w + Escape(c);
    }
  }

  /** Fills exactly the reserved bytes of the region. */
  method FillString(a: array<byte>, at: nat, str: text, flag: bool, ghost r: Region)
    requires Writing(a, r, []) && at == r.at && r.end == r.at + |Literal(str)| + 1
    requires !flag ==> Escaped(str) == str
    modifies a
    ensures Writing(a, r, Literal(str)) && Holds(a, r.at, Literal(str))
  {
    var p := Put(a, at, QUOTE, r, []);
    assert [] + [QUOTE] == [QUOTE];
    if !flag {
      p := PutText(a, p, str, r, [QUOTE]);
    } else {
      for i := 0 to |str|
        invariant Writing(a, r, [QUOTE] + Escaped(str[..i]))
        invariant p == r.at + 1 + |Escaped(str[..i])|
      {
        EscapedPrefix(str, i);
        p := PutEscape(a, p, str[i], r, [QUOTE] + Escaped(str[..i]));
        Assoc([QUOTE], Escaped(str[..i]), Escape(str[i]));
      }
      assert str[..|str|] == str;
    }
    p := Put(a, p, QUOTE, r, [QUOTE] + Escaped(str));
    Terminate(a, p, r, Literal(str));
  }
}
