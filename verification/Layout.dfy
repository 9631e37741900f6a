/** The formatted layout, as what a pretty-printer makes of the unformatted text without knowing the value. */
module Layout {
  import opened Bytes
  import opened Literals
  import opened JsonText
  import opened Minifier

  /** Does a comma separate members? `open` are the brackets and braces that are open, the innermost last. */
  predicate InObject(open: seq<chr>) {
    open != [] && open[|open| - 1] == '{' as int
  }

  function Closed(open: seq<chr>): seq<chr> {
    if open == [] then [] else open[..|open| - 1]
  }

  /** One member a line, indented by as many tabs as braces and brackets are open; a tab behind a colon and a blank
      behind a comma in an array. An object without members takes two lines, the second one tab short of where a
      closing brace would be. */
  function Pretty(s: text, open: seq<chr>): text
    decreases |s|
  {
    if s == [] then []
    else if s[0] == '"' as int then
      var n := InsideLength(s[1..]);
      if n < 0 then s else s[..1 + n] + Pretty(s[1 + n..], open)
    else if s[0] == '{' as int then
      if |s| > 1 && s[1] == '}' as int then
        ['{' as int, '\n' as int] + (Tabs(|open| - 1) + (['}' as int] + Pretty(s[2..], open)))
      else ['{' as int, '\n' as int] + (Tabs(|open| + 1) + Pretty(s[1..], open + [s[0]]))
    else if s[0] == '[' as int then [s[0]] + Pretty(s[1..], open + [s[0]])
    else if s[0] == '}' as int then
      ['\n' as int] + (Tabs(|open| - 1) + (['}' as int] + Pretty(s[1..], Closed(open))))
    else if s[0] == ']' as int then [s[0]] + Pretty(s[1..], Closed(open))
    else if s[0] == ',' as int then
      (if InObject(open) then [',' as int, '\n' as int] + Tabs(|open|) else [',' as int, ' ' as int])
      + Pretty(s[1..], open)
    else if s[0] == ':' as int then [':' as int, '\t' as int] + Pretty(s[1..], open)
    else [s[0]] + Pretty(s[1..], open)
  }

  /** Characters that are only copied. */
  predicate IsSimple(c: chr) {
    c != '"' as int && c != '{' as int && c != '[' as int && c != '}' as int && c != ']' as int && c != ',' as int
    && c != ':' as int
  }

  lemma {:induction false} SimpleStays(w: text, k: text, open: seq<chr>)
    requires forall i :: 0 <= i < |w| ==> IsSimple(w[i])
    ensures Pretty(w + k, open) == w + Pretty(k, open)
  {
    if w == [] {
      assert w + k == k;
    } else {
      assert (w + k)[1..] == w[1..] + k;
      SimpleStays(w[1..], k, open);
      Assoc([w[0]], w[1..], Pretty(k, open));
      assert w == [w[0]] + w[1..];
    }
  }

  lemma {:induction false} LiteralStays(str: text, k: text, open: seq<chr>)
    ensures Pretty(Literal(str) + k, open) == Literal(str) + Pretty(k, open)
  {
    var body := Escaped(str) + [QUOTE];
    var s := Literal(str) + k;
    Assoc([QUOTE], Escaped(str), [QUOTE]);
    InsideEscaped(str, k);
    assert s[1..] == body + k;
    assert s[..1 + |body|] == Literal(str) && s[1 + |body|..] == k;
  }

  /** Laying out the unformatted text of a value gives its formatted text, at every depth and whatever follows. */
  lemma {:induction false} ValueIsLaidOut(v: Json, k: text, open: seq<chr>)
    requires Printable(v)
    ensures Pretty(ValueText(v, |open|, false) + k, open) == ValueText(v, |open|, true) + Pretty(k, open)
    decreases v, 1
  {
    match v
    case Number(m, _) => NumberStays(m, k, open);
    case String(str) => LiteralStays(str, k, open);
    case Array(items) => ArrayIsLaidOut(items, k, open);
    case Object(ms) => ObjectIsLaidOut(ms, k, open);
    case Null => SimpleStays(NULL, k, open);
    case False => SimpleStays(FALSE, k, open);
    case True => SimpleStays(TRUE, k, open);
  }

  lemma {:induction false} NumberStays(n: int, k: text, open: seq<chr>)
    ensures Pretty(IntText(n) + k, open) == IntText(n) + Pretty(k, open)
  {
    DigitsArePlain(if n < 0 then -n else n);
    SimpleStays(IntText(n), k, open);
  }

  lemma {:induction false} ArrayIsLaidOut(items: seq<Json>, k: text, open: seq<chr>)
    requires AllPrintable(items)
    ensures Pretty(ValueText(Array(items), |open|, false) + k, open)
         == ValueText(Array(items), |open|, true) + Pretty(k, open)
    decreases items, 1
  {
    var d := |open| + 1;
    var u := ItemsText(items, d, false) + ([RBRACKET] + k);
    Assoc([LBRACKET] + ItemsText(items, d, false), [RBRACKET], k);
    Assoc([LBRACKET], ItemsText(items, d, false), [RBRACKET] + k);
    var inner := open + [LBRACKET];
    assert ([LBRACKET] + u)[1..] == u;
    ItemsAreLaidOut(items, [RBRACKET] + k, inner);
    assert ([RBRACKET] + k)[1..] == k && Closed(inner) == open;
    Assoc([LBRACKET] + ItemsText(items, d, true), [RBRACKET], Pretty(k, open));
    Assoc([LBRACKET], ItemsText(items, d, true), [RBRACKET] + Pretty(k, open));
  }

  lemma {:induction false} ItemsAreLaidOut(items: seq<Json>, k: text, open: seq<chr>)
    requires AllPrintable(items) && open != [] && open[|open| - 1] == LBRACKET
    ensures Pretty(ItemsText(items, |open|, false) + k, open) == ItemsText(items, |open|, true) + Pretty(k, open)
    decreases items, 0
  {
    var d, more := |open|, |items| > 1;
    if items == [] {
      assert ItemsText(items, d, false) + k == k;
    } else {
      var rest := if more then [COMMA] + (ItemsText(items[1..], d, false) + k) else k;
      var end' := Pretty(k, open);
      var rest' := if more then [COMMA, SPACE] + (ItemsText(items[1..], d, true) + end') else end';
      ItemsShape(items, d, k);
      ItemsShapeFormatted(items, d, end');
      if more {
        var u := ItemsText(items[1..], d, false) + k;
        ItemsAreLaidOut(items[1..], k, open);
        assert ([COMMA] + u)[1..] == u;
      }
      assert Pretty(rest, open) == rest';
      ValueIsLaidOut(items[0], rest, open);
    }
  }

  lemma ItemsShape(items: seq<Json>, d: nat, end: text)
    requires AllPrintable(items) && items != []
    ensures ItemsText(items, d, false) + end
         == ValueText(items[0], d, false)
            + if |items| > 1 then [COMMA] + (ItemsText(items[1..], d, false) + end) else end
  {
    var v := ValueText(items[0], d, false);
    if |items| == 1 {
      assert v + [] == v;
    } else {
      Tailed(v, [COMMA], [], ItemsText(items[1..], d, false), end);
      assert [COMMA] + [] == [COMMA];
    }
  }

  lemma ItemsShapeFormatted(items: seq<Json>, d: nat, end: text)
    requires AllPrintable(items) && items != []
    ensures ItemsText(items, d, true) + end
         == ValueText(items[0], d, true)
            + if |items| > 1 then [COMMA, SPACE] + (ItemsText(items[1..], d, true) + end) else end
  {
    var v := ValueText(items[0], d, true);
    if |items| == 1 {
      assert v + [] == v;
    } else {
      Tailed(v, [COMMA], [SPACE], ItemsText(items[1..], d, true), end);
      assert [COMMA] + [SPACE] == [COMMA, SPACE];
    }
  }

  lemma Tailed(v: text, comma: text, blank: text, rest: text, end: text)
    ensures v + (comma + blank + rest) + end == v + ((comma + blank) + (rest + end))
  {
    Assoc(v, comma + blank + rest, end);
    Assoc(comma + blank, rest, end);
  }

  lemma {:induction false} ObjectIsLaidOut(ms: seq<Member>, k: text, open: seq<chr>)
    requires MembersPrintable(ms)
    ensures Pretty(ValueText(Object(ms), |open|, false) + k, open)
         == ValueText(Object(ms), |open|, true) + Pretty(k, open)
    decreases ms, 1
  {
    var d := |open|;
    if ms == [] {
      EmptyIsLaidOut(k, open);
    } else {
      var body := MembersText(ms, d + 1, false);
      var u := body + ([RBRACE] + k);
      var inner := open + [LBRACE];
      MembersAreLaidOut(ms, k, inner);
      MembersStart(ms, d + 1, [RBRACE] + k);
      assert ([LBRACE] + u)[1..] == u && Closed(inner) == open;
      ObjectShape([], body, [], k);
      ObjectShape([LF], MembersText(ms, d + 1, true), Tabs(d), Pretty(k, open));
      BraceOpens(u, open);
    }
  }

  lemma {:induction false} EmptyIsLaidOut(k: text, open: seq<chr>)
    ensures Pretty(ValueText(Object([]), |open|, false) + k, open)
         == ValueText(Object([]), |open|, true) + Pretty(k, open)
  {
    var s := [LBRACE, RBRACE] + k;
    assert ValueText(Object([]), |open|, false) + k == s && s[2..] == k;
    var t := Tabs(|open| - 1);
    Assoc4([LBRACE], [LF] + t, [RBRACE], Pretty(k, open));
    Assoc([LBRACE, LF], t, [RBRACE] + Pretty(k, open));
    assert [LBRACE] + ([LF] + t) == [LBRACE, LF] + t;
  }

  lemma MembersStart(ms: seq<Member>, d: nat, k: text)
    requires MembersPrintable(ms) && ms != []
    ensures var s := MembersText(ms, d, false) + k; s != [] && s[0] == QUOTE
  {
    assert NameText(ms[0].name, d, false)[0] == QUOTE;
    assert MemberText(ms[0], |ms| > 1, d, false)[0] == QUOTE;
  }

  lemma ObjectShape(lf: text, m: text, tabs: text, k: text)
    ensures [LBRACE] + lf + m + tabs + [RBRACE] + k == [LBRACE] + (lf + (m + (tabs + ([RBRACE] + k))))
    ensures lf == [] && tabs == [] ==> [LBRACE] + lf + m + tabs + [RBRACE] + k == [LBRACE] + (m + ([RBRACE] + k))
  {
    Assoc([LBRACE] + lf + m + tabs, [RBRACE], k);
    Assoc([LBRACE] + lf + m, tabs, [RBRACE] + k);
    Assoc([LBRACE] + lf, m, tabs + ([RBRACE] + k));
    Assoc([LBRACE], lf, m + (tabs + ([RBRACE] + k)));
    assert lf == [] ==> lf + (m + (tabs + ([RBRACE] + k))) == m + (tabs + ([RBRACE] + k));
    assert tabs == [] ==> tabs + ([RBRACE] + k) == [RBRACE] + k;
  }

  lemma {:induction false} BraceOpens(u: text, open: seq<chr>)
    requires u != [] && u[0] != RBRACE
    ensures Pretty([LBRACE] + u, open)
         == [LBRACE] + ([LF] + (Tabs(|open| + 1) + Pretty(u, open + [LBRACE])))
  {
    var s := [LBRACE] + u;
    assert s[1..] == u && s[1] == u[0];
    var t := Tabs(|open| + 1) + Pretty(u, open + [LBRACE]);
    assert [LBRACE, LF] + t == [LBRACE] + ([LF] + t);
  }

  /** The members behind an opening brace, with the indentation of the first of them. */
  lemma {:induction false} MembersAreLaidOut(ms: seq<Member>, k: text, open: seq<chr>)
    requires MembersPrintable(ms) && ms != [] && InObject(open)
    ensures Tabs(|open|) + Pretty(MembersText(ms, |open|, false) + ([RBRACE] + k), open)
         == MembersText(ms, |open|, true) + (Tabs(|open| - 1) + ([RBRACE] + Pretty(k, Closed(open))))
    decreases ms, 0
  {
    var d, m, more := |open|, ms[0], |ms| > 1;
    var end := [RBRACE] + k;
    var rest := if more then [COMMA] + (MembersText(ms[1..], d, false) + end) else end;
    var end' := Tabs(d - 1) + ([RBRACE] + Pretty(k, Closed(open)));
    var rest' := if more then [COMMA, LF] + (MembersText(ms[1..], d, true) + end') else [LF] + end';
    MembersShape(ms, d, end);
    MembersShapeFormatted(ms, d, end');
    if more {
      var u := MembersText(ms[1..], d, false) + end;
      MembersAreLaidOut(ms[1..], k, open);
      assert ([COMMA] + u)[1..] == u;
      Assoc([COMMA, LF], Tabs(d), Pretty(u, open));
    } else {
      assert end[1..] == k;
    }
    assert Pretty(rest, open) == rest';
    MemberIsLaidOut(m, d, rest, open);
  }

  lemma {:induction false} MemberIsLaidOut(m: Member, d: nat, rest: text, open: seq<chr>)
    requires Printable(m.value) && d == |open|
    ensures Pretty(Literal(m.name) + ([COLON] + (ValueText(m.value, d, false) + rest)), open)
         == Literal(m.name) + ([COLON, TAB] + (ValueText(m.value, d, true) + Pretty(rest, open)))
    decreases m, 0
  {
    var w := ValueText(m.value, d, false) + rest;
    LiteralStays(m.name, [COLON] + w, open);
    ValueIsLaidOut(m.value, rest, open);
    assert ([COLON] + w)[1..] == w;
  }

  lemma MembersShape(ms: seq<Member>, d: nat, end: text)
    requires MembersPrintable(ms) && ms != []
    ensures MembersText(ms, d, false) + end
         == Literal(ms[0].name) + ([COLON] + (ValueText(ms[0].value, d, false)
            + if |ms| > 1 then [COMMA] + (MembersText(ms[1..], d, false) + end) else end))
  {
    var lit, v, more := Literal(ms[0].name), ValueText(ms[0].value, d, false), If(|ms| > 1, [COMMA]);
    var rest := MembersText(ms[1..], d, false);
    assert NameText(ms[0].name, d, false) == lit + [COLON];
    assert EndText(|ms| > 1, false) == more;
    Glued(lit, [COLON], v, more, rest, end);
    assert |ms| == 1 ==> rest + end == end && more + end == end;
  }

  lemma MembersShapeFormatted(ms: seq<Member>, d: nat, end: text)
    requires MembersPrintable(ms) && ms != []
    ensures MembersText(ms, d, true) + end
         == Tabs(d) + (Literal(ms[0].name) + ([COLON, TAB] + (ValueText(ms[0].value, d, true)
            + if |ms| > 1 then [COMMA, LF] + (MembersText(ms[1..], d, true) + end) else [LF] + end)))
  {
    var lit, v := Literal(ms[0].name), ValueText(ms[0].value, d, true);
    var more := EndText(|ms| > 1, true);
    var rest := MembersText(ms[1..], d, true);
    assert [COLON] + If(true, [TAB]) == [COLON, TAB];
    assert more == if |ms| > 1 then [COMMA, LF] else [LF];
    Glued(Tabs(d) + lit, [COLON, TAB], v, more, rest, end);
    Assoc(Tabs(d), lit, [COLON, TAB] + (v + (more + (rest + end))));
    assert |ms| == 1 ==> rest + end == end;
  }

  lemma Glued(a: text, b: text, v: text, more: text, rest: text, end: text)
    ensures a + b + v + more + rest + end == a + (b + (v + (more + (rest + end))))
  {
    Assoc(a + b + v + more, rest, end);
    Assoc(a + b + v, more, rest + end);
    Assoc(a + b, v, more + (rest + end));
    Assoc(a, b, v + (more + (rest + end)));
  }

  /** What cJSON_Print writes is what the pretty-printer makes of what cJSON_PrintUnformatted writes. */
  lemma {:induction false} FormattedIsPretty(v: Json)
    requires Printable(v)
    ensures ValueText(v, 0, true) == Pretty(ValueText(v, 0, false), [])
  {
    ValueIsLaidOut(v, [], []);
    assert ValueText(v, 0, false) + [] == ValueText(v, 0, false);
    assert ValueText(v, 0, true) + [] == ValueText(v, 0, true);
  }
}
