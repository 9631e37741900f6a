/** Parsing what the printers write gives the printed tree back. */
module RoundTrip {
  import opened Bytes
  import opened Literals
  import opened JsonText
  import opened JsonGrammar

  /** What may follow a printed value: nothing the number scanner would take for a continuation. */
  predicate Stops(k: text) {
    k == [] || (!IsDigit(k[0]) && k[0] != DOT && k[0] != LOWER_E && k[0] != UPPER_E)
  }

  lemma {:induction false} SkipBlank(n: int, k: text)
    requires k == [] || k[0] > SPACE
    ensures Skip(Tabs(n) + k) == k
  {
    if n <= 0 {
      assert Tabs(n) + k == k;
    } else {
      var u := Tabs(n - 1) + k;
      assert Tabs(n) + k == [TAB] + u;
      assert ([TAB] + u)[1..] == u;
      SkipBlank(n - 1, k);
    }
  }

  // ---------------------------------------------------------------- numbers

  lemma {:induction false} DigitsAreScanned(n: nat, k: text)
    requires k == [] || !IsDigit(k[0])
    ensures ScanDigits(Digits(n) + k, 0, 0) == (n, |Digits(n)|, k)
  {
    ScanPrefix(n, k);
    assert ScanDigits(k, n, |Digits(n)|) == (n, |Digits(n)|, k);
  }

  lemma {:induction false} ScanPrefix(n: nat, k: text)
    ensures ScanDigits(Digits(n) + k, 0, 0) == ScanDigits(k, n, |Digits(n)|)
  {
    if n < 10 {
      ScanOne(ZERO + n, k, 0, 0);
    } else {
      var last := [ZERO + n % 10] + k;
      Assoc(Digits(n / 10), [ZERO + n % 10], k);
      ScanPrefix(n / 10, last);
      ScanOne(ZERO + n % 10, k, n / 10, |Digits(n / 10)|);
    }
  }

  lemma ScanOne(c: chr, k: text, n: nat, count: nat)
    requires IsDigit(c)
    ensures ScanDigits([c] + k, n, count) == ScanDigits(k, n * 10 + (c - ZERO), count + 1)
  {
    assert ([c] + k)[1..] == k;
  }

  lemma {:induction false} LeadingDigit(n: nat)
    ensures IsDigit(Digits(n)[0])
    ensures n > 0 ==> Digits(n)[0] != ZERO
    ensures n == 0 ==> Digits(n) == [ZERO]
  {
    if n >= 10 {
      LeadingDigit(n / 10);
    }
  }

  lemma {:induction false} NumberRoundTrip(n: int, k: text)
    requires Stops(k)
    ensures Peek(IntText(n) + k) == MINUS || IsDigit(Peek(IntText(n) + k))
    ensures ParseNumber(IntText(n) + k) == Ok(Number(n, 0), k)
  {
    var s := IntText(n) + k;
    var abs: nat := if n < 0 then -n else n;
    var t := Digits(abs) + k;
    IntegerRoundTrip(abs, k);
    BehindInteger(abs, k);
    if n < 0 {
      Assoc([MINUS], Digits(abs), k);
      assert s[1..] == t;
    }
  }

  lemma {:induction false} BehindInteger(n: nat, k: text)
    requires Stops(k)
    ensures ScanFraction(k, n) == (n, 0, k) && ScanExponent(k) == (0, k)
  {
  }

  lemma {:induction false} IntegerRoundTrip(n: nat, k: text)
    requires Stops(k)
    ensures IsDigit(Peek(Digits(n) + k)) && ScanInteger(Digits(n) + k) == (n, k)
  {
    LeadingDigit(n);
    var t := Digits(n) + k;
    assert t[0] == Digits(n)[0];
    if n == 0 {
      assert t[1..] == k;
    } else {
      DigitsAreScanned(n, k);
    }
  }

  // ---------------------------------------------------------------- literals

  lemma {:induction false} StringRoundTrip(str: text, k: text)
    ensures ParseString(Literal(str) + k) == Ok(str, k)
  {
    var s := Literal(str) + k;
    assert s[1..] == Escaped(str) + [QUOTE] + k;
    LiteralRoundTrip(str, k);
    assert s[1 + LiteralLength(s[1..])..] == k;
  }

  // ---------------------------------------------------------------- trees

  /** No printed value starts with white space, a separator or a closing bracket. */
  lemma {:induction false} FirstCharacter(t: Json, d: nat, fmt: bool)
    requires Printable(t)
    ensures var c := ValueText(t, d, fmt)[0]; c > SPACE && c != RBRACKET && c != RBRACE && c != COMMA
  {
    if t.Number? {
      LeadingDigit(if t.mantissa < 0 then -t.mantissa else t.mantissa);
    }
  }

  /** The main law: whatever the layout and the depth, the parser reads a printed tree back and stops where
      the printed text ends. */
  lemma {:induction false} ValueRoundTrip(t: Json, d: nat, fmt: bool, k: text)
    requires Printable(t) && Stops(k)
    ensures ParseValue(ValueText(t, d, fmt) + k) == Ok(t, k)
    decreases t, 1
  {
    match t
    case Number(m, _) =>
      NumberRoundTrip(m, k);
      var s := IntText(m) + k;
      assert s[0] == MINUS || IsDigit(s[0]);
    case String(str) =>
      StringRoundTrip(str, k);
      var s := Literal(str) + k;
      assert s[0] == QUOTE;
    case Array(items) =>
      ArrayRoundTrip(items, d, fmt, k);
    case Object(ms) =>
      if ms == [] {
        EmptyObject(d, fmt, k);
      } else {
        ObjectRoundTrip(ms, d, fmt, k);
      }
    case _ =>
      KeywordRoundTrip(t, k);
  }

  lemma {:induction false} KeywordRoundTrip(t: Json, k: text)
    requires t.Null? || t.False? || t.True?
    ensures ParseValue((if t.Null? then NULL else if t.False? then FALSE else TRUE) + k) == Ok(t, k)
  {
    var w := if t.Null? then NULL else if t.False? then FALSE else TRUE;
    assert (w + k)[0] == w[0];
    assert (w + k)[|w|..] == k;
  }

  lemma {:induction false} ArrayRoundTrip(items: seq<Json>, d: nat, fmt: bool, k: text)
    requires AllPrintable(items)
    ensures ParseValue([LBRACKET] + ItemsText(items, d + 1, fmt) + [RBRACKET] + k) == Ok(Array(items), k)
    decreases items, 1
  {
    var u := ItemsText(items, d + 1, fmt) + [RBRACKET] + k;
    Assoc4([LBRACKET], ItemsText(items, d + 1, fmt), [RBRACKET], k);
    if items == [] {
      assert u[1..] == k;
      EmptyBrackets(LBRACKET, u);
    } else {
      ItemsShape(items, d + 1, fmt, k);
      FirstCharacter(items[0], d + 1, fmt);
      ItemsRoundTrip(items, d + 1, fmt, k);
      assert Skip(u) == u && u[0] != RBRACKET;
      ArrayStep(u);
    }
  }

  lemma {:induction false} ArrayStep(u: text)
    requires Peek(Skip(u)) != RBRACKET
    ensures ParseValue([LBRACKET] + u) == Map(ParseItems(Skip(u)), items => Array(items))
  {
    var s := [LBRACKET] + u;
    assert s[0] == LBRACKET && s[1..] == u;
  }

  lemma {:induction false} ObjectStep(u: text)
    requires Peek(Skip(u)) != RBRACE
    ensures ParseValue([LBRACE] + u) == Map(ParseMembers(Skip(u)), ms => Object(ms))
  {
    var s := [LBRACE] + u;
    assert s[0] == LBRACE && s[1..] == u;
  }

  lemma {:induction false} EmptyBrackets(open: chr, u: text)
    ensures open == LBRACKET && Peek(Skip(u)) == RBRACKET ==>
              ParseValue([open] + u) == Ok(Array([]), Skip(u)[1..])
    ensures open == LBRACE && Peek(Skip(u)) == RBRACE ==>
              ParseValue([open] + u) == Ok(Object([]), Skip(u)[1..])
  {
    var s := [open] + u;
    assert s[0] == open && s[1..] == u;
  }

  lemma {:induction false} EmptyObject(d: nat, fmt: bool, k: text)
    ensures ParseValue([LBRACE] + If(fmt, [LF] + Tabs(d - 1)) + [RBRACE] + k) == Ok(Object([]), k)
  {
    var end := [RBRACE] + k;
    var u := If(fmt, [LF] + Tabs(d - 1)) + end;
    Assoc4([LBRACE], If(fmt, [LF] + Tabs(d - 1)), [RBRACE], k);
    SkipBlank(d - 1, end);
    if fmt {
      Assoc([LF], Tabs(d - 1), end);
      LeadingBlank([LF], Tabs(d - 1) + end);
    } else {
      assert u == end;
    }
    assert end[1..] == k;
    EmptyBrackets(LBRACE, u);
  }

  lemma {:induction false} ObjectRoundTrip(ms: seq<Member>, d: nat, fmt: bool, k: text)
    requires ms != [] && MembersPrintable(ms)
    ensures ParseValue([LBRACE] + If(fmt, [LF]) + MembersText(ms, d + 1, fmt) + If(fmt, Tabs(d)) + [RBRACE] + k)
         == Ok(Object(ms), k)
    decreases ms, 2
  {
    var m, c := MembersText(ms, d + 1, fmt), If(fmt, Tabs(d));
    ObjectShape(If(fmt, [LF]), m, c, k);
    MembersRoundTrip(ms, d + 1, fmt, d, k);
    ObjectBehind(fmt, m + c + [RBRACE] + k, ms, k);
  }

  lemma ObjectShape(lf: text, m: text, c: text, k: text)
    ensures [LBRACE] + lf + m + c + [RBRACE] + k == [LBRACE] + (lf + (m + c + [RBRACE] + k))
  {
    Assoc4([LBRACE], lf, m, c);
    Assoc4([LBRACE], lf + (m + c), [RBRACE], k);
    Assoc4(m, c, [RBRACE], k);
    Assoc4(lf, m + c, [RBRACE], k);
  }

  /** The members `v` behind the opening brace. */
  lemma {:induction false} ObjectBehind(fmt: bool, v: text, ms: seq<Member>, k: text)
    requires ParseMembers(v) == Ok(ms, k)
    ensures ParseValue([LBRACE] + (If(fmt, [LF]) + v)) == Ok(Object(ms), k)
  {
    LeadingBlank(If(fmt, [LF]), v);
    SkippedFirst(v);
    QuoteFirst(v);
    ObjectStep(If(fmt, [LF]) + v);
  }

  lemma {:induction false} QuoteFirst(s: text)
    requires ParseMembers(s).Ok?
    ensures Peek(Skip(s)) == QUOTE
  {
    assert NamedValue(Skip(s)).Ok?;
  }

  lemma {:induction false} ItemsRoundTrip(items: seq<Json>, d: nat, fmt: bool, k: text)
    requires items != [] && AllPrintable(items)
    ensures ParseItems(ItemsText(items, d, fmt) + [RBRACKET] + k) == Ok(items, k)
    decreases items, 0
  {
    if |items| == 1 {
      ValueRoundTrip(items[0], d, fmt, [RBRACKET] + k);
      OnlyItem(items, d, fmt, k);
    } else {
      var more := ItemsText(items[1..], d, fmt) + [RBRACKET] + k;
      var w := If(fmt, [SPACE]) + more;
      ValueRoundTrip(items[0], d, fmt, [COMMA] + w);
      ItemsRoundTrip(items[1..], d, fmt, k);
      FirstOfItems(items, d, fmt, k, more, w);
    }
  }

  lemma {:induction false} OnlyItem(items: seq<Json>, d: nat, fmt: bool, k: text)
    requires |items| == 1 && AllPrintable(items)
    requires ParseValue(ValueText(items[0], d, fmt) + ([RBRACKET] + k)) == Ok(items[0], [RBRACKET] + k)
    ensures ParseItems(ItemsText(items, d, fmt) + [RBRACKET] + k) == Ok(items, k)
  {
    var s := ItemsText(items, d, fmt) + [RBRACKET] + k;
    ItemsShape(items, d, fmt, k);
    NothingToSkip(items, d, fmt, k);
    LastItem(s, items[0], k);
    assert items == [items[0]];
  }

  lemma {:induction false} FirstOfItems(items: seq<Json>, d: nat, fmt: bool, k: text, more: text, w: text)
    requires |items| > 1 && AllPrintable(items) && more == ItemsText(items[1..], d, fmt) + [RBRACKET] + k
    requires w == If(fmt, [SPACE]) + more && ParseItems(more) == Ok(items[1..], k)
    requires ParseValue(ValueText(items[0], d, fmt) + ([COMMA] + w)) == Ok(items[0], [COMMA] + w)
    ensures ParseItems(ItemsText(items, d, fmt) + [RBRACKET] + k) == Ok(items, k)
  {
    ItemsShape(items, d, fmt, k);
    NothingToSkip(items, d, fmt, k);
    ItemsBehind(fmt, more, w);
    NextItem(ItemsText(items, d, fmt) + [RBRACKET] + k, items, w, k);
  }

  lemma ItemsBehind(fmt: bool, more: text, w: text)
    requires w == If(fmt, [SPACE]) + more
    ensures ParseItems(w) == ParseItems(more)
  {
    LeadingBlank(If(fmt, [SPACE]), more);
  }

  lemma {:induction false} NothingToSkip(items: seq<Json>, d: nat, fmt: bool, k: text)
    requires items != [] && AllPrintable(items)
    ensures var s := ItemsText(items, d, fmt) + [RBRACKET] + k; Skip(s) == s
  {
    ItemsShape(items, d, fmt, k);
    FirstCharacter(items[0], d, fmt);
  }

  lemma {:induction false} ItemsShape(items: seq<Json>, d: nat, fmt: bool, k: text)
    requires items != [] && AllPrintable(items)
    ensures ItemsText(items, d, fmt) + [RBRACKET] + k ==
            ValueText(items[0], d, fmt) +
            if |items| == 1 then [RBRACKET] + k
            else [COMMA] + (If(fmt, [SPACE]) + (ItemsText(items[1..], d, fmt) + [RBRACKET] + k))
  {
    if |items| > 1 {
      var b, c := If(fmt, [SPACE]), ItemsText(items[1..], d, fmt);
      Assoc4(ValueText(items[0], d, fmt), [COMMA] + b + c, [RBRACKET], k);
      Assoc4([COMMA] + b, c, [RBRACKET], k);
      Assoc([COMMA], b, c + [RBRACKET] + k);
    } else {
      Assoc(ValueText(items[0], d, fmt), [RBRACKET], k);
    }
  }

  lemma {:induction false} LastItem(s: text, v: Json, k: text)
    requires ParseSkipped(s) == Ok(v, [RBRACKET] + k)
    ensures ParseItems(s) == Ok([v], k)
  {
    assert ([RBRACKET] + k)[1..] == k;
  }

  lemma {:induction false} NextItem(s: text, items: seq<Json>, w: text, k: text)
    requires items != [] && ParseSkipped(s) == Ok(items[0], [COMMA] + w) && ParseItems(w) == Ok(items[1..], k)
    ensures ParseItems(s) == Ok(items, k)
  {
    assert ([COMMA] + w)[1..] == w;
    assert items == [items[0]] + items[1..];
  }

  /** The items and members parsers skip first, so leading blanks change nothing. */
  lemma {:induction false} LeadingBlank(b: text, w: text)
    requires b == [] || b == [SPACE] || b == [LF]
    ensures Skip(b + w) == Skip(w)
    ensures ParseItems(b + w) == ParseItems(w)
    ensures ParseMembers(b + w) == ParseMembers(w)
  {
    assert b != [] ==> (b + w)[1..] == w;
    assert b == [] ==> b + w == w;
    SkippedFirst(b + w);
    SkippedFirst(w);
  }

  lemma {:induction false} SkippedFirst(s: text)
    ensures ParseItems(Skip(s)) == ParseItems(s)
    ensures ParseMembers(Skip(s)) == ParseMembers(s)
  {
    var t := Skip(s);
    assert Skip(t) == t;
    assert ParseMember(t) == ParseMember(s);
  }

  lemma {:induction false} MemberRoundTrip(m: Member, more: bool, d: nat, fmt: bool, k: text)
    requires Printable(m.value) && Stops(EndText(more, fmt) + k)
    ensures ParseMember(MemberText(m, more, d, fmt) + k) == Ok(m, EndText(more, fmt) + k)
    decreases m, 0
  {
    var end := EndText(more, fmt) + k;
    var value := ValueText(m.value, d, fmt) + end;
    Assoc4(NameText(m.name, d, fmt), ValueText(m.value, d, fmt), EndText(more, fmt), k);
    NameRoundTrip(m.name, d, fmt, value);
    FirstCharacter(m.value, d, fmt);
    assert value[0] == ValueText(m.value, d, fmt)[0];
    SkipBlank(if fmt then 1 else 0, value);
    assert Tabs(0) == [] && Tabs(1) == [TAB];
    ValueRoundTrip(m.value, d, fmt, end);
    OneMember(MemberText(m, more, d, fmt) + k, m, If(fmt, [TAB]) + value, end);
  }

  lemma {:induction false} OneMember(s: text, m: Member, w: text, end: text)
    requires ParseString(Skip(s)) == Ok(m.name, [COLON] + w) && ParseSkipped(w) == Ok(m.value, end)
    ensures ParseMember(s) == Ok(m, end)
  {
    assert ([COLON] + w)[1..] == w;
  }

  lemma {:induction false} NameRoundTrip(name: text, d: nat, fmt: bool, k: text)
    ensures ParseString(Skip(NameText(name, d, fmt) + k)) == Ok(name, [COLON] + (If(fmt, [TAB]) + k))
  {
    var colon := [COLON] + If(fmt, [TAB]);
    var lit := Literal(name) + (colon + k);
    Assoc4(If(fmt, Tabs(d)), Literal(name), colon, k);
    assert lit[0] == QUOTE;
    SkipBlank(if fmt then d else 0, lit);
    StringRoundTrip(name, colon + k);
    Assoc([COLON], If(fmt, [TAB]), k);
  }

  lemma {:induction false} MembersRoundTrip(ms: seq<Member>, d: nat, fmt: bool, close: int, k: text)
    requires ms != [] && MembersPrintable(ms)
    ensures ParseMembers(MembersText(ms, d, fmt) + If(fmt, Tabs(close)) + [RBRACE] + k) == Ok(ms, k)
    decreases ms, 1
  {
    if |ms| == 1 {
      OnlyMember(ms[0], d, fmt, close, k);
      OneShape(ms, d, fmt, If(fmt, Tabs(close)), k);
      assert ms == [ms[0]];
    } else {
      var w := MembersText(ms[1..], d, fmt) + If(fmt, Tabs(close)) + [RBRACE] + k;
      MembersRoundTrip(ms[1..], d, fmt, close, k);
      FirstOfMore(ms[0], d, fmt, w, ms[1..], k);
      MoreShape(ms, d, fmt, If(fmt, Tabs(close)), k);
      assert ms == [ms[0]] + ms[1..];
    }
  }

  lemma {:induction false} OneShape(ms: seq<Member>, d: nat, fmt: bool, c: text, k: text)
    requires |ms| == 1 && MembersPrintable(ms)
    ensures MembersText(ms, d, fmt) + c + [RBRACE] + k == MemberText(ms[0], false, d, fmt) + (c + [RBRACE] + k)
  {
    var m := MemberText(ms[0], false, d, fmt);
    assert MembersText(ms, d, fmt) == m;
    Assoc4(m, c, [RBRACE], k);
  }

  lemma {:induction false} MoreShape(ms: seq<Member>, d: nat, fmt: bool, c: text, k: text)
    requires |ms| > 1 && MembersPrintable(ms)
    ensures MembersText(ms, d, fmt) + c + [RBRACE] + k ==
            MemberText(ms[0], true, d, fmt) + (MembersText(ms[1..], d, fmt) + c + [RBRACE] + k)
  {
    var m, r := MemberText(ms[0], true, d, fmt), MembersText(ms[1..], d, fmt);
    Assoc4(m, r, c, [RBRACE]);
    Assoc(m, r + c + [RBRACE], k);
  }

  lemma {:induction false} FirstOfMore(m: Member, d: nat, fmt: bool, w: text, ms: seq<Member>, k: text)
    requires Printable(m.value) && ParseMembers(w) == Ok(ms, k)
    ensures ParseMembers(MemberText(m, true, d, fmt) + w) == Ok([m] + ms, k)
    decreases m, 1
  {
    Assoc([COMMA], If(fmt, [LF]), w);
    MemberRoundTrip(m, true, d, fmt, w);
    LeadingBlank(If(fmt, [LF]), w);
    NextMember(MemberText(m, true, d, fmt) + w, m, If(fmt, [LF]) + w, ms, k);
  }

  lemma {:induction false} OnlyMember(m: Member, d: nat, fmt: bool, close: int, k: text)
    requires Printable(m.value)
    ensures ParseMembers(MemberText(m, false, d, fmt) + (If(fmt, Tabs(close)) + [RBRACE] + k)) == Ok([m], k)
    decreases m, 1
  {
    var closing := If(fmt, Tabs(close)) + [RBRACE] + k;
    ClosingBrace(fmt, close, k);
    assert EndText(false, fmt) == If(fmt, [LF]);
    MemberRoundTrip(m, false, d, fmt, closing);
    LastMember(MemberText(m, false, d, fmt) + closing, m, If(fmt, [LF]) + closing, k);
  }

  lemma {:induction false} ClosingBrace(fmt: bool, close: int, k: text)
    ensures Skip(If(fmt, [LF]) + (If(fmt, Tabs(close)) + [RBRACE] + k)) == [RBRACE] + k
    ensures Stops(If(fmt, [LF]) + (If(fmt, Tabs(close)) + [RBRACE] + k))
  {
    var closing := If(fmt, Tabs(close)) + [RBRACE] + k;
    Assoc(If(fmt, Tabs(close)), [RBRACE], k);
    SkipBlank(if fmt then close else 0, [RBRACE] + k);
    LeadingBlank(If(fmt, [LF]), closing);
  }

  lemma {:induction false} LastMember(s: text, m: Member, rest: text, k: text)
    requires ParseMember(s) == Ok(m, rest) && Skip(rest) == [RBRACE] + k
    ensures ParseMembers(s) == Ok([m], k)
  {
    assert ([RBRACE] + k)[1..] == k;
  }

  lemma {:induction false} NextMember(s: text, m: Member, w: text, ms: seq<Member>, k: text)
    requires ParseMember(s) == Ok(m, [COMMA] + w) && ParseMembers(w) == Ok(ms, k)
    ensures ParseMembers(s) == Ok([m] + ms, k)
  {
    assert ([COMMA] + w)[1..] == w;
  }

  /** cJSON_ParseWithOpts of cJSON_Print or cJSON_PrintUnformatted, with or without the NUL check. */
  lemma {:induction false} DocumentRoundTrip(t: Json, fmt: bool, requireNul: bool)
    requires Printable(t)
    ensures ParseDocument(ValueText(t, 0, fmt), requireNul) == Ok(t, [])
  {
    var s := ValueText(t, 0, fmt);
    FirstCharacter(t, 0, fmt);
    ValueRoundTrip(t, 0, fmt, []);
    assert s + [] == s;
  }

  /** Both layouts are injective, and no two trees share a text even across layouts. */
  lemma {:induction false} TextIsInjective(t: Json, u: Json, fmt: bool, fmu: bool)
    requires Printable(t) && Printable(u) && ValueText(t, 0, fmt) == ValueText(u, 0, fmu)
    ensures t == u
  {
    DocumentRoundTrip(t, fmt, true);
    DocumentRoundTrip(u, fmu, true);
  }
}
