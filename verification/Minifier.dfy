/** cJSON_Minify: what it keeps, what it makes of printed text, and the in-place loop. */
module Minifier {
  import opened Bytes
  import opened Literals
  import opened JsonText

  /** `Overrun` stands for running past the NUL, on an unterminated literal or block comment. */
  datatype Minified = Overrun | Kept(t: text)

  predicate IsBlank(c: chr) { c == SPACE || c == TAB || c == CR || c == LF }

  /** From the start of a line comment to the end of the line, which is kept for the next turn. */
  function SkipLine(s: text): (r: text)
    ensures |r| <= |s| && (s != [] && s[0] != LF ==> |r| < |s|)
  {
    if s == [] || s[0] == LF then s else SkipLine(s[1..])
  }

  /** Length of a block comment, from a slash or a later position inside it, or -1 when it never ends. */
  function CommentLength(s: text): (n: int)
    ensures -1 <= n <= |s| && n != 0
  {
    if s == [] then -1
    else if s[0] == STAR && Peek(s[1..]) == SLASH then 2
    else var n := CommentLength(s[1..]); if n < 0 then -1 else 1 + n
  }

  /** Length of the rest of a literal with its closing quote, or -1 when it never ends. */
  function InsideLength(s: text): (n: int)
    ensures -1 <= n <= |s| && n != 0
  {
    if s == [] then -1
    else if s[0] == QUOTE then 1
    else if s[0] != BACKSLASH then var n := InsideLength(s[1..]); if n < 0 then -1 else 1 + n
    else if |s| < 2 then -1
    else var n := InsideLength(s[2..]); if n < 0 then -1 else 2 + n
  }

  function Keep(t: text, m: Minified): Minified {
    match m
    case Overrun => Overrun
    case Kept(u) => Kept(t + u)
  }

  function Minify(s: text): Minified
    decreases |s|
  {
    if s == [] then Kept([])
    else if IsBlank(s[0]) then Minify(s[1..])
    else if s[0] == SLASH && Peek(s[1..]) == SLASH then Minify(SkipLine(s))
    else if s[0] == SLASH && Peek(s[1..]) == STAR then
      var n := CommentLength(s);
      if n < 0 then Overrun else Minify(s[n..])
    else if s[0] == QUOTE then
      var n := InsideLength(s[1..]);
      if n < 0 then Overrun else Keep(s[..1 + n], Minify(s[1 + n..]))
    else Keep([s[0]], Minify(s[1..]))
  }

  // ---------------------------------------------------------------- printed text

  /** `a` is minified to `b`, whatever follows it. */
  ghost predicate Shrinks(a: text, b: text) {
    forall k :: Minify(a + k) == Keep(b, Minify(k))
  }

  lemma {:induction false} Compose(a: text, b: text, c: text, d: text)
    requires Shrinks(a, b) && Shrinks(c, d)
    ensures Shrinks(a + c, b + d)
  {
    forall k ensures Minify(a + c + k) == Keep(b + d, Minify(k)) {
      Assoc(a, c, k);
      assert Minify(a + (c + k)) == Keep(b, Minify(c + k));
      if Minify(k).Kept? {
        Assoc(b, d, Minify(k).t);
      }
    }
  }

  lemma {:induction false} Nothing()
    ensures Shrinks([], [])
  {
    forall k ensures Minify([] + k) == Keep([], Minify(k)) {
      assert [] + k == k;
    }
  }

  lemma {:induction false} OneBlank(c: chr)
    requires IsBlank(c)
    ensures Shrinks([c], [])
  {
    forall k ensures Minify([c] + k) == Keep([], Minify(k)) {
      assert ([c] + k)[1..] == k;
    }
  }

  lemma {:induction false} Blanks(w: text)
    requires forall i :: 0 <= i < |w| ==> IsBlank(w[i])
    ensures Shrinks(w, [])
  {
    if w == [] {
      Nothing();
    } else {
      var rest := w[1..];
      Blanks(rest);
      OneBlank(w[0]);
      Compose([w[0]], [], rest, []);
      assert w == [w[0]] + rest;
      var none: text := [];
      assert none + none == none;
    }
  }

  lemma {:induction false} OnePlain(c: chr)
    requires !IsBlank(c) && c != SLASH && c != QUOTE
    ensures Shrinks([c], [c])
  {
    forall k ensures Minify([c] + k) == Keep([c], Minify(k)) {
      assert ([c] + k)[1..] == k;
    }
  }

  lemma {:induction false} Plain(w: text)
    requires forall i :: 0 <= i < |w| ==> !IsBlank(w[i]) && w[i] != SLASH && w[i] != QUOTE
    ensures Shrinks(w, w)
  {
    if w == [] {
      Nothing();
    } else {
      var rest := w[1..];
      Plain(rest);
      OnePlain(w[0]);
      Compose([w[0]], [w[0]], rest, rest);
      assert w == [w[0]] + rest;
    }
  }

  lemma {:induction false} Quoted(s: text)
    ensures Shrinks(Literal(s), Literal(s))
  {
    forall k ensures Minify(Literal(s) + k) == Keep(Literal(s), Minify(k)) {
      QuotedThen(Literal(s), Escaped(s) + [QUOTE], k);
      InsideEscaped(s, k);
    }
  }

  lemma {:induction false} QuotedThen(lit: text, body: text, k: text)
    requires lit == [QUOTE] + body
    ensures 0 < InsideLength(body + k) == |body| ==> Minify(lit + k) == Keep(lit, Minify(k))
  {
    var t := lit + k;
    assert t[0] == QUOTE && t[1..] == body + k;
    assert t[..1 + |body|] == lit && t[1 + |body|..] == k;
  }

  lemma {:induction false} InsideEscaped(s: text, k: text)
    ensures InsideLength(Escaped(s) + [QUOTE] + k) == |Escaped(s)| + 1
  {
    if s == [] {
      assert Escaped(s) + [QUOTE] + k == [QUOTE] + k;
    } else {
      InsideEscaped(s[1..], k);
      var rest := Escaped(s[1..]) + [QUOTE] + k;
      assert Escaped(s) + [QUOTE] + k == Escape(s[0]) + rest;
      InsideEscape(s[0], rest);
    }
  }

  lemma {:induction false} InsideEscape(c: chr, rest: text)
    requires InsideLength(rest) > 0
    ensures InsideLength(Escape(c) + rest) == |Escape(c)| + InsideLength(rest)
  {
    var e := Escape(c);
    if |e| == 1 {
      assert (e + rest)[1..] == rest;
    } else if |e| == 2 {
      assert (e + rest)[2..] == rest;
    } else {
      assert (e + rest)[2..] == e[2..] + rest;
      PlainInside(e[2..], rest);
    }
  }

  lemma {:induction false} PlainInside(w: text, k: text)
    requires forall i :: 0 <= i < |w| ==> IsPlain(w[i])
    requires InsideLength(k) > 0
    ensures InsideLength(w + k) == |w| + InsideLength(k)
  {
    if w == [] {
      assert w + k == k;
    } else {
      assert (w + k)[1..] == w[1..] + k;
      PlainInside(w[1..], k);
    }
  }

  lemma {:induction false} TabsAreBlank(n: int)
    ensures forall i :: 0 <= i < |Tabs(n)| ==> Tabs(n)[i] == TAB
  {
    if n > 0 {
      TabsAreBlank(n - 1);
    }
  }

  lemma {:induction false} DigitsArePlain(n: nat)
    ensures forall i :: 0 <= i < |Digits(n)| ==> ZERO <= Digits(n)[i] <= NINE
  {
    if n >= 10 {
      DigitsArePlain(n / 10);
    }
  }

  /** Layout alone disappears. */
  lemma {:induction false} Layout(fmt: bool, w: text)
    requires forall i :: 0 <= i < |w| ==> IsBlank(w[i])
    ensures Shrinks(If(fmt, w), If(false, w))
  {
    Blanks(If(fmt, w));
  }

  lemma {:induction false} Indent(fmt: bool, d: int)
    ensures Shrinks(If(fmt, Tabs(d)), [])
    ensures Shrinks(If(fmt, [LF] + Tabs(d)), [])
  {
    TabsAreBlank(d);
    Blanks(If(fmt, Tabs(d)));
    Blanks(If(fmt, [LF] + Tabs(d)));
  }

  /** The second law of the printers: minifying either layout gives the unformatted one. */
  lemma {:induction false} ValueShrinks(t: Json, d: nat, fmt: bool, e: nat)
    requires Printable(t)
    ensures Shrinks(ValueText(t, d, fmt), ValueText(t, e, false))
    decreases t, 1
  {
    match t
    case Number(m, _) =>
      DigitsArePlain(if m < 0 then -m else m);
      Plain(IntText(m));
    case String(str) =>
      Quoted(str);
    case Array(items) =>
      ItemsShrink(items, d + 1, fmt, e + 1);
      Bracketed(LBRACKET, ItemsText(items, d + 1, fmt), ItemsText(items, e + 1, false), RBRACKET);
    case Object(ms) =>
      if ms == [] {
        var a, b := If(fmt, [LF] + Tabs(d - 1)), If(false, [LF] + Tabs(e - 1));
        Indent(fmt, d - 1);
        Bracketed(LBRACE, a, b, RBRACE);
      } else {
        MembersShrink(ms, d + 1, fmt, e + 1);
        var a, b := MembersText(ms, d + 1, fmt), MembersText(ms, e + 1, false);
        Layout(fmt, [LF]);
        Indent(fmt, d);
        Compose(If(fmt, [LF]), [], a, b);
        Compose(If(fmt, [LF]) + a, [] + b, If(fmt, Tabs(d)), []);
        Bracketed(LBRACE, If(fmt, [LF]) + a + If(fmt, Tabs(d)), [] + b + [], RBRACE);
        Assoc4([LBRACE], If(fmt, [LF]), a, If(fmt, Tabs(d)));
        Assoc4([LBRACE], If(false, [LF]), b, If(false, Tabs(e)));
      }
    case _ =>
      Plain(ValueText(t, d, fmt));
  }

  lemma {:induction false} Bracketed(open: chr, a: text, b: text, close: chr)
    requires Shrinks(a, b)
    requires (open == LBRACKET && close == RBRACKET) || (open == LBRACE && close == RBRACE)
    ensures Shrinks([open] + a + [close], [open] + b + [close])
  {
    Plain([open]);
    Plain([close]);
    Compose([open], [open], a, b);
    Compose([open] + a, [open] + b, [close], [close]);
  }

  lemma {:induction false} ItemsShrink(items: seq<Json>, d: nat, fmt: bool, e: nat)
    requires AllPrintable(items)
    ensures Shrinks(ItemsText(items, d, fmt), ItemsText(items, e, false))
    decreases items, 0
  {
    if items == [] {
      Nothing();
    } else {
      var v, w := ValueText(items[0], d, fmt), ValueText(items[0], e, false);
      ValueShrinks(items[0], d, fmt, e);
      if |items| == 1 {
        Nothing();
        Compose(v, w, [], []);
      } else {
        var a, b := ItemsText(items[1..], d, fmt), ItemsText(items[1..], e, false);
        ItemsShrink(items[1..], d, fmt, e);
        Plain([COMMA]);
        Layout(fmt, [SPACE]);
        Compose([COMMA], [COMMA], If(fmt, [SPACE]), []);
        Compose([COMMA] + If(fmt, [SPACE]), [COMMA] + [], a, b);
        Compose(v, w, [COMMA] + If(fmt, [SPACE]) + a, [COMMA] + [] + b);
      }
    }
  }

  lemma {:induction false} MembersShrink(ms: seq<Member>, d: nat, fmt: bool, e: nat)
    requires MembersPrintable(ms)
    ensures Shrinks(MembersText(ms, d, fmt), MembersText(ms, e, false))
    decreases ms, 1
  {
    if ms == [] {
      Nothing();
    } else {
      MemberShrinks(ms[0], |ms| > 1, d, fmt, e);
      MembersShrink(ms[1..], d, fmt, e);
      Compose(MemberText(ms[0], |ms| > 1, d, fmt), MemberText(ms[0], |ms| > 1, e, false),
              MembersText(ms[1..], d, fmt), MembersText(ms[1..], e, false));
    }
  }

  lemma {:induction false} MemberShrinks(m: Member, more: bool, d: nat, fmt: bool, e: nat)
    requires Printable(m.value)
    ensures Shrinks(MemberText(m, more, d, fmt), MemberText(m, more, e, false))
    decreases m, 0
  {
    NameShrinks(m.name, d, fmt, e);
    ValueShrinks(m.value, d, fmt, e);
    EndShrinks(more, fmt);
    Compose(NameText(m.name, d, fmt), NameText(m.name, e, false),
            ValueText(m.value, d, fmt), ValueText(m.value, e, false));
    Compose(NameText(m.name, d, fmt) + ValueText(m.value, d, fmt),
            NameText(m.name, e, false) + ValueText(m.value, e, false),
            EndText(more, fmt), EndText(more, false));
  }

  lemma {:induction false} NameShrinks(name: text, d: nat, fmt: bool, e: nat)
    ensures Shrinks(NameText(name, d, fmt), NameText(name, e, false))
  {
    Indent(fmt, d);
    Quoted(name);
    Plain([COLON]);
    Layout(fmt, [TAB]);
    Compose(If(fmt, Tabs(d)), [], Literal(name), Literal(name));
    Compose([COLON], [COLON], If(fmt, [TAB]), []);
    Compose(If(fmt, Tabs(d)) + Literal(name), [] + Literal(name), [COLON] + If(fmt, [TAB]), [COLON] + []);
  }

  lemma {:induction false} EndShrinks(more: bool, fmt: bool)
    ensures Shrinks(EndText(more, fmt), EndText(more, false))
  {
    Plain(If(more, [COMMA]));
    Layout(fmt, [LF]);
    Compose(If(more, [COMMA]), If(more, [COMMA]), If(fmt, [LF]), []);
  }

  /** cJSON_Minify of cJSON_Print, and of cJSON_PrintUnformatted, is cJSON_PrintUnformatted. */
  lemma {:induction false} MinifyPrinted(t: Json, fmt: bool)
    requires Printable(t)
    ensures Minify(ValueText(t, 0, fmt)) == Kept(ValueText(t, 0, false))
  {
    ValueShrinks(t, 0, fmt, 0);
    var a, b := ValueText(t, 0, fmt), ValueText(t, 0, false);
    assert Minify(a + []) == Keep(b, Minify([]));
    assert a + [] == a && b + [] == b;
  }

  // ---------------------------------------------------------------- the loop

  /** The string from `i` on is still in the buffer it was loaded into. */
  ghost predicate Loaded(json: array<byte>, s: text, i: nat)
    reads json
  {
    i <= |s| < json.Length && json[|s|] == 0 && forall k :: i <= k < |s| ==> json[k] == s[k]
  }

  method SkipLineComment(json: array<byte>, at: nat, ghost s: text) returns (end: nat)
    requires Loaded(json, s, at)
    ensures at <= end <= |s| && s[end..] == SkipLine(s[at..])
  {
    end := at;
    while json[end] != 0 && json[end] != LF
      invariant at <= end <= |s| && SkipLine(s[at..]) == SkipLine(s[end..])
      decreases |s| - end
    {
      assert s[end..][1..] == s[end + 1..];
      end := end + 1;
    }
  }

  method SkipBlockComment(json: array<byte>, at: nat, ghost s: text) returns (end: nat)
    requires Loaded(json, s, at) && CommentLength(s[at..]) >= 0
    ensures end == at + CommentLength(s[at..])
  {
    end := at;
    while json[end] != 0 && !(json[end] == STAR && json[end + 1] == SLASH)
      invariant at <= end <= |s| && 0 <= CommentLength(s[end..])
      invariant CommentLength(s[at..]) == end - at + CommentLength(s[end..])
      decreases |s| - end
    {
      assert s[end..][1..] == s[end + 1..];
      end := end + 1;
    }
    assert json[end] == STAR ==> s[end..][1..] == s[end + 1..];
    end := end + 2;
  }

  /** The buffer holds `w` from `into` on, and elsewhere what it held when it was `was`. */
  ghost predicate Stored(json: array<byte>, was: seq<byte>, into: nat, w: text)
    reads json
  {
    |was| == json.Length && into + |w| <= |was|
    && (forall j :: into <= j < into + |w| ==> json[j] == w[j - into])
    && (forall j :: 0 <= j < into || into + |w| <= j < |was| ==> json[j] == was[j])
  }

  /** `*into++ = *json++` */
  method CopyOne(json: array<byte>, into: nat, at: nat, ghost was: seq<byte>, ghost from: nat, ghost w: text)
      returns (into': nat, at': nat)
    requires Stored(json, was, from, w) && into == from + |w| <= at < json.Length && json[at] != 0
    modifies json
    ensures into' == into + 1 && at' == at + 1
    ensures Stored(json, was, from, w + [old(json[at])])
  {
    json[into] := json[at];
    into', at' := into + 1, at + 1;
  }

  /** The literal whose characters are scanned from `i` on is closed by the quote before `end`. */
  predicate ClosesAt(s: text, i: nat, end: nat)
    requires i <= |s|
    decreases |s| - i
  {
    i < end <= |s| &&
    if s[i] == QUOTE then end == i + 1
    else if s[i] != BACKSLASH then ClosesAt(s, i + 1, end)
    else i + 2 <= |s| && ClosesAt(s, i + 2, end)
  }

  lemma {:induction false} ClosesLater(s: text, i: nat, end: nat)
    requires i <= |s| && ClosesAt(s, i, end)
    ensures i < |s| && (s[i] != QUOTE ==> NextChar(s, i) <= |s| && ClosesAt(s, NextChar(s, i), end))
  {
  }

  /** Behind the character at `i`, or the escape that begins there. */
  function NextChar(s: text, i: nat): nat
    requires i < |s|
  {
    i + if s[i] == BACKSLASH then 2 else 1
  }

  lemma {:induction false} InsideCloses(s: text, i: nat)
    requires i <= |s| && InsideLength(s[i..]) >= 0
    ensures ClosesAt(s, i, i + InsideLength(s[i..]))
    decreases |s| - i
  {
    var rest := s[i..];
    assert rest[0] == s[i];
    if s[i] != QUOTE {
      var n := if s[i] == BACKSLASH then 2 else 1;
      assert rest[n..] == s[i + n..];
      InsideCloses(s, i + n);
    }
  }

  /** `n` bytes of `was` have been moved from `at` down to `into`; elsewhere the buffer is as it was. */
  ghost predicate Moved(json: array<byte>, was: seq<byte>, into: nat, at: nat, n: nat)
    reads json
  {
    |was| == json.Length && into <= at && at + n <= |was|
    && (forall j :: into <= j < into + n ==> json[j] == was[j - into + at])
    && (forall j :: 0 <= j < into || into + n <= j < |was| ==> json[j] == was[j])
  }

  /** `*into++ = *json++` while a literal is being moved. */
  method MoveOne(json: array<byte>, ghost was: seq<byte>, ghost into: nat, ghost at: nat, into': nat, at': nat)
      returns (into'': nat, at'': nat)
    requires at <= at' < json.Length && into' == into + (at' - at) && Moved(json, was, into, at, at' - at)
    modifies json
    ensures into'' == into' + 1 && at'' == at' + 1 && Moved(json, was, into, at, at'' - at)
  {
    json[into'] := json[at'];
    into'', at'' := into' + 1, at' + 1;
  }

  /** One turn of the loop inside a literal: an escaped character is moved together with its backslash. */
  method MoveChar(json: array<byte>, ghost was: seq<byte>, ghost into: nat, ghost at: nat, into': nat, at': nat)
      returns (into'': nat, at'': nat)
    requires at <= at' < json.Length && into' == into + (at' - at) && Moved(json, was, into, at, at' - at)
    requires json[at'] == BACKSLASH ==> at' + 1 < json.Length
    modifies json
    ensures at'' == at' + if was[at'] == BACKSLASH then 2 else 1
    ensures into'' == into + (at'' - at) && Moved(json, was, into, at, at'' - at)
  {
    into'', at'' := into', at';
    if json[at''] == BACKSLASH {
      into'', at'' := MoveOne(json, was, into, at, into'', at'');
    }
    into'', at'' := MoveOne(json, was, into, at, into'', at'');
  }

  method CopyLiteral(json: array<byte>, into: nat, at: nat, ghost s: text, ghost end: nat)
      returns (into': nat, at': nat)
    requires into <= at < |s| && s[at] == QUOTE && ClosesAt(s, at + 1, end) && Loaded(json, s, at)
    modifies json
    ensures at' == end && into' == into + (end - at) && end <= |s|
    ensures Moved(json, old(json[..]), into, at, end - at)
  {
    ghost var was := json[..];
    into', at' := MoveOne(json, was, into, at, into, at);
    while json[at'] != 0 && json[at'] != QUOTE
      invariant at + 1 <= at' <= |s| && into' == into + (at' - at)
      invariant Moved(json, was, into, at, at' - at) && ClosesAt(s, at', end)
      decreases |s| - at'
    {
      ClosesLater(s, at', end);
      assert json[at'] == was[at'] == s[at'];
      ghost var next := NextChar(s, at');
      into', at' := MoveChar(json, was, into, at, into', at');
      assert at' == next;
    }
    into', at' := MoveOne(json, was, into, at, into', at');
  }

  lemma {:induction false} StoreMoved(json: array<byte>, was: seq<byte>, kept: text, now: seq<byte>, s: text, at: nat,
                                      n: nat)
    requires |kept| <= at && at + n <= |s| < json.Length == |was| == |now|
    requires forall j :: 0 <= j < |kept| ==> now[j] == kept[j]
    requires forall j :: |kept| <= j < |was| ==> now[j] == was[j]
    requires forall j :: at <= j < |s| ==> was[j] == s[j]
    requires Moved(json, now, |kept|, at, n)
    ensures Stored(json, was, 0, kept + s[at..at + n])
  {
  }

  method KeepLiteral(json: array<byte>, into: nat, at: nat, ghost s: text, ghost end: nat, ghost was: seq<byte>,
                     ghost kept: text)
      returns (into': nat, at': nat)
    requires into == |kept| <= at < |s| < json.Length && s[at] == QUOTE && ClosesAt(s, at + 1, end)
    requires Stored(json, was, 0, kept) && was[|s|] == 0 && forall k :: at <= k < |s| ==> was[k] == s[k]
    modifies json
    ensures at' == end <= |s| && into' == into + (end - at) && Stored(json, was, 0, kept + s[at..end])
  {
    ghost var now := json[..];
    into', at' := CopyLiteral(json, into, at, s, end);
    StoreMoved(json, was, kept, now, s, at, end - at);
  }

  /** One turn of the loop of cJSON_Minify. */
  method MinifyTurn(json: array<byte>, into: nat, at: nat, ghost s: text, ghost was: seq<byte>,
                    ghost all: text, ghost kept: text)
      returns (into': nat, at': nat, ghost kept': text)
    requires Turn(json, s, was, all, kept, at) && into == |kept| && json[at] != 0
    modifies json
    ensures Turn(json, s, was, all, kept', at') && into' == |kept'| && at' > at
  {
    into', at', kept' := into, at, kept;
    if json[at] == SPACE || json[at] == TAB || json[at] == CR || json[at] == LF {
      at' := at + 1;
      BlankStep(s, all, kept, at);
    } else if json[at] == SLASH && json[at + 1] == SLASH {
      at' := SkipLineComment(json, at, s);
      LineStep(s, all, kept, at, at');
    } else if json[at] == SLASH && json[at + 1] == STAR {
      at' := CommentTurn(json, at, s, was, all, kept);
    } else if json[at] == QUOTE {
      into', at', kept' := LiteralTurn(json, into, at, s, was, all, kept);
    } else {
      into', at', kept' := OtherTurn(json, into, at, s, was, all, kept);
    }
  }

  method CommentTurn(json: array<byte>, at: nat, ghost s: text, ghost was: seq<byte>, ghost all: text, ghost kept: text)
      returns (at': nat)
    requires Turn(json, s, was, all, kept, at) && json[at] == SLASH && json[at + 1] == STAR
    ensures Turn(json, s, was, all, kept, at') && at' > at
  {
    CommentStep(s, all, kept, at);
    at' := SkipBlockComment(json, at, s);
  }

  method OtherTurn(json: array<byte>, into: nat, at: nat, ghost s: text, ghost was: seq<byte>,
                   ghost all: text, ghost kept: text)
      returns (into': nat, at': nat, ghost kept': text)
    requires Turn(json, s, was, all, kept, at) && into == |kept| && json[at] != 0 && !IsBlank(json[at])
             && json[at] != QUOTE
    requires json[at] == SLASH ==> json[at + 1] != SLASH && json[at + 1] != STAR
    modifies json
    ensures Turn(json, s, was, all, kept', at') && into' == |kept'| && at' > at
  {
    OtherStep(s, all, kept, at);
    into', at' := CopyOne(json, into, at, was, 0, kept);
    kept' := kept + [s[at]];
  }

  method LiteralTurn(json: array<byte>, into: nat, at: nat, ghost s: text, ghost was: seq<byte>,
                     ghost all: text, ghost kept: text)
      returns (into': nat, at': nat, ghost kept': text)
    requires Turn(json, s, was, all, kept, at) && into == |kept| && json[at] == QUOTE
    modifies json
    ensures Turn(json, s, was, all, kept', at') && into' == |kept'| && at' > at
  {
    ghost var end := LiteralStep(s, all, kept, at);
    into', at' := KeepLiteral(json, into, at, s, end, was, kept);
    kept' := kept + s[at..end];
  }

  /** Between two turns: what was kept is in front, the rest of the buffer is untouched. */
  ghost predicate Turn(json: array<byte>, s: text, was: seq<byte>, all: text, kept: text, at: nat)
    reads json
  {
    |kept| <= at <= |s| < |was| && was[|s|] == 0 && (forall k :: 0 <= k < |s| ==> was[k] == s[k])
    && Stored(json, was, 0, kept) && Progress(s, all, kept, at)
  }

  /** cJSON_Minify works in place: `into` writes at or behind `at`, which reads. */
  method MinifyInPlace(json: array<byte>, ghost s: text) returns (into: nat)
    requires Loaded(json, s, 0) && Minify(s).Kept?
    modifies json
    ensures into <= |s| && Holds(json, 0, Minify(s).t) && into == |Minify(s).t|
    ensures json[into + 1..] == old(json[into + 1..])
  {
    into := 0;
    var at := 0;
    ghost var was, kept: text, all := json[..], [], Minify(s).t;
    assert s[0..] == s;
    while json[at] != 0
      invariant into == |kept| && Turn(json, s, was, all, kept, at)
      decreases |s| - at
    {
      into, at, kept := MinifyTurn(json, into, at, s, was, all, kept);
    }
    NothingLeft(s, all, kept, at);
    json[into] := 0;
  }

  /** What has been kept so far, followed by what the rest is minified to, is the whole result. */
  ghost predicate Progress(s: text, all: text, kept: text, at: nat) {
    at <= |s| && Keep(kept, Minify(s[at..])) == Kept(all)
  }

  lemma {:induction false} BlankStep(s: text, all: text, kept: text, at: nat)
    requires Progress(s, all, kept, at) && at < |s| && IsBlank(s[at])
    ensures Progress(s, all, kept, at + 1)
  {
    assert s[at..][1..] == s[at + 1..];
  }

  lemma {:induction false} LineStep(s: text, all: text, kept: text, at: nat, end: nat)
    requires Progress(s, all, kept, at) && at < |s| && s[at] == SLASH && At(s, at + 1) == SLASH
    requires end <= |s| && s[end..] == SkipLine(s[at..])
    ensures Progress(s, all, kept, end) && end > at
  {
    assert s[at..][1..] == s[at + 1..];
  }

  lemma {:induction false} CommentStep(s: text, all: text, kept: text, at: nat)
    requires Progress(s, all, kept, at) && at < |s| && s[at] == SLASH && At(s, at + 1) == STAR
    ensures CommentLength(s[at..]) > 0 && Progress(s, all, kept, at + CommentLength(s[at..]))
  {
    var rest := s[at..];
    assert rest[1..] == s[at + 1..];
    assert CommentLength(rest) >= 0;
    assert rest[CommentLength(rest)..] == s[at + CommentLength(rest)..];
  }

  lemma {:induction false} LiteralStep(s: text, all: text, kept: text, at: nat) returns (end: nat)
    requires Progress(s, all, kept, at) && at < |s| && s[at] == QUOTE
    ensures ClosesAt(s, at + 1, end) && at < end <= |s| && Progress(s, all, kept + s[at..end], end)
  {
    var rest := s[at..];
    assert rest[1..] == s[at + 1..];
    var n := 1 + InsideLength(rest[1..]);
    assert n >= 1;
    end := at + n;
    InsideCloses(s, at + 1);
    assert rest[..n] == s[at..end] && rest[n..] == s[end..];
    KeptTwice(kept, s[at..end], Minify(s[end..]));
  }

  lemma {:induction false} OtherStep(s: text, all: text, kept: text, at: nat)
    requires Progress(s, all, kept, at) && at < |s| && !IsBlank(s[at]) && s[at] != QUOTE
    requires s[at] == SLASH ==> At(s, at + 1) != SLASH && At(s, at + 1) != STAR
    ensures Progress(s, all, kept + [s[at]], at + 1)
  {
    assert s[at..][1..] == s[at + 1..];
    KeptTwice(kept, [s[at]], Minify(s[at + 1..]));
  }

  lemma {:induction false} NothingLeft(s: text, all: text, kept: text, at: nat)
    requires Progress(s, all, kept, at) && at == |s|
    ensures kept == all
  {
  }

  lemma {:induction false} KeptTwice(a: text, b: text, m: Minified)
    requires m.Kept?
    ensures Keep(a, Keep(b, m)) == Keep(a + b, m)
  {
    Assoc(a, b, m.t);
  }
}
