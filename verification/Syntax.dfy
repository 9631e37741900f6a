/** The texts that the parser accepts, written out as a grammar of their own. */
module Syntax {
  import opened Bytes
  import opened Literals
  import opened JsonText
  import opened JsonGrammar
  import opened RoundTrip
  import opened Escapes
  import opened Numerals

  /** White space: every character up to and including the blank. */
  ghost predicate IsSpace(w: text) {
    forall i :: 0 <= i < |w| ==> w[i] <= ' ' as int
  }

  /** A value as it is written. */
  datatype Form =
    | NullForm
    | FalseForm
    | TrueForm
    | NumberForm(x: Numeral)
    | StringForm(xs: seq<Unit>, closed: bool)
    | ArrayForm(inside: text, slots: seq<Slot>)    // `inside` is the white space of an array without items
    | ObjectForm(inside: text, fields: seq<Field>)

  /** An item with the white space around it. */
  datatype Slot = Slot(before: text, form: Form, after: text)

  /** A member with the white space around its name and around its value. */
  datatype Field = Field(front: text, name: seq<Unit>, back: text, slot: Slot)

  ghost predicate IsForm(f: Form)
    decreases f
  {
    match f
    case NumberForm(x) => IsNumeral(x)
    case StringForm(xs, _) => AreUnits(xs)
    case ArrayForm(inside, slots) => IsSpace(inside) && AreSlots(slots)
    case ObjectForm(inside, fields) => IsSpace(inside) && AreFields(fields)
    case _ => true
  }

  /** Inside an array or object every string has its closing quote. */
  ghost predicate IsSlot(x: Slot)
    decreases x
  {
    IsSpace(x.before) && IsSpace(x.after) && IsForm(x.form) && (x.form.StringForm? ==> x.form.closed)
  }

  ghost predicate AreSlots(xs: seq<Slot>)
    decreases xs
  {
    xs == [] || (IsSlot(xs[0]) && AreSlots(xs[1..]))
  }

  ghost predicate AreFields(xs: seq<Field>)
    decreases xs
  {
    xs == [] || (IsField(xs[0]) && AreFields(xs[1..]))
  }

  ghost predicate IsField(x: Field)
    decreases x
  {
    IsSpace(x.front) && AreUnits(x.name) && IsSpace(x.back) && IsSlot(x.slot)
  }

  function QuotedText(xs: seq<Unit>, closed: bool): text
    requires AreUnits(xs)
  {
    ['"' as int] + (UnitsText(xs) + If(closed, ['"' as int]))
  }

  ghost function FormText(f: Form): (t: text)
    requires IsForm(f)
    ensures t != [] && t[0] > ' ' as int && t[0] != ']' as int && t[0] != '}' as int
    decreases f
  {
    match f
    case NullForm => ['n' as int, 'u' as int, 'l' as int, 'l' as int]
    case FalseForm => ['f' as int, 'a' as int, 'l' as int, 's' as int, 'e' as int]
    case TrueForm => ['t' as int, 'r' as int, 'u' as int, 'e' as int]
    case NumberForm(x) => NumeralShape(x, []); assert NumeralText(x) + [] == NumeralText(x); NumeralText(x)
    case StringForm(xs, closed) => QuotedText(xs, closed)
    case ArrayForm(inside, slots) => ['[' as int] + ((if slots == [] then inside else SlotsText(slots)) + [']' as int])
    case ObjectForm(inside, fields) =>
      ['{' as int] + ((if fields == [] then inside else FieldsText(fields)) + ['}' as int])
  }

  ghost function SlotText(x: Slot): text
    requires IsSlot(x)
    decreases x
  {
    x.before + (FormText(x.form) + x.after)
  }

  ghost function SlotsText(xs: seq<Slot>): text
    requires AreSlots(xs)
    decreases xs
  {
    if xs == [] then [] else SlotText(xs[0]) + (If(|xs| > 1, [',' as int]) + SlotsText(xs[1..]))
  }

  ghost function FieldsText(xs: seq<Field>): text
    requires AreFields(xs)
    decreases xs
  {
    if xs == [] then [] else FieldText(xs[0]) + (If(|xs| > 1, [',' as int]) + FieldsText(xs[1..]))
  }

  ghost function FieldText(x: Field): text
    requires IsField(x)
    decreases x
  {
    x.front + (QuotedText(x.name, true) + (x.back + ([':' as int] + SlotText(x.slot))))
  }

  ghost function FormValue(f: Form): Json
    requires IsForm(f)
    decreases f
  {
    match f
    case NullForm => Null
    case FalseForm => False
    case TrueForm => True
    case NumberForm(x) => NumeralValue(x)
    case StringForm(xs, _) => String(Meaning(xs))
    case ArrayForm(_, slots) => Array(SlotValues(slots))
    case ObjectForm(_, fields) => Object(FieldValues(fields))
  }

  ghost function SlotValue(x: Slot): Json
    requires IsSlot(x)
    decreases x
  {
    FormValue(x.form)
  }

  ghost function SlotValues(xs: seq<Slot>): (vs: seq<Json>)
    requires AreSlots(xs)
    ensures |vs| == |xs|
    decreases xs
  {
    if xs == [] then [] else [SlotValue(xs[0])] + SlotValues(xs[1..])
  }

  ghost function FieldValue(x: Field): Member
    requires IsField(x)
    decreases x
  {
    Member(Meaning(x.name), SlotValue(x.slot))
  }

  ghost function FieldValues(xs: seq<Field>): (ms: seq<Member>)
    requires AreFields(xs)
    ensures |ms| == |xs|
    decreases xs
  {
    if xs == [] then [] else [FieldValue(xs[0])] + FieldValues(xs[1..])
  }

  /** What can stand behind a value: a number does not go on, and a string without its closing quote ends with the
      text. */
  ghost predicate Follows(f: Form, k: text) {
    match f
    case NumberForm(x) => Numerals.Stops(x, k)
    case StringForm(_, closed) => !closed ==> k == []
    case _ => true
  }

  // ---------------------------------------------------------------- every such text is accepted

  lemma {:induction false} SpaceSkipped(w: text, k: text)
    requires IsSpace(w)
    ensures Skip(w + k) == Skip(k)
  {
    if w == [] {
      assert w + k == k;
    } else {
      assert (w + k)[1..] == w[1..] + k;
      SpaceSkipped(w[1..], k);
    }
  }

  lemma {:induction false} StringParses(xs: seq<Unit>, closed: bool, k: text)
    requires AreUnits(xs) && (!closed ==> k == [])
    ensures ParseString(QuotedText(xs, closed) + k) == Ok(Meaning(xs), k)
  {
    var q := If(closed, ['"' as int]) + k;
    LiteralMeans(xs, q);
    QuotedShape(xs, closed, k);
    StringIs(UnitsText(xs) + q);
    BehindQuote(UnitsText(xs), closed, k);
  }

  lemma QuotedShape(xs: seq<Unit>, closed: bool, k: text)
    requires AreUnits(xs)
    ensures QuotedText(xs, closed) + k == [QUOTE] + (UnitsText(xs) + (If(closed, ['"' as int]) + k))
  {
    Assoc([QUOTE], UnitsText(xs) + If(closed, ['"' as int]), k);
    Assoc(UnitsText(xs), If(closed, ['"' as int]), k);
  }

  lemma BehindQuote(a: text, closed: bool, k: text)
    requires !closed ==> k == []
    ensures var q := If(closed, ['"' as int]) + k;
            (q == [] <==> !closed) && (a + q)[|a| + (if closed then 1 else 0)..] == k
  {
  }

  lemma StringIs(x: text)
    requires WellEscaped(x)
    ensures ParseString([QUOTE] + x) == Ok(Decoded(x), x[LiteralLength(x)..])
  {
    var s := [QUOTE] + x;
    assert s[1..] == x;
    assert s[1 + LiteralLength(x)..] == x[LiteralLength(x)..];
  }

  /** What follows a value inside an array or object. */
  lemma {:induction false} SlotFollows(x: Slot, k: text)
    requires IsSlot(x) && (Peek(k) == COMMA || Peek(k) == RBRACKET || Peek(k) == RBRACE)
    ensures Follows(x.form, x.after + k) && Skip(x.after + k) == k
  {
    SpaceSkipped(x.after, k);
    assert x.after == [] ==> x.after + k == k;
    assert x.after != [] ==> (x.after + k)[0] == x.after[0];
  }

  /** A value in its place: white space, the value, white space and what separates it from the next one. */
  lemma {:induction false} SlotParses(x: Slot, k: text)
    requires IsSlot(x) && (Peek(k) == COMMA || Peek(k) == RBRACKET || Peek(k) == RBRACE)
    ensures ParseSkipped(SlotText(x) + k) == Ok(SlotValue(x), x.after + k) && Skip(x.after + k) == k
    decreases x
  {
    SlotFollows(x, k);
    FormParses(x.form, x.after + k);
    SlotIs(x, k);
    SpaceBefore(x, k);
  }

  lemma SlotIs(x: Slot, k: text)
    requires IsSlot(x)
    ensures SlotText(x) + k == x.before + (FormText(x.form) + (x.after + k))
  {
    Assoc(x.before, FormText(x.form) + x.after, k);
    Assoc(FormText(x.form), x.after, k);
  }

  lemma {:induction false} SpaceBefore(x: Slot, k: text)
    requires IsSlot(x)
    ensures var u := FormText(x.form) + (x.after + k); Skip(x.before + u) == u && u[0] == FormText(x.form)[0]
  {
    var u := FormText(x.form) + (x.after + k);
    assert u[0] == FormText(x.form)[0];
    SpaceSkipped(x.before, u);
  }

  /** Every form is read as its value, and what follows it is left. */
  lemma {:induction false} FormParses(f: Form, k: text)
    requires IsForm(f) && Follows(f, k)
    ensures ParseValue(FormText(f) + k) == Ok(FormValue(f), k)
    decreases f
  {
    match f
    case NumberForm(x) => NumberParses(x, k);
    case StringForm(xs, closed) => StringParses(xs, closed, k);
    case ArrayForm(inside, slots) => ArrayParses(inside, slots, k);
    case ObjectForm(inside, fields) => ObjectParses(inside, fields, k);
    case _ => WordParses(f, k);
  }

  lemma {:induction false} WordParses(f: Form, k: text)
    requires f.NullForm? || f.FalseForm? || f.TrueForm?
    ensures ParseValue(FormText(f) + k) == Ok(FormValue(f), k)
  {
    var s := FormText(f) + k;
    assert FormText(f) <= s && s[|FormText(f)|..] == k;
  }

  lemma {:induction false} NumberParses(x: Numeral, k: text)
    requires IsNumeral(x) && Numerals.Stops(x, k)
    ensures ParseValue(FormText(NumberForm(x)) + k) == Ok(NumeralValue(x), k)
  {
    NumeralIsRead(x, k);
  }

  lemma {:induction false} ArrayParses(inside: text, slots: seq<Slot>, k: text)
    requires IsSpace(inside) && AreSlots(slots)
    ensures ParseValue(FormText(ArrayForm(inside, slots)) + k) == Ok(Array(SlotValues(slots)), k)
    decreases slots, 1
  {
    var u := (if slots == [] then inside else SlotsText(slots)) + ([RBRACKET] + k);
    assert FormText(ArrayForm(inside, slots)) + k == [LBRACKET] + u;
    assert ([RBRACKET] + k)[1..] == k;
    if slots == [] {
      SpaceSkipped(inside, [RBRACKET] + k);
      EmptyBrackets(LBRACKET, u);
    } else {
      SlotsParse(slots, k);
      SlotsStart(slots, [RBRACKET] + k);
      ArrayStep(u);
      SkippedFirst(u);
    }
  }

  lemma {:induction false} SlotsStart(xs: seq<Slot>, k: text)
    requires AreSlots(xs) && xs != []
    ensures Peek(Skip(SlotsText(xs) + k)) != RBRACKET
  {
    var v := if |xs| > 1 then [COMMA] + (SlotsText(xs[1..]) + k) else k;
    SlotsShape(xs, k);
    SlotIs(xs[0], v);
    SpaceBefore(xs[0], v);
  }

  lemma SlotsShape(xs: seq<Slot>, end: text)
    requires AreSlots(xs) && xs != []
    ensures SlotsText(xs) + end
         == SlotText(xs[0]) + if |xs| > 1 then [COMMA] + (SlotsText(xs[1..]) + end) else end
  {
    var more := If(|xs| > 1, [',' as int]);
    Assoc(SlotText(xs[0]), more + SlotsText(xs[1..]), end);
    Assoc(more, SlotsText(xs[1..]), end);
    assert |xs| == 1 ==> more + SlotsText(xs[1..]) + end == end;
  }

  lemma FieldsShape(xs: seq<Field>, end: text)
    requires AreFields(xs) && xs != []
    ensures FieldsText(xs) + end
         == FieldText(xs[0]) + if |xs| > 1 then [COMMA] + (FieldsText(xs[1..]) + end) else end
  {
    var more := If(|xs| > 1, [',' as int]);
    Assoc(FieldText(xs[0]), more + FieldsText(xs[1..]), end);
    Assoc(more, FieldsText(xs[1..]), end);
    assert |xs| == 1 ==> more + FieldsText(xs[1..]) + end == end;
  }

  /** One item and the rest. */
  lemma {:induction false} ItemsStep(s: text, vs: seq<Json>, v: text, k: text)
    requires vs != [] && ParseSkipped(s).Ok? && ParseSkipped(s).value == vs[0] && Skip(ParseSkipped(s).rest) == v
    requires if |vs| == 1 then v == [RBRACKET] + k
             else v != [] && v[0] == COMMA && ParseItems(v[1..]) == Ok(vs[1..], k)
    ensures ParseItems(s) == Ok(vs, k)
  {
    assert |vs| == 1 ==> vs == [vs[0]];
    assert vs == [vs[0]] + vs[1..];
  }

  lemma {:induction false} MembersStep(s: text, ms: seq<Member>, v: text, k: text)
    requires ms != [] && ParseMember(s).Ok? && ParseMember(s).value == ms[0] && Skip(ParseMember(s).rest) == v
    requires if |ms| == 1 then v == [RBRACE] + k
             else v != [] && v[0] == COMMA && ParseMembers(v[1..]) == Ok(ms[1..], k)
    ensures ParseMembers(s) == Ok(ms, k)
  {
    assert |ms| == 1 ==> ms == [ms[0]];
    assert ms == [ms[0]] + ms[1..];
  }

  lemma {:induction false} SlotsParse(xs: seq<Slot>, k: text)
    requires AreSlots(xs) && xs != []
    ensures ParseItems(SlotsText(xs) + ([RBRACKET] + k)) == Ok(SlotValues(xs), k)
    decreases xs, 0
  {
    var end := [RBRACKET] + k;
    var rest := SlotsText(xs[1..]) + end;
    var v := if |xs| > 1 then [COMMA] + rest else end;
    SlotsShape(xs, end);
    SlotParses(xs[0], v);
    if |xs| > 1 {
      SlotsParse(xs[1..], k);
    }
    ItemsStep(SlotText(xs[0]) + v, SlotValues(xs), v, k);
  }

  lemma {:induction false} ObjectParses(inside: text, fields: seq<Field>, k: text)
    requires IsSpace(inside) && AreFields(fields)
    ensures ParseValue(FormText(ObjectForm(inside, fields)) + k) == Ok(Object(FieldValues(fields)), k)
    decreases fields, 1
  {
    var u := (if fields == [] then inside else FieldsText(fields)) + ([RBRACE] + k);
    assert FormText(ObjectForm(inside, fields)) + k == [LBRACE] + u;
    assert ([RBRACE] + k)[1..] == k;
    if fields == [] {
      SpaceSkipped(inside, [RBRACE] + k);
      EmptyBrackets(LBRACE, u);
    } else {
      FieldsParse(fields, k);
      QuoteFirst(u);
      ObjectStep(u);
      SkippedFirst(u);
    }
  }

  lemma FieldIs(x: Field, k: text)
    requires IsField(x)
    ensures FieldText(x) + k
         == x.front + (QuotedText(x.name, true) + (x.back + ([COLON] + (SlotText(x.slot) + k))))
  {
    Assoc([COLON], SlotText(x.slot), k);
    Assoc(x.back, [COLON] + SlotText(x.slot), k);
    Assoc(QuotedText(x.name, true), x.back + ([COLON] + SlotText(x.slot)), k);
    Assoc(x.front, QuotedText(x.name, true) + (x.back + ([COLON] + SlotText(x.slot))), k);
  }

  lemma {:induction false} FieldParses(x: Field, k: text)
    requires IsField(x) && (Peek(k) == COMMA || Peek(k) == RBRACE)
    ensures ParseMember(FieldText(x) + k) == Ok(FieldValue(x), x.slot.after + k) && Skip(x.slot.after + k) == k
    decreases x
  {
    var w := SlotText(x.slot) + k;
    var v := x.back + ([COLON] + w);
    var u := QuotedText(x.name, true) + v;
    FieldIs(x, k);
    SpaceSkipped(x.front, u);
    assert Skip(u) == u;
    StringParses(x.name, true, v);
    SpaceSkipped(x.back, [COLON] + w);
    assert ([COLON] + w)[1..] == w;
    SlotParses(x.slot, k);
    assert ParseMember(FieldText(x) + k) == NamedValue(u);
  }

  lemma {:induction false} FieldsParse(xs: seq<Field>, k: text)
    requires AreFields(xs) && xs != []
    ensures ParseMembers(FieldsText(xs) + ([RBRACE] + k)) == Ok(FieldValues(xs), k)
    decreases xs, 0
  {
    var end := [RBRACE] + k;
    var rest := FieldsText(xs[1..]) + end;
    var v := if |xs| > 1 then [COMMA] + rest else end;
    FieldsShape(xs, end);
    FieldParses(xs[0], v);
    if |xs| > 1 {
      FieldsParse(xs[1..], k);
    }
    MembersStep(FieldText(xs[0]) + v, FieldValues(xs), v, k);
  }

  // ---------------------------------------------------------------- nothing else is accepted

  lemma {:induction false} SpaceOf(s: text) returns (w: text)
    ensures IsSpace(w) && s == w + Skip(s)
  {
    if s != [] && s[0] <= SPACE {
      w := SpaceOf(s[1..]);
      w := [s[0]] + w;
    } else {
      w := [];
    }
  }

  lemma {:induction false} QuotedOf(s: text) returns (xs: seq<Unit>, closed: bool)
    requires ParseString(s).Ok?
    ensures AreUnits(xs) && s == QuotedText(xs, closed) + ParseString(s).rest && (!closed ==> ParseString(s).rest == [])
  {
    var k;
    xs, k := LiteralSplit(s[1..]);
    closed := k != [];
    var rest := if closed then k[1..] else [];
    assert k == If(closed, ['"' as int]) + rest;
    assert s == [QUOTE] + s[1..];
    QuotedShape(xs, closed, rest);
    StringParses(xs, closed, rest);
  }

  /** Every value that is read is one of the forms. */
  lemma {:induction false} FormOf(s: text) returns (f: Form)
    requires ParseValue(s).Ok?
    ensures IsForm(f) && Follows(f, ParseValue(s).rest) && s == FormText(f) + ParseValue(s).rest
    decreases |s|, 1
  {
    if NULL <= s {
      f := NullForm;
    } else if FALSE <= s {
      f := FalseForm;
    } else if TRUE <= s {
      f := TrueForm;
    } else if s[0] == QUOTE {
      var xs, closed := QuotedOf(s);
      f := StringForm(xs, closed);
    } else if s[0] == MINUS || IsDigit(s[0]) {
      f := NumberOf(s);
    } else if s[0] == LBRACKET {
      f := ArrayOf(s);
    } else {
      f := ObjectOf(s);
    }
  }

  lemma {:induction false} NumberOf(s: text) returns (f: Form)
    requires Peek(s) == MINUS || IsDigit(Peek(s))
    ensures f.NumberForm? && IsForm(f) && Follows(f, ParseNumber(s).rest) && s == FormText(f) + ParseNumber(s).rest
  {
    var x, k := NumeralOf(s);
    NumeralIsRead(x, k);
    f := NumberForm(x);
  }

  lemma Enclosed(open: chr, body: text, close: chr, rest: text)
    ensures [open] + (body + [close]) + rest == [open] + (body + ([close] + rest))
  {
    Assoc([open], body + [close], rest);
    Assoc(body, [close], rest);
  }

  lemma FirstAndRest(t: text, rest: text)
    requires t != [] && t[1..] == rest
    ensures t == [t[0]] + rest
  {
  }

  lemma {:induction false} ArrayOf(s: text) returns (f: Form)
    requires Peek(s) == LBRACKET && ParseValue(s).Ok?
    ensures f.ArrayForm? && IsForm(f) && s == FormText(f) + ParseValue(s).rest
    decreases |s|, 0
  {
    var u := s[1..];
    var rest := ParseValue(s).rest;
    assert s == [LBRACKET] + u;
    if Peek(Skip(u)) == RBRACKET {
      EmptyBrackets(LBRACKET, u);
      var w := SpaceOf(u);
      f := ArrayForm(w, []);
      FirstAndRest(Skip(u), rest);
      Enclosed(LBRACKET, w, RBRACKET, rest);
    } else {
      ArrayStep(u);
      SkippedFirst(u);
      var xs := SlotsOf(u);
      f := ArrayForm([], xs);
      Enclosed(LBRACKET, SlotsText(xs), RBRACKET, rest);
    }
  }

  lemma {:induction false} ObjectOf(s: text) returns (f: Form)
    requires Peek(s) == LBRACE && ParseValue(s).Ok?
    ensures f.ObjectForm? && IsForm(f) && s == FormText(f) + ParseValue(s).rest
    decreases |s|, 0
  {
    var u := s[1..];
    var rest := ParseValue(s).rest;
    assert s == [LBRACE] + u;
    if Peek(Skip(u)) == RBRACE {
      EmptyBrackets(LBRACE, u);
      var w := SpaceOf(u);
      f := ObjectForm(w, []);
      FirstAndRest(Skip(u), rest);
      Enclosed(LBRACE, w, RBRACE, rest);
    } else {
      ObjectStep(u);
      SkippedFirst(u);
      var xs := FieldsOf(u);
      f := ObjectForm([], xs);
      Enclosed(LBRACE, FieldsText(xs), RBRACE, rest);
    }
  }

  /** A value with the white space on both sides. */
  lemma {:induction false} SlotOf(s: text) returns (x: Slot)
    requires ParseSkipped(s).Ok? && Skip(ParseSkipped(s).rest) != []
    ensures IsSlot(x) && s == SlotText(x) + Skip(ParseSkipped(s).rest)
    decreases |s|, 2
  {
    var rest := ParseSkipped(s).rest;
    var before := SpaceOf(s);
    var f := FormOf(Skip(s));
    var after := SpaceOf(rest);
    x := Slot(before, f, after);
    SlotIs(x, Skip(rest));
  }

  lemma {:induction false} SlotsOf(s: text) returns (xs: seq<Slot>)
    requires ParseItems(s).Ok?
    ensures AreSlots(xs) && xs != [] && s == SlotsText(xs) + ([RBRACKET] + ParseItems(s).rest)
    decreases |s|, 3
  {
    var k := ParseItems(s).rest;
    var x := SlotOf(s);
    var v := Skip(ParseSkipped(s).rest);
    var ys := [];
    if v[0] == COMMA {
      ys := SlotsOf(v[1..]);
    }
    FirstAndRest(v, v[1..]);
    SlotsJoin(x, ys, [RBRACKET] + k);
    xs := [x] + ys;
  }

  lemma SlotsJoin(x: Slot, ys: seq<Slot>, end: text)
    requires IsSlot(x) && AreSlots(ys)
    ensures AreSlots([x] + ys)
    ensures SlotsText([x] + ys) + end == SlotText(x) + if ys != [] then [COMMA] + (SlotsText(ys) + end) else end
  {
    assert ([x] + ys)[1..] == ys;
    SlotsShape([x] + ys, end);
  }

  lemma {:induction false} FieldOf(s: text) returns (x: Field)
    requires ParseMember(s).Ok? && Skip(ParseMember(s).rest) != []
    ensures IsField(x) && s == FieldText(x) + Skip(ParseMember(s).rest)
    decreases |s|, 3
  {
    var u := Skip(s);
    assert ParseMember(s) == NamedValue(u);
    var front := SpaceOf(s);
    var name, closed := QuotedOf(u);
    var rest := ParseString(u).rest;
    var back := SpaceOf(rest);
    var w := Skip(rest)[1..];
    var slot := SlotOf(w);
    x := Field(front, name, back, slot);
    FirstAndRest(Skip(rest), w);
    FieldIs(x, Skip(ParseMember(s).rest));
  }

  lemma {:induction false} FieldsOf(s: text) returns (xs: seq<Field>)
    requires ParseMembers(s).Ok?
    ensures AreFields(xs) && xs != [] && s == FieldsText(xs) + ([RBRACE] + ParseMembers(s).rest)
    decreases |s|, 4
  {
    var k := ParseMembers(s).rest;
    assert ParseMember(s).Ok?;
    var v := Skip(ParseMember(s).rest);
    var x := FieldOf(s);
    var ys := [];
    if v[0] == COMMA {
      ys := FieldsOf(v[1..]);
    }
    FirstAndRest(v, v[1..]);
    FieldsJoin(x, ys, [RBRACE] + k);
    xs := [x] + ys;
  }

  lemma FieldsJoin(x: Field, ys: seq<Field>, end: text)
    requires IsField(x) && AreFields(ys)
    ensures AreFields([x] + ys)
    ensures FieldsText([x] + ys) + end == FieldText(x) + if ys != [] then [COMMA] + (FieldsText(ys) + end) else end
  {
    assert ([x] + ys)[1..] == ys;
    FieldsShape([x] + ys, end);
  }

  // ---------------------------------------------------------------- documents

  /** The text is white space, a value and `k`. */
  ghost predicate Writes(s: text, before: text, f: Form, k: text) {
    IsSpace(before) && IsForm(f) && Follows(f, k) && s == before + (FormText(f) + k)
  }

  /** The parser reads a value from the beginning of a text and leaves `k` exactly when the grammar has such a value
      in front of `k`, and gives the value that the grammar says. */
  lemma {:induction false} ReadsExactly(s: text, v: Json, k: text)
    ensures ParseDocument(s, false) == Ok(v, k) <==> exists before, f :: Writes(s, before, f, k) && FormValue(f) == v
  {
    if ParseDocument(s, false) == Ok(v, k) {
      var before := SpaceOf(s);
      var f := FormOf(Skip(s));
      FormParses(f, k);
      assert Writes(s, before, f, k);
    }
    forall before, f | Writes(s, before, f, k) ensures ParseDocument(s, false) == Ok(FormValue(f), k) {
      var u := FormText(f) + k;
      SpaceSkipped(before, u);
      assert Skip(u) == u;
      FormParses(f, k);
    }
  }

  /** Up to the NUL, only white space may follow. */
  lemma {:induction false} AcceptsExactly(s: text, v: Json)
    ensures ParseDocument(s, true) == Ok(v, [])
            <==> exists before, f, after :: Writes(s, before, f, after) && IsSpace(after) && FormValue(f) == v
  {
    if ParseDocument(s, true) == Ok(v, []) {
      var after := ParseSkipped(s).rest;
      ReadsExactly(s, v, after);
      var before, f :| Writes(s, before, f, after) && FormValue(f) == v;
      var w := SpaceOf(after);
      assert after == w;
    }
    forall before, f, after | Writes(s, before, f, after) && IsSpace(after)
      ensures ParseDocument(s, true) == Ok(FormValue(f), [])
    {
      ReadsExactly(s, FormValue(f), after);
      SpaceSkipped(after, []);
      assert after + [] == after;
    }
  }
}
