/** The buffered printers: one buffer that grows on demand. */
module BufferedPrinter {
  import opened Bytes
  import opened Literals
  import opened JsonText
  import opened Buffers
  import opened StringPrinter
  import opened Trees
  import opened Growth
  import opened Items
  import opened Printer

  /** Room asked for beyond the text itself: print_number reserves 21 bytes for at least one character. */
  const SLACK: nat := 21

  /** The largest size pow2gt can round up without overflowing an int. */
  const LIMIT: nat := 0x4000_0000

  /** `memcpy(to, from, n)` */
  method CopyPrefix(to: array<byte>, from: array<byte>, n: nat)
    requires to != from && n <= to.Length && n <= from.Length
    modifies to
    ensures forall j :: 0 <= j < n ==> to[j] == from[j]
  {
    for k := 0 to n
      invariant forall j :: 0 <= j < k ==> to[j] == from[j]
    {
      to[k] := from[k];
    }
  }

  class PrintBuffer {
    var buffer: array<byte>
    var length: nat
    var offset: nat

    /** How long the text can get: as far as the buffer can grow, or as it was long enough from the beginning. */
    ghost const limit: nat

    ghost predicate Valid()
      reads this
    {
      length == buffer.Length && offset <= length && limit <= (if length > LIMIT then length else LIMIT)
    }

    /** `w` has been printed and `offset` stands behind it. */
    ghost predicate Stands(w: text)
      reads this, buffer
    {
      Valid() && offset == |w| && forall j :: 0 <= j < |w| ==> buffer[j] == w[j]
    }

    /** `t` has been printed behind `w`, with its NUL; `offset` may still be anywhere inside `t`. */
    ghost predicate Ended(w: text, t: text)
      reads this, buffer
    {
      Valid() && |w| <= offset <= |w| + |t| && Holds(buffer, 0, w + t)
    }

    constructor (prebuffer: nat)
      requires prebuffer > 0
      ensures fresh(buffer) && Stands([]) && length == prebuffer
      ensures limit == if prebuffer > LIMIT then prebuffer else LIMIT
    {
      limit := if prebuffer > LIMIT then prebuffer else LIMIT;
      buffer := new byte[prebuffer];
      length := prebuffer;
      offset := 0;
    }

    /** `ensure`: afterwards `needed` bytes may be written from `offset` on, and nothing printed is lost. */
    method Ensure(needed: nat, ghost w: text) returns (ghost r: Region)
      requires Stands(w) && offset + needed <= limit
      modifies this
      ensures Stands(w) && (buffer == old(buffer) || fresh(buffer)) && length >= old(length)
      ensures old(offset) + needed <= old(length) ==> buffer == old(buffer)
      ensures old(offset) + needed > old(length) ==> length == Pow2gt(old(offset) + needed)
      ensures r == Region(buffer[..], offset, offset + needed) && Writing(buffer, r, [])
    {
      var total := needed + offset;
      if total > length {
        Pow2gtFits(total);
        var newsize := Pow2gt(total);
        var newbuffer := new byte[newsize];
        CopyPrefix(newbuffer, buffer, length);
        length := newsize;
        buffer := newbuffer;
      }
      r := Region(buffer[..], offset, offset + needed);
    }

    /** `p->offset = update(p)` */
    method Update(ghost w: text, ghost t: text)
      requires Ended(w, t)
      modifies this`offset
      ensures Stands(w + t)
    {
      ghost var rest := (w + t)[offset..];
      assert buffer[offset..|w + t|] == rest by {
        assert buffer[0..|w + t|] == w + t;
      }
      var n := StrLen(buffer, offset, rest);
      offset := offset + n;
    }
  }

  /** What was written in a region behind `w` is printed behind `w`. */
  lemma Printed(p: PrintBuffer, r: Region, w: text, x: text)
    requires p.Valid() && Writing(p.buffer, r, x) && r.at == |w| && |r.was| == p.length
    requires forall j :: 0 <= j < |w| ==> r.was[j] == w[j]
    ensures forall j :: 0 <= j < |w + x| ==> p.buffer[j] == (w + x)[j]
  {
  }

  /** With its NUL it ends the text. */
  lemma PrintedEnds(p: PrintBuffer, r: Region, w: text, x: text)
    requires p.Valid() && Writing(p.buffer, r, x) && r.at == |w| && |r.was| == p.length && Holds(p.buffer, r.at, x)
    requires forall j :: 0 <= j < |w| ==> r.was[j] == w[j]
    requires |w| <= p.offset <= |w| + |x|
    ensures p.Ended(w, x)
  {
    Printed(p, r, w, x);
    assert p.buffer[0..|w + x|] == w + x;
  }

  /** The text fits: with the slack it stays below the size that the buffer can have. */
  ghost predicate Fits(p: PrintBuffer, w: text, t: text) {
    |w| + |t| + SLACK <= p.limit
  }

  /** A piece of `len` characters stored through `ensure`, after which `offset` moves behind it. */
  method Advance(p: PrintBuffer, len: nat, ghost r: Region, ghost w: text, ghost x: text)
    requires p.Valid() && Writing(p.buffer, r, x) && r.at == |w| == p.offset && |r.was| == p.length && len == |x|
    requires forall j :: 0 <= j < |w| ==> r.was[j] == w[j]
    modifies p`offset
    ensures p.Stands(w + x)
  {
    Printed(p, r, w, x);
    p.offset := p.offset + len;
  }

  // ---------------------------------------------------------------- scalars

  method PrintText(p: PrintBuffer, t: text, size: nat, ghost w: text)
    requires p.Stands(w) && |t| < size <= |t| + SLACK && Fits(p, w, t)
    modifies p, p.buffer
    ensures p.Ended(w, t) && (p.buffer == old(p.buffer) || fresh(p.buffer))
  {
    ghost var r := p.Ensure(size, w);
    StoreText(p.buffer, p.offset, t, r);
    PrintedEnds(p, r, w, t);
  }

  method PrintString(p: PrintBuffer, str: text, ghost w: text)
    requires p.Stands(w) && Fits(p, w, Literal(str))
    modifies p, p.buffer
    ensures p.Ended(w, Literal(str)) && (p.buffer == old(p.buffer) || fresh(p.buffer))
  {
    var size, flag := ReserveString(str);
    ghost var r := p.Ensure(size, w);
    FillString(p.buffer, p.offset, str, flag, r);
    PrintedEnds(p, r, w, Literal(str));
  }

  method PrintNumber(p: PrintBuffer, n: int, ghost w: text)
    requires p.Stands(w) && IsInt32(n) && Fits(p, w, IntText(n))
    modifies p, p.buffer
    ensures p.Ended(w, IntText(n)) && (p.buffer == old(p.buffer) || fresh(p.buffer))
  {
    if n == 0 {
      PrintText(p, [ZERO], 2, w);
    } else {
      IntLength(n);
      PrintText(p, IntText(n), 21, w);
    }
  }

  // ---------------------------------------------------------------- pieces of arrays and objects

  method OpenArray(p: PrintBuffer, ghost w: text)
    requires p.Stands(w) && |w| + 1 <= p.limit
    modifies p, p.buffer
    ensures p.Stands(w + [LBRACKET]) && (p.buffer == old(p.buffer) || fresh(p.buffer))
  {
    ghost var r := p.Ensure(1, w);
    var q := Put(p.buffer, p.offset, LBRACKET, r, []);
    assert [] + [LBRACKET] == [LBRACKET];
    Advance(p, 1, r, w, [LBRACKET]);
  }

  method OpenObject(p: PrintBuffer, fmt: bool, ghost w: text)
    requires p.Stands(w) && |w| + 3 <= p.limit
    modifies p, p.buffer
    ensures p.Stands(w + ([LBRACE] + If(fmt, [LF]))) && (p.buffer == old(p.buffer) || fresh(p.buffer))
  {
    var len := if fmt then 2 else 1;
    ghost var r := p.Ensure(len + 1, w);
    var q := Put(p.buffer, p.offset, LBRACE, r, []);
    assert [] + [LBRACE] == [LBRACE];
    q := PutIf(p.buffer, q, fmt, LF, r, [LBRACE]);
    Terminate(p.buffer, q, r, [LBRACE] + If(fmt, [LF]));
    Advance(p, len, r, w, [LBRACE] + If(fmt, [LF]));
  }

  method PutSeparator(p: PrintBuffer, fmt: bool, ghost w: text)
    requires p.Stands(w) && |w| + 3 <= p.limit
    modifies p, p.buffer
    ensures p.Stands(w + Separator(true, fmt)) && (p.buffer == old(p.buffer) || fresh(p.buffer))
  {
    var len := if fmt then 2 else 1;
    ghost var r := p.Ensure(len + 1, w);
    var q := Put(p.buffer, p.offset, COMMA, r, []);
    assert [] + [COMMA] == [COMMA];
    q := PutIf(p.buffer, q, fmt, SPACE, r, [COMMA]);
    Terminate(p.buffer, q, r, Separator(true, fmt));
    Advance(p, len, r, w, Separator(true, fmt));
  }

  /** The closing bracket, behind `n` tabs; `offset` stays in front of them. */
  method PutClose(p: PrintBuffer, fmt: bool, n: nat, c: chr, ghost w: text)
    requires p.Stands(w) && |w| + |If(fmt, Tabs(n))| + 2 <= p.limit
    modifies p, p.buffer
    ensures p.Ended(w, If(fmt, Tabs(n)) + [c]) && (p.buffer == old(p.buffer) || fresh(p.buffer))
  {
    ghost var r := p.Ensure(if fmt then n + 2 else 2, w);
    var q := PutTabsIf(p.buffer, p.offset, fmt, n, r, []);
    ghost var x := If(fmt, Tabs(n));
    assert [] + x == x;
    q := Put(p.buffer, q, c, r, x);
    Terminate(p.buffer, q, r, x + [c]);
    PrintedEnds(p, r, w, x + [c]);
  }

  method PutIndent(p: PrintBuffer, fmt: bool, depth: nat, ghost w: text)
    requires p.Stands(w) && |w| + |If(fmt, Tabs(depth))| <= p.limit
    modifies p, p.buffer
    ensures p.Stands(w + If(fmt, Tabs(depth))) && (p.buffer == old(p.buffer) || fresh(p.buffer))
  {
    if fmt {
      ghost var r := p.Ensure(depth, w);
      var q := PutTabs(p.buffer, p.offset, depth, r, []);
      assert [] + Tabs(depth) == Tabs(depth);
      Advance(p, depth, r, w, Tabs(depth));
    } else {
      assert w + [] == w;
    }
  }

  method PutColon(p: PrintBuffer, fmt: bool, ghost w: text)
    requires p.Stands(w) && |w| + 2 <= p.limit
    modifies p, p.buffer
    ensures p.Stands(w + ([COLON] + If(fmt, [TAB]))) && (p.buffer == old(p.buffer) || fresh(p.buffer))
  {
    var len := if fmt then 2 else 1;
    ghost var r := p.Ensure(len, w);
    var q := Put(p.buffer, p.offset, COLON, r, []);
    assert [] + [COLON] == [COLON];
    q := PutIf(p.buffer, q, fmt, TAB, r, [COLON]);
    Advance(p, len, r, w, [COLON] + If(fmt, [TAB]));
  }

  method PutEnd(p: PrintBuffer, more: bool, fmt: bool, ghost w: text)
    requires p.Stands(w) && |w| + 3 <= p.limit
    modifies p, p.buffer
    ensures p.Stands(w + EndText(more, fmt)) && (p.buffer == old(p.buffer) || fresh(p.buffer))
  {
    var len := (if fmt then 1 else 0) + (if more then 1 else 0);
    ghost var r := p.Ensure(len + 1, w);
    var q := PutIf(p.buffer, p.offset, more, COMMA, r, []);
    assert [] + If(more, [COMMA]) == If(more, [COMMA]);
    q := PutIf(p.buffer, q, fmt, LF, r, If(more, [COMMA]));
    Terminate(p.buffer, q, r, EndText(more, fmt));
    Advance(p, len, r, w, EndText(more, fmt));
  }

  // ---------------------------------------------------------------- trees

  /** What ends behind `w + x` ends, with `x` in front of it, behind `w`. */
  lemma Widen(p: PrintBuffer, w: text, x: text, t: text)
    requires p.Ended(w + x, t)
    ensures p.Ended(w, x + t)
  {
    Assoc(w, x, t);
  }

  /** print_value with a print buffer: the text of the unbuffered printer, behind what is there already.
      `start` is the offset of the returned pointer: the loop that indents the closing brace of an object reuses the
      variable in which the offset of the opening brace was kept. Only the outermost caller uses it, and there it is
      right. */
  method PrintValue(p: PrintBuffer, item: Item, depth: nat, fmt: bool, ghost w: text,
                    ghost t: Shape, ghost src: set<Item>, ghost m: Image) returns (start: nat)
    requires t.node == item && src == All(t.kids) && Shown(t, src, m)
    requires p.Stands(w) && Fits(p, w, ValueText(JsonOf(m), depth, fmt))
    modifies p, p.buffer
    ensures p.Ended(w, ValueText(JsonOf(m), depth, fmt)) && (p.buffer == old(p.buffer) || fresh(p.buffer))
    ensures start == if fmt && JsonOf(m).Object? && JsonOf(m).members != [] then depth else |w|
    decreases t, 1
  {
    start := p.offset;
    match item.kind
    case ArrayKind => PrintArray(p, item, depth, fmt, w, ChildrenOf(t));
    case ObjectKind => start := PrintObject(p, item, depth, fmt, w, ChildrenOf(t));
    case _ => PrintScalar(p, item, depth, fmt, w, t, src, m);
  }

  /** The values without children. */
  method PrintScalar(p: PrintBuffer, item: Item, ghost depth: nat, ghost fmt: bool, ghost w: text,
                     ghost t: Shape, ghost src: set<Item>, ghost m: Image)
    requires t.node == item && src == All(t.kids) && Shown(t, src, m)
    requires item.kind != ArrayKind && item.kind != ObjectKind
    requires p.Stands(w) && Fits(p, w, ValueText(JsonOf(m), depth, fmt))
    modifies p, p.buffer
    ensures p.Ended(w, ValueText(JsonOf(m), depth, fmt)) && (p.buffer == old(p.buffer) || fresh(p.buffer))
  {
    match item.kind
    case NullKind => PrintText(p, NULL, 5, w);
    case FalseKind => PrintText(p, FALSE, 6, w);
    case TrueKind => PrintText(p, TRUE, 5, w);
    case NumberKind => PrintNumber(p, item.mantissa, w);
    case StringKind => PrintString(p, item.valuestring.chars, w);
  }

  method PrintArray(p: PrintBuffer, item: Item, depth: nat, fmt: bool, ghost w: text, ghost c: Children)
    requires p.Stands(w) && Walks(item, c)
    requires PrintableItems(c.images)
    requires Fits(p, w, [LBRACKET] + ItemsText(JsonsOf(c.images), depth + 1, fmt) + [RBRACKET])
    modifies p, p.buffer
    ensures p.Ended(w, [LBRACKET] + ItemsText(JsonsOf(c.images), depth + 1, fmt) + [RBRACKET])
    ensures p.buffer == old(p.buffer) || fresh(p.buffer)
    decreases c.kids, 5
  {
    var numentries := CountEntries(item, c.kids);
    if numentries == 0 {
      PrintBrackets(p, w);
      return;
    }
    ghost var cs := EntryTextsOf(c.images, depth + 1, fmt);
    PrintFilledArray(p, item, depth + 1, fmt, w, c, cs);
  }

  /** An array that is not empty. */
  method PrintFilledArray(p: PrintBuffer, item: Item, d: nat, fmt: bool, ghost w: text, ghost c: Children,
                          ghost cs: seq<text>)
    requires p.Stands(w) && Walks(item, c) && EntryTexts(c.images, cs, d, fmt)
    requires Fits(p, w, [LBRACKET] + Concat(cs, |cs|) + [RBRACKET])
    modifies p, p.buffer
    ensures p.Ended(w, [LBRACKET] + Concat(cs, |cs|) + [RBRACKET])
    ensures p.buffer == old(p.buffer) || fresh(p.buffer)
    decreases c.kids, 4
  {
    OpenArray(p, w);
    StillWalks(item, c);
    PrintItems(p, item, d, fmt, w + [LBRACKET], c, cs);
    CloseArray(p, w, Concat(cs, |cs|));
  }

  /** An array without items. */
  method PrintBrackets(p: PrintBuffer, ghost w: text)
    requires p.Stands(w) && Fits(p, w, [LBRACKET] + [] + [RBRACKET])
    modifies p, p.buffer
    ensures p.Ended(w, [LBRACKET] + [] + [RBRACKET]) && (p.buffer == old(p.buffer) || fresh(p.buffer))
  {
    PrintText(p, [LBRACKET, RBRACKET], 3, w);
    assert [LBRACKET] + [] + [RBRACKET] == [LBRACKET, RBRACKET];
  }

  method CloseArray(p: PrintBuffer, ghost w: text, ghost x: text)
    requires p.Stands(w + [LBRACKET] + x) && Fits(p, w, [LBRACKET] + x + [RBRACKET])
    modifies p, p.buffer
    ensures p.Ended(w, [LBRACKET] + x + [RBRACKET]) && (p.buffer == old(p.buffer) || fresh(p.buffer))
  {
    Assoc(w, [LBRACKET], x);
    PutClose(p, false, 0, RBRACKET, w + ([LBRACKET] + x));
    assert If(false, Tabs(0)) + [RBRACKET] == [RBRACKET];
    Widen(p, w, [LBRACKET] + x, [RBRACKET]);
  }

  /** Standing at the i-th child. */
  ghost predicate Walking(item: Item, child: Item?, c: Children, i: nat)
    reads item`child, c.tops, c.below
  {
    match c
    case Children(kids, _, _, _) => i <= |kids| && child == ItemAt(Roots(kids), i) && Walks(item, c)
  }

  method PrintItems(p: PrintBuffer, item: Item, d: nat, fmt: bool, ghost w: text, ghost c: Children,
                    ghost cs: seq<text>)
    requires p.Stands(w) && Walks(item, c) && EntryTexts(c.images, cs, d, fmt) && Fits(p, w, Concat(cs, |cs|))
    modifies p, p.buffer
    ensures p.Stands(w + Concat(cs, |cs|))
    ensures p.buffer == old(p.buffer) || fresh(p.buffer)
    decreases c.kids, 3
  {
    Composed(w, cs);
    var child := item.child;
    ghost var i := 0;
    while child != null
      invariant i <= |cs| && p.Stands(w + Concat(cs, i)) && Walking(item, child, c, i)
      invariant p.buffer == old(p.buffer) || fresh(p.buffer)
      decreases |cs| - i
    {
      child := NextItem(p, item, child, d, fmt, w, c, cs, i);
      i := i + 1;
    }
  }

  /** One turn of the loop of print_array. */
  method NextItem(p: PrintBuffer, ghost item: Item, child: Item, d: nat, fmt: bool, ghost w: text,
                  ghost c: Children, ghost cs: seq<text>, ghost i: nat) returns (next: Item?)
    requires Walking(item, child, c, i) && EntryTexts(c.images, cs, d, fmt)
    requires i < |cs| && p.Stands(w + Concat(cs, i)) && Fits(p, w, Concat(cs, |cs|))
    modifies p, p.buffer
    ensures p.Stands(w + Concat(cs, i + 1)) && Walking(item, next, c, i + 1)
    ensures p.buffer == old(p.buffer) || fresh(p.buffer)
    decreases c.kids, 2
  {
    ghost var v := EntryTextAt(c.images, cs, d, fmt, i);
    ghost var x := w + Concat(cs, i);
    ConcatGrows(cs, i + 1);
    ConcatStep(cs, i);
    next := PrintSeparated(p, item, child, d, fmt, x, c, i, v);
    Assoc(x, v, Separator(i + 1 < |cs|, fmt));
    Assoc(w, Concat(cs, i), cs[i]);
  }

  /** The value of an item, and what separates it from the next one. */
  method PrintSeparated(p: PrintBuffer, ghost item: Item, child: Item, d: nat, fmt: bool, ghost x: text,
                        ghost c: Children, ghost i: nat, ghost v: text) returns (next: Item?)
    requires Walks(item, c) && i < |c.kids| && child == c.kids[i].node && Named(c.images[i])
    requires Printable(JsonOf(c.images[i])) && v == ValueText(JsonOf(c.images[i]), d, fmt)
    requires p.Stands(x) && Fits(p, x, v + Separator(i + 1 < |c.kids|, fmt))
    modifies p, p.buffer
    ensures p.Stands(x + v + Separator(i + 1 < |c.kids|, fmt)) && Walking(item, next, c, i + 1)
    ensures p.buffer == old(p.buffer) || fresh(p.buffer)
    decreases c.kids, 1
  {
    next := PrintChild(p, item, child, d, fmt, x, c, i, v);
    label printed:
    if next != null {
      PutSeparator(p, fmt, x + v);
    } else {
      assert x + v + [] == x + v;
    }
    StillWalks@printed(item, c);
  }

  /** Prints the value of one child and goes on to the next. */
  method PrintChild(p: PrintBuffer, ghost item: Item, child: Item, d: nat, fmt: bool, ghost x: text,
                    ghost c: Children, ghost i: nat, ghost v: text) returns (next: Item?)
    requires Walks(item, c) && i < |c.kids| && child == c.kids[i].node && Named(c.images[i])
    requires Printable(JsonOf(c.images[i])) && v == ValueText(JsonOf(c.images[i]), d, fmt)
    requires p.Stands(x) && Fits(p, x, v)
    modifies p, p.buffer
    ensures p.Stands(x + v) && Walking(item, next, c, i + 1)
    ensures p.buffer == old(p.buffer) || fresh(p.buffer)
    decreases c.kids, 0
  {
    LinkedAt(c.kids, true, i);
    ImagesAt(c.kids, i);
    var _ := PrintValue(p, child, d, fmt, x, c.kids[i], All(c.kids[i].kids), c.images[i]);
    p.Update(x, v);
    StillWalks(item, c);
    next := child.next;
  }

  /** print_object with a print buffer. */
  method PrintObject(p: PrintBuffer, item: Item, depth: nat, fmt: bool, ghost w: text, ghost c: Children)
      returns (start: nat)
    requires p.Stands(w) && Walks(item, c)
    requires PrintableMembers(c.images)
    requires Fits(p, w, ValueText(Object(MembersOf(c.images)), depth, fmt))
    modifies p, p.buffer
    ensures p.Ended(w, ValueText(Object(MembersOf(c.images)), depth, fmt))
    ensures p.buffer == old(p.buffer) || fresh(p.buffer)
    ensures start == if fmt && MembersOf(c.images) != [] then depth else |w|
    decreases c.kids, 6
  {
    start := p.offset;
    var numentries := CountEntries(item, c.kids);
    if numentries == 0 {
      PrintEmpty(p, depth, fmt, w);
      return;
    }
    ghost var cs := MemberTextsOf(c.images, depth, fmt);
    PrintFilled(p, item, depth, fmt, w, c, cs);
    if fmt {
      start := depth;
    }
  }

  /** An object that is not empty. */
  method PrintFilled(p: PrintBuffer, item: Item, depth: nat, fmt: bool, ghost w: text, ghost c: Children,
                     ghost cs: seq<text>)
    requires p.Stands(w) && Walks(item, c) && MemberTexts(c.images, cs, depth + 1, fmt)
    requires Fits(p, w, Braced(cs, depth, fmt))
    modifies p, p.buffer
    ensures p.Ended(w, Braced(cs, depth, fmt))
    ensures p.buffer == old(p.buffer) || fresh(p.buffer)
    decreases c.kids, 5
  {
    ghost var open := [LBRACE] + If(fmt, [LF]);
    BracedFits(p, w, open, cs, depth, fmt);
    OpenObject(p, fmt, w);
    StillWalks(item, c);
    PrintMembers(p, item, depth + 1, fmt, w + open, c, cs);
    CloseObject(p, depth, fmt, w, open, cs);
  }

  lemma BracedFits(p: PrintBuffer, w: text, open: text, cs: seq<text>, depth: nat, fmt: bool)
    requires open == [LBRACE] + If(fmt, [LF]) && Fits(p, w, Braced(cs, depth, fmt))
    ensures |w| + 3 <= p.limit && Fits(p, w + open, Concat(cs, |cs|))
  {
  }

  method CloseObject(p: PrintBuffer, depth: nat, fmt: bool, ghost w: text, ghost open: text, ghost cs: seq<text>)
    requires open == [LBRACE] + If(fmt, [LF])
    requires p.Stands(w + open + Concat(cs, |cs|)) && Fits(p, w, Braced(cs, depth, fmt))
    modifies p, p.buffer
    ensures p.Ended(w, Braced(cs, depth, fmt)) && (p.buffer == old(p.buffer) || fresh(p.buffer))
  {
    ghost var m := Concat(cs, |cs|);
    Assoc(w, open, m);
    PutClose(p, fmt, depth, RBRACE, w + (open + m));
    Widen(p, w, open + m, If(fmt, Tabs(depth)) + [RBRACE]);
    Assoc(open + m, If(fmt, Tabs(depth)), [RBRACE]);
  }

  method PrintEmpty(p: PrintBuffer, depth: nat, fmt: bool, ghost w: text)
    requires p.Stands(w) && Fits(p, w, ValueText(Object([]), depth, fmt))
    modifies p, p.buffer
    ensures p.Ended(w, ValueText(Object([]), depth, fmt)) && (p.buffer == old(p.buffer) || fresh(p.buffer))
  {
    ghost var t := ValueText(Object([]), depth, fmt);
    EmptyFits(p, depth, fmt, w);
    ghost var r := p.Ensure(if fmt then depth + 4 else 3, w);
    ComposeEmpty(p.buffer, p.offset, depth, fmt, r);
    PrintedEnds(p, r, w, t);
  }

  lemma EmptyFits(p: PrintBuffer, depth: nat, fmt: bool, w: text)
    requires Fits(p, w, ValueText(Object([]), depth, fmt))
    ensures |w| + (if fmt then depth + 4 else 3) <= p.limit
  {
  }

  method PrintMembers(p: PrintBuffer, item: Item, d: nat, fmt: bool, ghost w: text, ghost c: Children,
                      ghost cs: seq<text>)
    requires p.Stands(w) && Walks(item, c) && MemberTexts(c.images, cs, d, fmt) && Fits(p, w, Concat(cs, |cs|))
    modifies p, p.buffer
    ensures p.Stands(w + Concat(cs, |cs|))
    ensures p.buffer == old(p.buffer) || fresh(p.buffer)
    decreases c.kids, 4
  {
    Composed(w, cs);
    var child := item.child;
    ghost var i := 0;
    while child != null
      invariant i <= |cs| && p.Stands(w + Concat(cs, i)) && Walking(item, child, c, i)
      invariant p.buffer == old(p.buffer) || fresh(p.buffer)
      decreases |cs| - i
    {
      child := NextMember(p, item, child, d, fmt, w, c, cs, i);
      i := i + 1;
    }
  }

  method NextMember(p: PrintBuffer, ghost item: Item, child: Item, d: nat, fmt: bool, ghost w: text,
                    ghost c: Children, ghost cs: seq<text>, ghost i: nat) returns (next: Item?)
    requires Walking(item, child, c, i) && MemberTexts(c.images, cs, d, fmt)
    requires i < |cs| && p.Stands(w + Concat(cs, i)) && Fits(p, w, Concat(cs, |cs|))
    modifies p, p.buffer
    ensures p.Stands(w + Concat(cs, i + 1)) && Walking(item, next, c, i + 1)
    ensures p.buffer == old(p.buffer) || fresh(p.buffer)
    decreases c.kids, 3
  {
    ConcatGrows(cs, i + 1);
    ConcatStep(cs, i);
    Assoc(w, Concat(cs, i), cs[i]);
    next := PrintMember(p, item, child, d, fmt, w + Concat(cs, i), c, cs, i);
  }

  /** One turn of the loop of print_object. */
  method PrintMember(p: PrintBuffer, ghost item: Item, child: Item, d: nat, fmt: bool, ghost w: text,
                     ghost c: Children, ghost cs: seq<text>, ghost i: nat) returns (next: Item?)
    requires Walking(item, child, c, i) && MemberTexts(c.images, cs, d, fmt)
    requires i < |cs| && p.Stands(w) && Fits(p, w, cs[i])
    modifies p, p.buffer
    ensures p.Stands(w + cs[i]) && Walking(item, next, c, i + 1)
    ensures p.buffer == old(p.buffer) || fresh(p.buffer)
    decreases c.kids, 2
  {
    ghost var n, v := MemberTextAt(c.images, cs, d, fmt, i);
    ghost var x := NameText(c.images[i].name.value, d, fmt);
    PrintChildName(p, item, child, d, fmt, w, c, i);
    next := PrintChildValue(p, item, child, d, fmt, w + x, c, i, v);
    Assoc4(w, x, v, EndText(i + 1 < |cs|, fmt));
  }

  method PrintChildName(p: PrintBuffer, ghost item: Item, child: Item, d: nat, fmt: bool, ghost w: text,
                        ghost c: Children, ghost i: nat)
    requires Walks(item, c) && i < |c.kids| && child == c.kids[i].node && c.images[i].name.Some?
    requires p.Stands(w) && Fits(p, w, NameText(c.images[i].name.value, d, fmt))
    modifies p, p.buffer
    ensures p.Stands(w + NameText(c.images[i].name.value, d, fmt)) && Walks(item, c)
    ensures p.buffer == old(p.buffer) || fresh(p.buffer)
  {
    NameAt(item, child, c, i);
    PrintName(p, child.name.chars, d, fmt, w);
    StillWalks(item, c);
  }

  /** The value of a member, and what separates it from the next one. */
  method PrintChildValue(p: PrintBuffer, ghost item: Item, child: Item, d: nat, fmt: bool, ghost x: text,
                         ghost c: Children, ghost i: nat, ghost v: text) returns (next: Item?)
    requires Walks(item, c) && i < |c.kids| && child == c.kids[i].node && Named(c.images[i])
    requires Printable(JsonOf(c.images[i])) && v == ValueText(JsonOf(c.images[i]), d, fmt)
    requires p.Stands(x) && Fits(p, x, v + EndText(i + 1 < |c.kids|, fmt))
    modifies p, p.buffer
    ensures p.Stands(x + v + EndText(i + 1 < |c.kids|, fmt)) && Walking(item, next, c, i + 1)
    ensures p.buffer == old(p.buffer) || fresh(p.buffer)
    decreases c.kids, 1
  {
    next := PrintChild(p, item, child, d, fmt, x, c, i, v);
    label printed:
    PutEnd(p, next != null, fmt, x + v);
    StillWalks@printed(item, c);
  }

  method PrintName(p: PrintBuffer, name: text, d: nat, fmt: bool, ghost w: text)
    requires p.Stands(w) && Fits(p, w, NameText(name, d, fmt))
    modifies p, p.buffer
    ensures p.Stands(w + NameText(name, d, fmt))
    ensures p.buffer == old(p.buffer) || fresh(p.buffer)
  {
    ghost var a, c := If(fmt, Tabs(d)), [COLON] + If(fmt, [TAB]);
    PutIndent(p, fmt, d, w);
    PrintString(p, name, w + a);
    p.Update(w + a, Literal(name));
    PutColon(p, fmt, w + a + Literal(name));
    Assoc4(w, a, Literal(name), c);
  }

  /** cJSON_PrintBuffered: for every positive prebuffer the same text as the unbuffered printers, at the
      returned position of the buffer that is current at the end. */
  method PrintBuffered(item: Item, prebuffer: nat, fmt: bool, ghost t: Shape, ghost src: set<Item>, ghost m: Image)
      returns (out: array<byte>, start: nat)
    requires t.node == item && src == All(t.kids) && Shown(t, src, m)
    requires prebuffer > 0
    requires |ValueText(JsonOf(m), 0, fmt)| + SLACK <= (if prebuffer > LIMIT then prebuffer else LIMIT)
    ensures fresh(out) && Holds(out, start, ValueText(JsonOf(m), 0, fmt))
  {
    var p := new PrintBuffer(prebuffer);
    start := PrintValue(p, item, 0, fmt, [], t, src, m);
    out := p.buffer;
    assert [] + ValueText(JsonOf(m), 0, fmt) == ValueText(JsonOf(m), 0, fmt);
  }
}
