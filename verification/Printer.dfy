/** The unbuffered printers: measure, allocate, compose. */
module Printer {
  import opened Arithmetic
  import opened Bytes
  import opened Items
  import opened Literals
  import opened JsonText
  import opened Buffers
  import opened StringPrinter
  import opened Trees

  // ---------------------------------------------------------------- numbers

  lemma {:induction false} DigitsLength(n: nat, k: nat)
    requires n < Pow10(k) && k > 0
    ensures |Digits(n)| <= k
  {
    if n >= 10 {
      DigitsLength(n / 10, k - 1);
    }
  }

  /** `%d` of an int takes at most eleven characters. */
  lemma {:induction false} IntLength(n: int)
    requires IsInt32(n)
    ensures |IntText(n)| <= 11
  {
    assert Pow10(5) == 100000;
    assert Pow10(10) == 100000 * Pow10(5);
    DigitsLength(if n < 0 then -n else n, 10);
  }

  // ---------------------------------------------------------------- what is composed

  function Separator(more: bool, fmt: bool): text {
    If(more, [COMMA] + If(fmt, [SPACE]))
  }

  /** The text of an array or object between its brackets, cut into one chunk an entry. */
  ghost function ItemChunks(items: seq<Json>, d: nat, fmt: bool): (cs: seq<text>)
    requires AllPrintable(items)
    ensures |cs| == |items|
  {
    if items == [] then []
    else [ValueText(items[0], d, fmt) + Separator(|items| > 1, fmt)] + ItemChunks(items[1..], d, fmt)
  }

  ghost function MemberChunks(ms: seq<Member>, d: nat, fmt: bool): (cs: seq<text>)
    requires MembersPrintable(ms)
    ensures |cs| == |ms|
  {
    if ms == [] then []
    else [MemberText(ms[0], |ms| > 1, d, fmt)] + MemberChunks(ms[1..], d, fmt)
  }

  lemma {:induction false} ItemChunk(items: seq<Json>, i: nat, d: nat, fmt: bool)
    requires AllPrintable(items) && i < |items|
    ensures Printable(items[i])
    ensures ItemChunks(items, d, fmt)[i] == ValueText(items[i], d, fmt) + Separator(i + 1 < |items|, fmt)
  {
    if i > 0 {
      ItemChunk(items[1..], i - 1, d, fmt);
    }
  }

  lemma {:induction false} MemberChunk(ms: seq<Member>, i: nat, d: nat, fmt: bool)
    requires MembersPrintable(ms) && i < |ms|
    ensures Printable(ms[i].value)
    ensures MemberChunks(ms, d, fmt)[i] == MemberText(ms[i], i + 1 < |ms|, d, fmt)
  {
    if i > 0 {
      MemberChunk(ms[1..], i - 1, d, fmt);
    }
  }

  /** The first `i` chunks. */
  ghost function Concat(cs: seq<text>, i: nat): text
    requires i <= |cs|
  {
    if i == 0 then [] else Concat(cs, i - 1) + cs[i - 1]
  }

  lemma {:induction false} ConcatFirst(c: text, cs: seq<text>, i: nat)
    requires i <= |cs|
    ensures Concat([c] + cs, i + 1) == c + Concat(cs, i)
  {
    if i == 0 {
      assert Concat([c] + cs, 0) == [];
    } else {
      ConcatFirst(c, cs, i - 1);
      assert ([c] + cs)[i] == cs[i - 1];
      Assoc(c, Concat(cs, i - 1), cs[i - 1]);
    }
  }

  lemma {:induction false} ConcatIsItems(items: seq<Json>, d: nat, fmt: bool)
    requires AllPrintable(items)
    ensures Concat(ItemChunks(items, d, fmt), |items|) == ItemsText(items, d, fmt)
  {
    if items != [] {
      var v, s, rest := ValueText(items[0], d, fmt), Separator(|items| > 1, fmt), items[1..];
      ConcatIsItems(rest, d, fmt);
      ConcatFirst(v + s, ItemChunks(rest, d, fmt), |rest|);
      Assoc(v, s, ItemsText(rest, d, fmt));
    }
  }

  lemma {:induction false} ConcatIsMembers(ms: seq<Member>, d: nat, fmt: bool)
    requires MembersPrintable(ms)
    ensures Concat(MemberChunks(ms, d, fmt), |ms|) == MembersText(ms, d, fmt)
  {
    if ms != [] {
      ConcatIsMembers(ms[1..], d, fmt);
      ConcatFirst(MemberText(ms[0], |ms| > 1, d, fmt), MemberChunks(ms[1..], d, fmt), |ms| - 1);
    }
  }

  // ---------------------------------------------------------------- the printers

  /** The whole of a new buffer. */
  ghost function Fresh(a: array<byte>): Region
    reads a
  {
    Region(a[..], 0, a.Length)
  }

  /** `cJSON_strdup`, and the number and keyword cases. */
  method NewText(t: text, size: nat) returns (out: array<byte>)
    requires |t| < size
    ensures fresh(out) && out.Length == size && Holds(out, 0, t)
  {
    out := new byte[size];
    ghost var r := Fresh(out);
    var p := PutText(out, 0, t, r, []);
    assert [] + t == t;
    Terminate(out, p, r, t);
  }

  method PrintString(str: text) returns (out: array<byte>)
    ensures fresh(out) && out.Length == |Literal(str)| + 1 && Holds(out, 0, Literal(str))
  {
    var size, flag := ReserveString(str);
    out := new byte[size];
    FillString(out, 0, str, flag, Fresh(out));
  }

  /** print_number for a 32-bit integer. */
  method PrintNumber(n: int) returns (out: array<byte>)
    requires IsInt32(n)
    ensures fresh(out) && Holds(out, 0, IntText(n)) && out.Length == if n == 0 then 2 else 21
  {
    if n == 0 {
      out := NewText([ZERO], 2);
    } else {
      IntLength(n);
      out := NewText(IntText(n), 21);
    }
  }

  /** The item `t.node` is linked to what is below it, follows references, and has the image `m`. */
  ghost predicate Shown(t: Shape, src: set<Item>, m: Image)
    requires src == All(t.kids)
    reads t.node, src
  {
    LinkedTree(t, true) && ImageOf(t) == m && Printable(JsonOf(m)) && Named(m)
  }

  /** print_value with a null print buffer. */
  method PrintValue(item: Item, depth: nat, fmt: bool, ghost t: Shape, ghost src: set<Item>, ghost m: Image)
      returns (out: array<byte>)
    requires t.node == item && src == All(t.kids) && Shown(t, src, m)
    ensures fresh(out) && Holds(out, 0, ValueText(JsonOf(m), depth, fmt))
    decreases t, 1
  {
    match item.kind
    case NullKind => out := NewText(NULL, 5);
    case FalseKind => out := NewText(FALSE, 6);
    case TrueKind => out := NewText(TRUE, 5);
    case NumberKind => out := PrintNumber(item.mantissa);
    case StringKind => out := PrintString(item.valuestring.chars);
    case ArrayKind => out := PrintArray(item, depth, fmt, ChildrenOf(t));
    case ObjectKind => out := PrintObject(item, depth, fmt, ChildrenOf(t));
  }

  /** The first loop of print_array and print_object. */
  method CountEntries(item: Item, ghost kids: seq<Shape>) returns (numentries: nat)
    requires Chain(item.child, Roots(kids))
    ensures numentries == |kids|
  {
    var child := item.child;
    numentries := 0;
    while child != null
      invariant 0 <= numentries <= |kids| && child == ItemAt(Roots(kids), numentries)
      decreases |kids| - numentries
    {
      numentries, child := numentries + 1, child.next;
    }
  }

  /** The printed entries, one buffer each: the local array of `char *`. */
  ghost predicate Entries(entries: seq<array<byte>>, vs: seq<text>)
    reads entries
  {
    |vs| == |entries| && forall j :: 0 <= j < |vs| ==> Holds(entries[j], 0, vs[j])
  }

  lemma EntriesGrow(entries: seq<array<byte>>, vs: seq<text>, a: array<byte>, v: text)
    requires Entries(entries, vs) && Holds(a, 0, v)
    ensures Entries(entries + [a], vs + [v])
  {
  }

  /** The chunks of an array are its entries with their separators. */
  ghost predicate ArrayChunks(cs: seq<text>, vs: seq<text>, fmt: bool) {
    |vs| <= |cs| && forall j {:trigger vs[j]} :: 0 <= j < |vs| ==> cs[j] == vs[j] + Separator(j + 1 < |cs|, fmt)
  }

  lemma ArrayChunksGrow(cs: seq<text>, vs: seq<text>, v: text, fmt: bool)
    requires ArrayChunks(cs, vs, fmt) && |vs| < |cs| && cs[|vs|] == v + Separator(|vs| + 1 < |cs|, fmt)
    ensures ArrayChunks(cs, vs + [v], fmt)
  {
  }

  /** print_array without a print buffer. Its buffer is larger than the text by a byte per entry and four or five. */
  method PrintArray(item: Item, depth: nat, fmt: bool, ghost c: Children) returns (out: array<byte>)
    requires Walks(item, c)
    requires PrintableItems(c.images)
    ensures fresh(out) && Holds(out, 0, [LBRACKET] + ItemsText(JsonsOf(c.images), depth + 1, fmt) + [RBRACKET])
    ensures out.Length == if c.images == [] then 3
                          else 2 + |ItemsText(JsonsOf(c.images), depth + 1, fmt)| + |c.images| + if fmt then 5 else 4
    decreases c.kids, 3
  {
    var numentries := CountEntries(item, c.kids);
    if numentries == 0 {
      out := NewText([LBRACKET, RBRACKET], 3);
      return;
    }
    ghost var cs := EntryTextsOf(c.images, depth + 1, fmt);
    StillWalks(item, c);
    var entries, len, vs := PrintEntries(item, depth + 1, fmt, c, cs);
    out := new byte[len];
    ComposeArray(out, entries, cs, vs, fmt, Fresh(out));
  }

  /** Prints the entries one by one and adds up the length of the whole. */
  method PrintEntries(item: Item, d: nat, fmt: bool, ghost c: Children, ghost cs: seq<text>)
      returns (entries: seq<array<byte>>, len: nat, ghost vs: seq<text>)
    requires Walks(item, c) && EntryTexts(c.images, cs, d, fmt)
    ensures Entries(entries, vs) && |vs| == |cs|
    ensures ArrayChunks(cs, vs, fmt) && len == 5 + |Concat(cs, |cs|)| + Spare(|cs|, |cs|, fmt)
    decreases c.kids, 2
  {
    entries, len, vs := [], 5, [];
    var child := item.child;
    while child != null
      invariant Listing(item, child, c, cs, entries, vs, len, fmt)
      decreases |c.kids| - |vs|
    {
      entries, len, vs, child := NextEntry(item, child, d, fmt, c, cs, entries, vs, len);
    }
  }

  /** What the first `i` of `n` entries are reckoned with beyond their chunks: the comma that is not written. */
  function Spare(i: nat, n: nat, fmt: bool): nat {
    i + if i < n || n == 0 then 0 else if fmt then 2 else 1
  }

  /** The entries up to `child` have been printed and measured. */
  ghost predicate Listing(item: Item, child: Item?, c: Children, cs: seq<text>, entries: seq<array<byte>>,
                          vs: seq<text>,
                          len: nat, fmt: bool)
    reads item`child, c.tops, c.below, entries
  {
    match c
    case Children(kids, _, _, _) =>
      |vs| <= |kids| == |cs| && child == ItemAt(Roots(kids), |vs|) && Walks(item, c)
      && Entries(entries, vs) && ArrayChunks(cs, vs, fmt)
      && len == 5 + |Concat(cs, |vs|)| + Spare(|vs|, |cs|, fmt)
  }

  method NextEntry(ghost item: Item, child: Item, d: nat, fmt: bool, ghost c: Children, ghost cs: seq<text>,
                   entries: seq<array<byte>>, ghost vs: seq<text>, len: nat)
      returns (entries': seq<array<byte>>, len': nat, ghost vs': seq<text>, next: Item?)
    requires Listing(item, child, c, cs, entries, vs, len, fmt) && EntryTexts(c.images, cs, d, fmt)
    ensures Listing(item, next, c, cs, entries', vs', len', fmt) && |vs'| == |vs| + 1
    decreases c.kids, 1
  {
    ghost var i := |vs|;
    ghost var v := EntryTextAt(c.images, cs, d, fmt, i);
    var ret, n;
    ret, n, next := PrintEntry(item, child, d, fmt, c, i, v);
    EntriesGrow(entries, vs, ret, v);
    ArrayChunksGrow(cs, vs, v, fmt);
    ConcatStep(cs, i);
    entries', vs' := entries + [ret], vs + [v];
    len' := len + n + 2 + if fmt then 1 else 0;
  }

  /** The chunks `cs` are the texts of the children with their separators, and the children can be printed. */
  ghost predicate EntryTexts(ms: seq<Image>, cs: seq<text>, d: nat, fmt: bool) {
    |cs| == |ms| && forall i {:trigger JsonOf(ms[i])} :: 0 <= i < |ms| ==>
      Named(ms[i]) && Printable(JsonOf(ms[i]))
      && cs[i] == ValueText(JsonOf(ms[i]), d, fmt) + Separator(i + 1 < |ms|, fmt)
  }

  lemma EntryTextAt(ms: seq<Image>, cs: seq<text>, d: nat, fmt: bool, i: nat) returns (v: text)
    requires i < |ms| && EntryTexts(ms, cs, d, fmt)
    ensures Named(ms[i]) && Printable(JsonOf(ms[i])) && v == ValueText(JsonOf(ms[i]), d, fmt)
    ensures i < |cs| && cs[i] == v + Separator(i + 1 < |cs|, fmt)
  {
    var value := JsonOf(ms[i]);
    v := ValueText(value, d, fmt);
  }

  /** The children of an array that can be printed. */
  ghost predicate PrintableItems(ms: seq<Image>) {
    AllPrintable(JsonsOf(ms)) && forall i :: 0 <= i < |ms| ==> Named(ms[i])
  }

  lemma EntryTextsOf(ms: seq<Image>, d: nat, fmt: bool) returns (cs: seq<text>)
    requires ms != [] && PrintableItems(ms)
    ensures EntryTexts(ms, cs, d, fmt) && Concat(cs, |cs|) == ItemsText(JsonsOf(ms), d, fmt)
  {
    var items := JsonsOf(ms);
    cs := ItemChunks(items, d, fmt);
    JsonsAt(ms, 0);
    forall i | 0 <= i < |ms|
      ensures Printable(JsonOf(ms[i])) && cs[i] == ValueText(JsonOf(ms[i]), d, fmt) + Separator(i + 1 < |ms|, fmt)
    {
      JsonsAt(ms, i);
      ItemChunk(items, i, d, fmt);
    }
    ConcatIsItems(items, d, fmt);
  }

  /** Prints one entry, measures it and goes on to the next child. */
  method PrintEntry(ghost item: Item, child: Item, d: nat, fmt: bool, ghost c: Children, ghost i: nat, ghost v: text)
      returns (ret: array<byte>, n: nat, next: Item?)
    requires Walks(item, c)
    requires i < |c.kids| && child == c.kids[i].node && Named(c.images[i])
    requires Printable(JsonOf(c.images[i])) && v == ValueText(JsonOf(c.images[i]), d, fmt)
    ensures fresh(ret) && Holds(ret, 0, v) && n == |v|
    ensures next == ItemAt(Roots(c.kids), i + 1) && Walks(item, c)
    decreases c.kids, 0
  {
    LinkedAt(c.kids, true, i);
    ImagesAt(c.kids, i);
    ret := PrintValue(child, d, fmt, c.kids[i], All(c.kids[i].kids), c.images[i]);
    n := StrLen(ret, 0, v);
    StillWalks(item, c);
    next := child.next;
  }

  /** One entry and its separator. */
  method ComposeEntry(out: array<byte>, p: nat, entry: array<byte>, more: bool, fmt: bool, ghost v: text,
                      ghost r: Region, ghost w: text)
      returns (q: nat)
    requires entry != out && Holds(entry, 0, v)
    requires Writing(out, r, w) && p == r.at + |w| && p + |v + Separator(more, fmt)| < r.end
    modifies out
    ensures q == p + |v + Separator(more, fmt)| && Writing(out, r, w + (v + Separator(more, fmt)))
  {
    var tmplen := StrLen(entry, 0, v);
    q := PutCopy(out, p, entry, tmplen, v, r, w);
    Assoc(w, v, Separator(more, fmt));
    if more {
      q := Put(out, q, COMMA, r, w + v);
      if fmt {
        q := Put(out, q, SPACE, r, w + v + [COMMA]);
        Assoc(w + v, [COMMA], [SPACE]);
      }
      Terminate(out, q, r, w + v + Separator(more, fmt));
    }
  }

  method ComposeArray(out: array<byte>, entries: seq<array<byte>>, ghost cs: seq<text>, ghost vs: seq<text>,
                      fmt: bool, ghost r: Region)
    requires Entries(entries, vs) && |entries| == |vs| == |cs| && ArrayChunks(cs, vs, fmt)
    requires out !in entries
    requires Writing(out, r, []) && r.at == 0 && r.end >= |Concat(cs, |cs|)| + 3
    modifies out
    ensures Holds(out, 0, [LBRACKET] + Concat(cs, |cs|) + [RBRACKET])
  {
    var p := Put(out, 0, LBRACKET, r, []);
    assert [] + [LBRACKET] == [LBRACKET];
    Terminate(out, p, r, [LBRACKET]);
    ghost var w: text := [LBRACKET];
    var numentries := |entries|;
    for i := 0 to numentries
      invariant Entries(entries, vs)
      invariant w == [LBRACKET] + Concat(cs, i) && p == |w| && Writing(out, r, w)
    {
      ConcatGrows(cs, i + 1);
      p := ComposeEntry(out, p, entries[i], i != numentries - 1, fmt, vs[i], r, w);
      Assoc([LBRACKET], Concat(cs, i), cs[i]);
      w := w + cs[i];
    }
    p := Put(out, p, RBRACKET, r, w);
    Terminate(out, p, r, w + [RBRACKET]);
  }

  lemma {:induction false} ConcatGrows(cs: seq<text>, i: nat)
    requires i <= |cs|
    ensures |Concat(cs, i)| <= |Concat(cs, |cs|)|
    decreases |cs| - i
  {
    if i < |cs| {
      ConcatGrows(cs, i + 1);
    }
  }

  /** The chunks of an object are its names and entries with the layout around them. */
  function Chunk(name: text, entry: text, more: bool, d: nat, fmt: bool): text {
    If(fmt, Tabs(d)) + name + ([COLON] + If(fmt, [TAB])) + entry + EndText(more, fmt)
  }

  ghost predicate ObjectChunks(cs: seq<text>, ns: seq<text>, vs: seq<text>, d: nat, fmt: bool) {
    |vs| == |ns| <= |cs| && forall j {:trigger ns[j]} :: 0 <= j < |vs| ==>
        cs[j] == Chunk(ns[j], vs[j], j + 1 < |cs|, d, fmt)
  }

  lemma ChunksGrow(cs: seq<text>, ns: seq<text>, vs: seq<text>, n: text, v: text, d: nat, fmt: bool)
    requires ObjectChunks(cs, ns, vs, d, fmt) && |ns| < |cs|
    requires cs[|ns|] == Chunk(n, v, |ns| + 1 < |cs|, d, fmt)
    ensures ObjectChunks(cs, ns + [n], vs + [v], d, fmt)
  {
  }

  /** The names and entries printed so far. */
  ghost predicate Collected(names: seq<array<byte>>, entries: seq<array<byte>>, ns: seq<text>, vs: seq<text>,
                            cs: seq<text>,
                            d: nat, fmt: bool)
    reads names, entries
  {
    Entries(names, ns) && Entries(entries, vs) && ObjectChunks(cs, ns, vs, d, fmt)
  }

  lemma CollectedGrow(names: seq<array<byte>>, entries: seq<array<byte>>, ns: seq<text>, vs: seq<text>, cs: seq<text>,
                      str: array<byte>, ret: array<byte>, n: text, v: text, d: nat, fmt: bool)
    requires Collected(names, entries, ns, vs, cs, d, fmt) && |ns| < |cs| && Holds(str, 0, n) && Holds(ret, 0, v)
    requires cs[|ns|] == Chunk(n, v, |ns| + 1 < |cs|, d, fmt)
    ensures Collected(names + [str], entries + [ret], ns + [n], vs + [v], cs, d, fmt)
  {
    EntriesGrow(names, ns, str, n);
    EntriesGrow(entries, vs, ret, v);
    ChunksGrow(cs, ns, vs, n, v, d, fmt);
  }

  lemma ConcatStep(cs: seq<text>, i: nat)
    requires i < |cs|
    ensures |Concat(cs, i + 1)| == |Concat(cs, i)| + |cs[i]|
  {
  }

  /** print_object without a print buffer. Its buffer is larger than the text by six bytes. */
  method PrintObject(item: Item, depth: nat, fmt: bool, ghost c: Children) returns (out: array<byte>)
    requires Walks(item, c)
    requires PrintableMembers(c.images)
    ensures fresh(out) && Holds(out, 0, ValueText(Object(MembersOf(c.images)), depth, fmt))
    ensures out.Length == if c.images == [] then if fmt then depth + 4 else 3
                          else |ValueText(Object(MembersOf(c.images)), depth, fmt)| + 6
    decreases c.kids, 4
  {
    var numentries := CountEntries(item, c.kids);
    if numentries == 0 {
      out := NewEmpty(depth, fmt);
      return;
    }
    ghost var cs := MemberTextsOf(c.images, depth, fmt);
    StillWalks(item, c);
    var names, entries, len, ns, vs := PrintMembers(item, depth + 1, fmt, c, cs);
    out := NewObject(len, names, entries, cs, ns, vs, depth, fmt);
  }

  method NewEmpty(depth: nat, fmt: bool) returns (out: array<byte>)
    ensures fresh(out) && Holds(out, 0, ValueText(Object([]), depth, fmt))
    ensures out.Length == if fmt then depth + 4 else 3
  {
    out := new byte[if fmt then depth + 4 else 3];
    ComposeEmpty(out, 0, depth, fmt, Fresh(out));
  }

  method NewObject(len: nat, names: seq<array<byte>>, entries: seq<array<byte>>,
                   ghost cs: seq<text>, ghost ns: seq<text>, ghost vs: seq<text>, depth: nat, fmt: bool)
      returns (out: array<byte>)
    requires Entries(names, ns) && Entries(entries, vs) && |ns| == |vs| == |cs|
             && ObjectChunks(cs, ns, vs, depth + 1, fmt)
    requires len >= 7 + |If(fmt, Tabs(depth + 1))| + |Concat(cs, |cs|)|
    ensures fresh(out) && Holds(out, 0, Braced(cs, depth, fmt)) && out.Length == len
  {
    out := new byte[len];
    ComposeObject(out, names, entries, cs, ns, vs, depth + 1, fmt, Fresh(out));
  }

  /** Prints names and entries one by one and adds up the length of the whole. */
  method PrintMembers(item: Item, d: nat, fmt: bool, ghost c: Children, ghost cs: seq<text>)
      returns (names: seq<array<byte>>, entries: seq<array<byte>>, len: nat, ghost ns: seq<text>, ghost vs: seq<text>)
    requires Walks(item, c) && MemberTexts(c.images, cs, d, fmt)
    ensures Entries(names, ns) && |ns| == |cs|
    ensures Entries(entries, vs) && |vs| == |cs|
    ensures ObjectChunks(cs, ns, vs, d, fmt)
    ensures len == 7 + |If(fmt, Tabs(d))| + |Concat(cs, |cs|)| + if cs == [] then 0 else 1
    decreases c.kids, 3
  {
    names, entries, ns, vs := [], [], [], [];
    len := 7 + if fmt then d else 0;
    var child := item.child;
    while child != null
      invariant Collecting(item, child, c, cs, names, entries, ns, vs, len, d, fmt)
      decreases |c.kids| - |vs|
    {
      names, entries, len, ns, vs, child := NextMember(item, child, d, fmt, c, cs, names, entries, ns, vs, len);
    }
  }

  /** The length with the first `i` members: seven and an indentation, and the comma that is not written. */
  ghost function Reckoned(cs: seq<text>, i: nat, d: nat, fmt: bool): nat
    requires i <= |cs|
  {
    7 + |If(fmt, Tabs(d))| + |Concat(cs, i)| + if i < |cs| || cs == [] then 0 else 1
  }

  /** The names and entries up to `child` have been printed and measured. */
  ghost predicate Collecting(item: Item, child: Item?, c: Children, cs: seq<text>, names: seq<array<byte>>,
                             entries: seq<array<byte>>, ns: seq<text>, vs: seq<text>, len: nat, d: nat, fmt: bool)
    reads item`child, c.tops, c.below, names, entries
  {
    match c
    case Children(kids, _, _, _) =>
      |vs| <= |kids| == |cs| && child == ItemAt(Roots(kids), |vs|) && Walks(item, c)
      && Collected(names, entries, ns, vs, cs, d, fmt)
      && len == Reckoned(cs, |vs|, d, fmt)
  }

  method NextMember(ghost item: Item, child: Item, d: nat, fmt: bool, ghost c: Children, ghost cs: seq<text>,
                    names: seq<array<byte>>, entries: seq<array<byte>>, ghost ns: seq<text>, ghost vs: seq<text>,
                    len: nat)
      returns (names': seq<array<byte>>, entries': seq<array<byte>>, len': nat, ghost ns': seq<text>,
               ghost vs': seq<text>,
               next: Item?)
    requires Collecting(item, child, c, cs, names, entries, ns, vs, len, d, fmt) && MemberTexts(c.images, cs, d, fmt)
    ensures Collecting(item, next, c, cs, names', entries', ns', vs', len', d, fmt) && |vs'| == |vs| + 1
    decreases c.kids, 2
  {
    ghost var i := |vs|;
    ghost var n, v := MemberTextAt(c.images, cs, d, fmt, i);
    var str, ret, size;
    str, ret, size, next := PrintMember(item, child, d, fmt, c, i, n, v);
    CollectedGrow(names, entries, ns, vs, cs, str, ret, n, v, d, fmt);
    ReckonedGrows(cs, i, n, v, d, fmt);
    names', entries', ns', vs' := names + [str], entries + [ret], ns + [n], vs + [v];
    len' := len + size;
  }

  /** The chunks `cs` are the texts of the members, and the members can be printed. */
  ghost predicate MemberTexts(ms: seq<Image>, cs: seq<text>, d: nat, fmt: bool) {
    |cs| == |ms| && forall i {:trigger JsonOf(ms[i])} :: 0 <= i < |ms| ==>
      Named(ms[i]) && ms[i].name.Some? && Printable(JsonOf(ms[i]))
        && cs[i] == MemberText(MemberOf(ms[i]), i + 1 < |ms|, d, fmt)
  }

  /** The children of an object that can be printed. */
  ghost predicate PrintableMembers(ms: seq<Image>) {
    MembersPrintable(MembersOf(ms)) && forall i :: 0 <= i < |ms| ==> Named(ms[i]) && ms[i].name.Some?
  }

  /** The text of an object with these members. */
  ghost function Braced(cs: seq<text>, depth: nat, fmt: bool): text {
    [LBRACE] + If(fmt, [LF]) + Concat(cs, |cs|) + If(fmt, Tabs(depth)) + [RBRACE]
  }

  lemma MemberTextsOf(ms: seq<Image>, depth: nat, fmt: bool) returns (cs: seq<text>)
    requires ms != [] && PrintableMembers(ms)
    ensures MemberTexts(ms, cs, depth + 1, fmt) && MembersOf(ms) != []
    ensures Braced(cs, depth, fmt) == ValueText(Object(MembersOf(ms)), depth, fmt)
  {
    cs := MemberChunks(MembersOf(ms), depth + 1, fmt);
    ChunksAreTexts(ms, MembersOf(ms), depth + 1, fmt);
    ObjectText(MembersOf(ms), depth, fmt);
  }

  lemma ChunksAreTexts(ms: seq<Image>, members: seq<Member>, d: nat, fmt: bool)
    requires ms != [] && PrintableMembers(ms) && members == MembersOf(ms)
    ensures |members| == |ms| && MemberTexts(ms, MemberChunks(members, d, fmt), d, fmt)
  {
    MembersAt(ms, 0);
    forall i | 0 <= i < |ms|
      ensures Printable(JsonOf(ms[i]))
      ensures MemberChunks(members, d, fmt)[i] == MemberText(MemberOf(ms[i]), i + 1 < |ms|, d, fmt)
    {
      MembersAt(ms, i);
      MemberChunk(members, i, d, fmt);
    }
  }

  lemma ObjectText(ms: seq<Member>, depth: nat, fmt: bool)
    requires ms != [] && MembersPrintable(ms)
    ensures Braced(MemberChunks(ms, depth + 1, fmt), depth, fmt) == ValueText(Object(ms), depth, fmt)
  {
    ConcatIsMembers(ms, depth + 1, fmt);
  }

  lemma MemberTextAt(ms: seq<Image>, cs: seq<text>, d: nat, fmt: bool, i: nat) returns (n: text, v: text)
    requires i < |ms| && MemberTexts(ms, cs, d, fmt)
    ensures Named(ms[i]) && ms[i].name.Some? && Printable(JsonOf(ms[i]))
    ensures n == Literal(ms[i].name.value) && v == ValueText(JsonOf(ms[i]), d, fmt)
    ensures cs[i] == Chunk(n, v, i + 1 < |cs|, d, fmt)
  {
    var value := JsonOf(ms[i]);
    n, v := Literal(ms[i].name.value), ValueText(value, d, fmt);
  }

  /** Prints the name and the value of one member, measures them and goes on to the next child. */
  method PrintMember(ghost item: Item, child: Item, d: nat, fmt: bool, ghost c: Children, ghost i: nat, ghost n: text,
                     ghost v: text)
      returns (str: array<byte>, ret: array<byte>, size: nat, next: Item?)
    requires Walks(item, c)
    requires i < |c.kids| && child == c.kids[i].node && Named(c.images[i]) && c.images[i].name.Some?
    requires Printable(JsonOf(c.images[i])) && n == Literal(c.images[i].name.value)
             && v == ValueText(JsonOf(c.images[i]), d, fmt)
    ensures fresh(str) && Holds(str, 0, n) && fresh(ret) && Holds(ret, 0, v)
    ensures size == |n| + |v| + 2 + if fmt then 2 + d else 0
    ensures next == ItemAt(Roots(c.kids), i + 1) && Walks(item, c)
    decreases c.kids, 1
  {
    NameAt(item, child, c, i);
    str := PrintString(child.name.chars);
    StillWalks(item, c);
    var a;
    label named:
    ret, a, next := PrintEntry(item, child, d, fmt, c, i, v);
    var b := StrLen(str, 0, n);
    size := a + b + 2 + if fmt then 2 + d else 0;
    StillWalks@named(item, c);
  }

  lemma NameAt(item: Item, child: Item, c: Children, i: nat)
    requires Walks(item, c)
    requires i < |c.kids| && child == c.kids[i].node
    ensures Chars(child.name) == c.images[i].name
  {
    ImagesAt(c.kids, i);
  }

  lemma ReckonedGrows(cs: seq<text>, i: nat, n: text, v: text, d: nat, fmt: bool)
    requires i < |cs| && cs[i] == Chunk(n, v, i + 1 < |cs|, d, fmt)
    ensures Reckoned(cs, i + 1, d, fmt) == Reckoned(cs, i, d, fmt) + |n| + |v| + 2 + if fmt then 2 + d else 0
  {
    ConcatStep(cs, i);
  }

  /** An object without members; the indentation is one tab short of the one in front of a closing brace. */
  method ComposeEmpty(out: array<byte>, at: nat, depth: nat, fmt: bool, ghost r: Region)
    requires Writing(out, r, []) && at == r.at && r.end >= at + if fmt then depth + 4 else 3
    modifies out
    ensures Writing(out, r, ValueText(Object([]), depth, fmt)) && Holds(out, at, ValueText(Object([]), depth, fmt))
  {
    var p := Put(out, at, LBRACE, r, []);
    assert [] + [LBRACE] == [LBRACE];
    if fmt {
      p := Put(out, p, LF, r, [LBRACE]);
      p := PutTabs(out, p, depth - 1, r, [LBRACE] + [LF]);
      Assoc([LBRACE], [LF], Tabs(depth - 1));
    }
    ghost var w := [LBRACE] + If(fmt, [LF] + Tabs(depth - 1));
    p := Put(out, p, RBRACE, r, w);
    Terminate(out, p, r, w + [RBRACE]);
  }

  method ComposeMember(out: array<byte>, p: nat, name: array<byte>, entry: array<byte>, more: bool, d: nat, fmt: bool,
                       ghost n: text, ghost v: text, ghost r: Region, ghost w: text)
      returns (q: nat)
    requires name != out && Holds(name, 0, n) && entry != out && Holds(entry, 0, v)
    requires Writing(out, r, w) && p == r.at + |w| && p + |Chunk(n, v, more, d, fmt)| < r.end
    modifies out
    ensures q == p + |Chunk(n, v, more, d, fmt)| && Writing(out, r, w + Chunk(n, v, more, d, fmt))
  {
    ghost var a, b := If(fmt, Tabs(d)) + n, [COLON] + If(fmt, [TAB]);
    q := ComposeName(out, p, name, d, fmt, n, r, w);
    q := Put(out, q, COLON, r, w + a);
    q := PutIf(out, q, fmt, TAB, r, w + a + [COLON]);
    Assoc(w + a, [COLON], If(fmt, [TAB]));
    q := ComposeEnd(out, q, entry, more, fmt, v, r, w + a + b);
    Assoc4(w, a, b, v + EndText(more, fmt));
    Assoc4(a, b, v, EndText(more, fmt));
    Assoc(a, b, v + EndText(more, fmt));
  }

  method ComposeName(out: array<byte>, p: nat, name: array<byte>, d: nat, fmt: bool, ghost n: text, ghost r: Region,
                     ghost w: text)
      returns (q: nat)
    requires name != out && Holds(name, 0, n)
    requires Writing(out, r, w) && p == r.at + |w| && p + |If(fmt, Tabs(d)) + n| < r.end
    modifies out
    ensures q == p + |If(fmt, Tabs(d)) + n| && Writing(out, r, w + (If(fmt, Tabs(d)) + n))
  {
    q := PutTabsIf(out, p, fmt, d, r, w);
    var tmplen := StrLen(name, 0, n);
    q := PutCopy(out, q, name, tmplen, n, r, w + If(fmt, Tabs(d)));
    Assoc(w, If(fmt, Tabs(d)), n);
  }

  method ComposeEnd(out: array<byte>, p: nat, entry: array<byte>, more: bool, fmt: bool, ghost v: text,
                    ghost r: Region, ghost w: text)
      returns (q: nat)
    requires entry != out && Holds(entry, 0, v)
    requires Writing(out, r, w) && p == r.at + |w| && p + |v + EndText(more, fmt)| < r.end
    modifies out
    ensures q == p + |v + EndText(more, fmt)| && Writing(out, r, w + (v + EndText(more, fmt)))
  {
    var n := StrLen(entry, 0, v);
    q := PutCopy(out, p, entry, n, v, r, w);
    q := PutIf(out, q, more, COMMA, r, w + v);
    q := PutIf(out, q, fmt, LF, r, w + v + If(more, [COMMA]));
    Assoc(w + v, If(more, [COMMA]), If(fmt, [LF]));
    Assoc(w, v, EndText(more, fmt));
    Terminate(out, q, r, w + (v + EndText(more, fmt)));
  }

  method ComposeObject(out: array<byte>, names: seq<array<byte>>, entries: seq<array<byte>>,
                       ghost cs: seq<text>, ghost ns: seq<text>, ghost vs: seq<text>, d: nat, fmt: bool,
                       ghost r: Region)
    requires Entries(names, ns) && Entries(entries, vs) && |names| == |entries| == |vs| == |cs|
    requires ObjectChunks(cs, ns, vs, d, fmt) && d > 0
    requires out !in names && out !in entries
    requires Writing(out, r, []) && r.at == 0 && r.end >= |Concat(cs, |cs|)| + 4 + |If(fmt, Tabs(d))|
    modifies out
    ensures Holds(out, 0, Braced(cs, d - 1, fmt))
  {
    ghost var open := [LBRACE] + If(fmt, [LF]);
    var p := Put(out, 0, LBRACE, r, []);
    p := PutIf(out, p, fmt, LF, r, [LBRACE]);
    Terminate(out, p, r, open);
    p := ComposeMembers(out, p, names, entries, cs, ns, vs, d, fmt, r, open);
    ghost var w := open + Concat(cs, |cs|);
    p := PutTabsIf(out, p, fmt, d - 1, r, w);
    p := Put(out, p, RBRACE, r, w + If(fmt, Tabs(d - 1)));
    Terminate(out, p, r, w + If(fmt, Tabs(d - 1)) + [RBRACE]);
  }

  method ComposeMembers(out: array<byte>, p: nat, names: seq<array<byte>>, entries: seq<array<byte>>,
                        ghost cs: seq<text>, ghost ns: seq<text>, ghost vs: seq<text>, d: nat, fmt: bool,
                        ghost r: Region, ghost open: text)
      returns (q: nat)
    requires Entries(names, ns) && Entries(entries, vs) && |names| == |entries| == |vs| == |cs|
    requires ObjectChunks(cs, ns, vs, d, fmt)
    requires out !in names && out !in entries
    requires Writing(out, r, open) && p == r.at + |open| && p + |Concat(cs, |cs|)| < r.end
    modifies out
    ensures q == p + |Concat(cs, |cs|)| && Writing(out, r, open + Concat(cs, |cs|))
  {
    q := p;
    Composed(open, cs);
    for i := 0 to |entries|
      invariant Entries(names, ns) && Entries(entries, vs)
      invariant q == p + |Concat(cs, i)| && Writing(out, r, open + Concat(cs, i))
    {
      q := ComposeAt(out, q, names, entries, i, cs, ns, vs, d, fmt, r, open);
    }
  }

  lemma Composed(open: text, cs: seq<text>)
    ensures open + Concat(cs, 0) == open
  {
  }

  method ComposeAt(out: array<byte>, p: nat, names: seq<array<byte>>, entries: seq<array<byte>>, i: nat,
                   ghost cs: seq<text>, ghost ns: seq<text>, ghost vs: seq<text>, d: nat, fmt: bool,
                   ghost r: Region, ghost open: text)
      returns (q: nat)
    requires Entries(names, ns) && Entries(entries, vs) && i < |names| == |entries| == |vs| == |cs|
    requires ObjectChunks(cs, ns, vs, d, fmt) && out !in names && out !in entries
    requires Writing(out, r, open + Concat(cs, i)) && p == r.at + |open + Concat(cs, i)|
    requires r.at + |open| + |Concat(cs, |cs|)| < r.end
    modifies out
    ensures q == r.at + |open + Concat(cs, i + 1)| && Writing(out, r, open + Concat(cs, i + 1))
  {
    var more := i != |entries| - 1;
    assert cs[i] == Chunk(ns[i], vs[i], more, d, fmt);
    ConcatGrows(cs, i + 1);
    Assoc(open, Concat(cs, i), cs[i]);
    q := ComposeMember(out, p, names[i], entries[i], more, d, fmt, ns[i], vs[i], r, open + Concat(cs, i));
  }
}
