/** The recursive-descent parser, building its tree node by node on the heap. */
module Parser {
  import opened Options
  import opened Bytes
  import opened Literals
  import opened JsonText
  import opened Items
  import opened Trees
  import StringParser
  import G = JsonGrammar

  // ---------------------------------------------------------------- lexical level

  /** skip */
  method Skip(s: text, i: nat) returns (p: nat)
    requires i <= |s|
    ensures i <= p <= |s| && s[p..] == G.Skip(s[i..])
  {
    p := i;
    while At(s, p) != 0 && At(s, p) <= SPACE
      invariant i <= p <= |s| && G.Skip(s[p..]) == G.Skip(s[i..])
      decreases |s| - p
    {
      assert s[p..][0] == s[p] && s[p..][1..] == s[p + 1..];
      p := p + 1;
    }
    assert p < |s| ==> s[p..][0] == s[p];
  }

  /** A run of digits on top of `n`; `count` is its length. */
  method ScanDigits(s: text, i: nat, n: nat) returns (m: nat, count: nat, j: nat)
    requires i <= |s|
    ensures i <= j <= |s| && (m, count, s[j..]) == G.ScanDigits(s[i..], n, 0)
  {
    m, count, j := n, 0, i;
    while G.IsDigit(At(s, j))
      invariant i <= j <= |s| && G.ScanDigits(s[j..], m, count) == G.ScanDigits(s[i..], n, 0)
      decreases |s| - j
    {
      assert s[j..][0] == s[j] && s[j..][1..] == s[j + 1..];
      m, count, j := m * 10 + (s[j] - ZERO), count + 1, j + 1;
    }
    assert j < |s| ==> s[j..][0] == s[j];
  }

  lemma {:induction false} PeekAt(s: text, i: nat)
    requires i <= |s|
    ensures Peek(s[i..]) == At(s, i)
    ensures i < |s| ==> s[i..][1..] == s[i + 1..]
  {
  }

  /** The exponent of parse_number: `subscale * signsubscale`. */
  method ScanExponent(s: text, i: nat) returns (e: int, j: nat)
    requires i <= |s|
    ensures i <= j <= |s| && (e, s[j..]) == G.ScanExponent(s[i..])
  {
    PeekAt(s, i);
    e, j := 0, i;
    if At(s, j) == LOWER_E || At(s, j) == UPPER_E {
      j := j + 1;
      PeekAt(s, j);
      var sign: int := 1;
      if At(s, j) == PLUS {
        j := j + 1;
      } else if At(s, j) == MINUS {
        sign, j := -1, j + 1;
      }
      var subscale, count;
      subscale, count, j := ScanDigits(s, j, 0);
      e := subscale * sign;
    }
  }

  /** parse_number */
  method ParseNumber(item: Item, s: text, i: nat) returns (end: nat)
    requires i < |s| && (s[i] == MINUS || G.IsDigit(s[i]))
    modifies item`kind, item`mantissa, item`exponent
    ensures item.kind == NumberKind && i <= end <= |s|
    ensures G.ParseNumber(s[i..]) == G.Ok(Number(item.mantissa, item.exponent), s[end..])
  {
    PeekAt(s, i);
    var sign: int := 1;
    end := i;
    if At(s, end) == MINUS {
      sign, end := -1, end + 1;
    }
    var n, scale, e;
    n, end := ScanInteger(s, end);
    n, scale, end := ScanFraction(s, end, n);
    e, end := ScanExponent(s, end);
    item.kind, item.mantissa, item.exponent := NumberKind, sign * n, e - scale;
  }

  method ScanInteger(s: text, i: nat) returns (n: nat, end: nat)
    requires i <= |s|
    ensures i <= end <= |s| && (n, s[end..]) == G.ScanInteger(s[i..])
  {
    PeekAt(s, i);
    n, end := 0, i;
    if At(s, end) == ZERO {
      end := end + 1;
    }
    PeekAt(s, end);
    if ZERO < At(s, end) <= NINE {
      var count;
      n, count, end := ScanDigits(s, end, 0);
    }
  }

  /** The fraction goes on top of the integer part and is counted in `scale`. */
  method ScanFraction(s: text, i: nat, n: nat) returns (m: nat, scale: nat, end: nat)
    requires i <= |s|
    ensures i <= end <= |s| && (m, scale, s[end..]) == G.ScanFraction(s[i..], n)
  {
    PeekAt(s, i);
    m, scale, end := n, 0, i;
    if At(s, i) == DOT {
      PeekAt(s, i + 1);
      if G.IsDigit(At(s, i + 1)) {
        m, scale, end := ScanDigits(s, i + 1, n);
      }
    }
  }

  // ---------------------------------------------------------------- values

  /** An item that has just been made: no value yet, possibly a name of its own. */
  ghost predicate Leaf(item: Item)
    reads item
  {
    item.Blank() && !item.isReference && !item.nameIsConst
  }

  /** The cells of the item itself. */
  ghost function Own(item: Item): set<object>
    reads item`isReference, item`nameIsConst, item`valuestring, item`name
  {
    {item} + Strings(item)
  }

  ghost function LeafTree(item: Item): Tree
    reads item`isReference, item`nameIsConst, item`valuestring, item`name
  {
    Tree(Shape(item, Strings(item), []), {}, Own(item))
  }

  lemma LeafIsTree(item: Item)
    requires !item.isReference && item.child == null && OwnNames(item)
    ensures Grown(LeafTree(item)) && ImageOf(LeafTree(item).shape).kids == []
  {
  }

  /** parse_string on an item. The decoded buffer becomes the string of the item. */
  method ParseString(item: Item, s: text, i: nat, live: Live) returns (ok: bool, end: nat, live': Live)
    requires i <= |s| && !G.ParseString(s[i..]).Overrun?
    modifies item`kind, item`valuestring
    ensures ok == G.ParseString(s[i..]).Ok?
    ensures !ok ==> unchanged(item) && live' == live
    ensures ok ==> item.kind == StringKind && item.valuestring != null && fresh(item.valuestring)
    ensures ok ==> i < end <= |s| && G.ParseString(s[i..]) == G.Ok(item.valuestring.chars, s[end..])
    ensures ok ==> live' == live + {item.valuestring}
  {
    PeekAt(s, i);
    ok, end, live' := false, 0, live;
    var out;
    out, end := StringParser.ParseString(s, i);
    if out != null {
      var str;
      str, live' := Freeze(out, live, Decoded(s[i + 1..]));
      item.valuestring, item.kind := str, StringKind;
      ok := true;
      assert s[i..][1 + LiteralLength(s[i + 1..])..] == s[end..];
    }
  }

  /** The buffer is the one allocation behind the string. */
  method Freeze(out: array<byte>, live: Live, ghost t: text) returns (str: Str, live': Live)
    requires Holds(out, 0, t)
    ensures fresh(str) && str.chars == t && live' == live + {str}
  {
    var n := StrLen(out, 0, t);
    assert forall j :: 0 <= j < n ==> out[..n][j] == t[j];
    str, live' := NewStr(out[..n], live);
  }

  // ---------------------------------------------------------------- lists under construction

  /** `child`, whose own tree is still growing, hangs behind the finished trees under `parent`. */
  ghost predicate Open(parent: Item, f: Forest, child: Item)
    reads parent`child, f.tops, f.below, child`next, child`prev
  {
    Planted(parent, f) && child != parent && child !in f.tops && child !in f.below
    && (TopsAreRoots(f.kids); IsList(parent, Roots(f.kids) + [child]))
  }

  /** Making a new item and hanging it behind the last one. */
  method AddChild(parent: Item, last: Item?, live: Live, ghost f: Forest) returns (child: Item, live': Live)
    requires Built(parent, f) && last == ItemAt(Roots(f.kids), |f.kids| - 1)
    modifies parent`child, f.tops`next
    ensures fresh(child) && Leaf(child) && child.name == null && live' == live + {child}
    ensures Open(parent, f, child) && Images(f.kids) == old(Images(f.kids))
  {
    child, live' := NewItem(live);
    StillBuilt(parent, f);
    HangChild(parent, last, child, f);
  }

  method HangChild(parent: Item, last: Item?, child: Item, ghost f: Forest)
    requires Built(parent, f) && last == ItemAt(Roots(f.kids), |f.kids| - 1)
    requires Single(child) && child != parent && child !in f.tops && child !in f.below
    modifies parent`child, f.tops`next, child`prev
    ensures Open(parent, f, child) && Images(f.kids) == old(Images(f.kids))
  {
    TopsAreRoots(f.kids);
    LinkLast(parent, last, child, Roots(f.kids), f.tops, f.below, {});
    StillLinked(f.kids, false, f.tops, f.below);
    SameImages(f.kids, f.tops, f.below);
  }

  twostate lemma StillOpen(new parent: Item, new f: Forest, new child: Item)
    requires old(allocated(parent)) && old(allocated(f)) && old(allocated(child))
    requires old(Open(parent, f, child)) && unchanged(f.tops) && unchanged(f.below)
    requires parent.child == old(parent.child) && child.next == old(child.next) && child.prev == old(child.prev)
    ensures Open(parent, f, child) && Images(f.kids) == old(Images(f.kids))
  {
    StillLinked(f.kids, false, f.tops, f.below);
    SameImages(f.kids, f.tops, f.below);
    TopsAreRoots(f.kids);
  }

  /** The list under `parent`, which ends with `last`, and the cells that have been allocated for it since `live`. */
  ghost predicate Growing(parent: Item, last: Item?, f: Forest, live: Live, now: Live)
    reads parent`child, f.tops, f.below
  {
    match f
    case Forest(kids, _, _, cells) =>
      Built(parent, f) && last == ItemAt(Roots(kids), |kids| - 1) && now == live + cells
  }

  // ---------------------------------------------------------------- the recursive descent

  /** `ok` and `end` are what the grammar says about the text from `i` on, and `v` is the value read. */
  ghost predicate Agrees<T>(p: G.Parse<T>, ok: bool, s: text, i: nat, end: nat, v: T) {
    match p
    case Ok(value, rest) => ok && i < end <= |s| && value == v && rest == s[end..]
    case _ => !ok
  }

  /** The same, with the white space behind the value skipped. */
  ghost predicate AgreesSkipped<T>(p: G.Parse<T>, ok: bool, s: text, i: nat, end: nat, v: T) {
    match p
    case Ok(value, rest) => ok && i < end <= |s| && value == v && s[end..] == G.Skip(rest)
    case _ => !ok
  }

  /** parse_value. `own` are the cells of the item itself. After a failure `d` holds what had been built so far. */
  method ParseValue(item: Item, s: text, i: nat, live: Live, ghost own: set<object>)
      returns (ok: bool, end: nat, live': Live, ghost d: Tree)
    requires i <= |s| && !G.ParseValue(s[i..]).Overrun?
    requires Leaf(item) && own == Own(item) && own <= live
    modifies item`kind, item`child, item`valuestring, item`mantissa, item`exponent
    ensures d.shape.node == item && Grown(d) && own <= d.cells && live' == live + d.cells
    ensures fresh(d.under) && forall o :: o in d.cells && o !in own ==> fresh(o)
    ensures Agrees(G.ParseValue(s[i..]), ok, s, i, end, JsonOf(ImageOf(d.shape)))
    decreases |s| - i, 4
  {
    PeekAt(s, i);
    ok, end, live', d := true, i, live, LeafTree(item);
    if StartsWith(s, i, NULL) || StartsWith(s, i, FALSE) || StartsWith(s, i, TRUE) {
      end := ParseWord(item, s, i);
    } else if At(s, i) == QUOTE {
      end, live', d := ParseText(item, s, i, live, own);
    } else if At(s, i) == MINUS || G.IsDigit(At(s, i)) {
      end := ParseNumber(item, s, i);
      LeafIsTree(item);
    } else if At(s, i) == LBRACKET {
      ok, end, live', d := ParseArray(item, s, i, live, own);
    } else if At(s, i) == LBRACE {
      ok, end, live', d := ParseObject(item, s, i, live, own);
    } else {
      ok := false;
      LeafIsTree(item);
    }
  }

  /** The three words. */
  method ParseWord(item: Item, s: text, i: nat) returns (end: nat)
    requires i <= |s| && (StartsWith(s, i, NULL) || StartsWith(s, i, FALSE) || StartsWith(s, i, TRUE))
    requires Leaf(item)
    modifies item`kind
    ensures Grown(LeafTree(item))
    ensures Agrees(G.ParseValue(s[i..]), true, s, i, end, JsonOf(ImageOf(LeafTree(item).shape)))
  {
    LeafIsTree(item);
    if StartsWith(s, i, NULL) {
      item.kind, end := NullKind, i + |NULL|;
    } else if StartsWith(s, i, FALSE) {
      item.kind, end := FalseKind, i + |FALSE|;
    } else {
      item.kind, end := TrueKind, i + |TRUE|;
    }
    LeafIsTree(item);
  }

  /** A string as a value. */
  method ParseText(item: Item, s: text, i: nat, live: Live, ghost own: set<object>)
      returns (end: nat, live': Live, ghost d: Tree)
    requires i < |s| && s[i] == QUOTE && !G.ParseValue(s[i..]).Overrun?
    requires Leaf(item) && own == Own(item) && own <= live
    modifies item`kind, item`valuestring
    ensures d.shape.node == item && Grown(d) && own <= d.cells && live' == live + d.cells
    ensures d.under == {} && forall o :: o in d.cells && o !in own ==> fresh(o)
    ensures Agrees(G.ParseValue(s[i..]), true, s, i, end, JsonOf(ImageOf(d.shape)))
  {
    PeekAt(s, i);
    var ok;
    ok, end, live' := ParseString(item, s, i, live);
    LeafIsTree(item);
    d := LeafTree(item);
    assert d.cells == own + {item.valuestring};
  }

  /** `!strncmp(s + i, w, strlen(w))` */
  predicate StartsWith(s: text, i: nat, w: text)
    requires i <= |s|
  {
    w <= s[i..]
  }

  /** `skip(parse_value(item, skip(s + i)))` */
  method ParseSkipped(item: Item, s: text, i: nat, live: Live, ghost own: set<object>)
      returns (ok: bool, end: nat, live': Live, ghost d: Tree)
    requires i <= |s| && !G.ParseSkipped(s[i..]).Overrun?
    requires Leaf(item) && own == Own(item) && own <= live
    modifies item`kind, item`child, item`valuestring, item`mantissa, item`exponent
    ensures d.shape.node == item && Grown(d) && own <= d.cells && live' == live + d.cells
    ensures fresh(d.under) && forall o :: o in d.cells && o !in own ==> fresh(o)
    ensures AgreesSkipped(G.ParseSkipped(s[i..]), ok, s, i, end, JsonOf(ImageOf(d.shape)))
    decreases |s| - i, 5
  {
    end := Skip(s, i);
    ok, end, live', d := ParseValue(item, s, end, live, own);
    if ok {
      label parsed:
      end := Skip(s, end);
      StillGrown@parsed(d);
    }
  }

  /** Parsing the value of a child that already hangs in its list. */
  method FillChild(parent: Item, child: Item, s: text, i: nat, live: Live, ghost own: set<object>, ghost f: Forest)
      returns (ok: bool, end: nat, live': Live, ghost d: Tree, ghost f': Forest)
    requires i <= |s| && !G.ParseSkipped(s[i..]).Overrun?
    requires Leaf(child) && own == Own(child) && own <= live && own !! f.cells && Open(parent, f, child)
    modifies child`kind, child`child, child`valuestring, child`mantissa, child`exponent
    ensures d.shape.node == child && own <= d.cells && live' == live + d.cells
    ensures forall o :: o in d.cells && o !in own ==> fresh(o)
    ensures Extends(f, d, f') && Built(parent, f') && Images(f'.kids) == old(Images(f.kids)) + [ImageOf(d.shape)]
    ensures AgreesSkipped(G.ParseSkipped(s[i..]), ok, s, i, end, JsonOf(ImageOf(d.shape)))
    decreases |s| - i, 6
  {
    ok, end, live', d := ParseSkipped(child, s, i, live, own);
    StillOpen(parent, f, child);
    f' := Appended(parent, f, d);
  }

  /** One item of an array: a new child is linked and its value parsed. */
  method ParseItem(parent: Item, last: Item?, s: text, i: nat, live: Live, ghost f: Forest)
      returns (ok: bool, p: nat, child: Item, live': Live, ghost d: Tree, ghost f': Forest)
    requires 0 < i <= |s| && !G.ParseSkipped(s[i..]).Overrun?
    requires Built(parent, f) && last == ItemAt(Roots(f.kids), |f.kids| - 1)
    modifies parent`child, f.tops`next
    ensures d.shape.node == child && child in d.cells && live' == live + d.cells
    ensures forall o :: o in d.cells ==> fresh(o)
    ensures Extends(f, d, f') && Built(parent, f') && Images(f'.kids) == old(Images(f.kids)) + [ImageOf(d.shape)]
    ensures AgreesSkipped(G.ParseSkipped(s[i..]), ok, s, i, p, JsonOf(ImageOf(d.shape)))
    decreases |s| - i, 7
  {
    child, live' := AddChild(parent, last, live, f);
    ok, p, live', d, f' := FillChild(parent, child, s, i, live', {child}, f);
  }

  /** One turn of parse_array: `whole` is what the grammar says about all items, of which those in `f` were read
      before. */
  method ItemTurn(parent: Item, last: Item?, s: text, i: nat, now: Live, ghost live: Live,
                  ghost whole: G.Parse<seq<Json>>, ghost f: Forest)
      returns (ok: bool, p: nat, child: Item, now': Live, ghost f': Forest)
    requires i > 0 && ItemsPending(whole, JsonsOf(Images(f.kids)), s, i) && Growing(parent, last, f, live, now)
    modifies parent`child, f.tops`next
    ensures Growing(parent, child, f', live, now')
    ensures forall o :: o in f'.cells && o !in f.cells ==> fresh(o)
    ensures forall o :: o in f'.tops && o !in f.tops ==> fresh(o)
    ensures ItemsRead(whole, JsonsOf(Images(f'.kids)), ok, s, i, p) && (ok ==> i < p <= |s|)
    decreases |s| - i, 9
  {
    ghost var ms := Images(f.kids);
    ghost var d;
    ItemInBounds(whole, JsonsOf(ms), s, i);
    ok, p, child, now', d, f' := ParseItem(parent, last, s, i, now, f);
    Grows(parent, f, d, f', live, now, now');
    ItemsAdvance(whole, ms, ImageOf(d.shape), ok, s, i, p);
  }

  lemma Grows(parent: Item, f: Forest, d: Tree, f': Forest, live: Live, now: Live, now': Live)
    requires Extends(f, d, f') && Built(parent, f') && now == live + f.cells && now' == now + d.cells
    ensures Growing(parent, d.shape.node, f', live, now')
  {
  }

  /** The items `vs` have been read, and the next one is behind `i`. */
  ghost predicate ItemsPending(whole: G.Parse<seq<Json>>, vs: seq<Json>, s: text, i: nat) {
    match whole
    case Overrun => false
    case Fail => i <= |s| && G.ParseItems(s[i..]).Fail?
    case Ok(value, rest) =>
      i <= |s| && var r := G.ParseItems(s[i..]); r.Ok? && value == vs + r.value && rest == r.rest
  }

  /** The items `vs` have been read, and `p` is behind the white space that follows them. */
  ghost predicate ItemsRead(whole: G.Parse<seq<Json>>, vs: seq<Json>, ok: bool, s: text, i: nat, p: nat) {
    match whole
    case Overrun => false
    case Fail => ok ==>
        i < p <= |s| && At(s, p) != RBRACKET && (At(s, p) == COMMA ==> ItemsPending(whole, vs, s, p + 1))
    case Ok(value, rest) =>
      ok && i < p <= |s|
      && if At(s, p) == COMMA then ItemsPending(whole, vs, s, p + 1)
         else At(s, p) == RBRACKET && value == vs && rest == s[p + 1..]
  }

  lemma {:induction false} ItemInBounds(whole: G.Parse<seq<Json>>, vs: seq<Json>, s: text, i: nat)
    requires i <= |s| && ItemsPending(whole, vs, s, i)
    ensures !G.ParseSkipped(s[i..]).Overrun?
  {
  }

  /** One more has been read, or has failed to be read. */
  lemma {:induction false} ItemsAdvance(whole: G.Parse<seq<Json>>, ms: seq<Image>, m: Image, ok: bool, s: text,
                                        i: nat, p: nat)
    requires i <= |s| && ItemsPending(whole, JsonsOf(ms), s, i)
             && AgreesSkipped(G.ParseSkipped(s[i..]), ok, s, i, p, JsonOf(m))
    ensures ItemsRead(whole, JsonsOf(ms + [m]), ok, s, i, p)
  {
    assert (ms + [m])[..|ms|] == ms;
    if ok {
      G.FirstItem(s[i..]);
      PeekAt(s, p);
      G.JoinedTwice(whole, JsonsOf(ms), G.ParseItems(s[i..]), JsonOf(m), G.ItemsAfter(s[p..]));
    }
  }

  /** The items of parse_array; `p` is behind the white space that follows the last of them. */
  method ParseItems(item: Item, s: text, i: nat, live: Live, ghost whole: G.Parse<seq<Json>>)
      returns (ok: bool, p: nat, live': Live, ghost f: Forest)
    requires i > 0 && ItemsPending(whole, [], s, i) && item.child == null
    modifies item`child
    ensures Built(item, f) && live' == live + f.cells && forall o :: o in f.cells ==> fresh(o)
    ensures ItemsRead(whole, JsonsOf(Images(f.kids)), ok, s, i, p) && (ok ==> At(s, p) != COMMA)
    decreases |s| - i, 10
  {
    var child;
    ok, p, child, live', f := ItemTurn(item, null, s, i, live, live, whole, NOTHING);
    ok, p, live', f := MoreItems(item, ok, child, s, i, p, live', live, whole, f);
  }

  /** The loop of parse_array. */
  method MoreItems(item: Item, ok0: bool, last: Item, s: text, ghost i: nat, p0: nat, now: Live,
                   ghost live: Live, ghost whole: G.Parse<seq<Json>>, ghost f0: Forest)
      returns (ok: bool, p: nat, live': Live, ghost f: Forest)
    requires i > 0 && Growing(item, last, f0, live, now) && ItemsRead(whole, JsonsOf(Images(f0.kids)), ok0, s, i, p0)
    requires ok0 ==> i < p0 <= |s|
    modifies item`child, f0.tops`next
    ensures Built(item, f) && live' == live + f.cells
    ensures forall o :: o in f.cells && o !in f0.cells ==> fresh(o)
    ensures ItemsRead(whole, JsonsOf(Images(f.kids)), ok, s, i, p) && (ok ==> At(s, p) != COMMA)
    decreases |s| - i, 9
  {
    ok, p, live', f := ok0, p0, now, f0;
    var child := last;
    while ok && At(s, p) == COMMA
      invariant Growing(item, child, f, live, live') && ItemsRead(whole, JsonsOf(Images(f.kids)), ok, s, i, p)
      invariant forall o :: o in f.cells && o !in f0.cells ==> fresh(o)
      invariant forall o :: o in f.tops && o !in f0.tops ==> fresh(o)
      invariant ok ==> i < p <= |s|
      decreases if ok then 1 + |s| - p else 0
    {
      ok, p, child, live', f := ItemTurn(item, child, s, p + 1, live', live, whole, f);
    }
  }

  lemma ItemsEnd(whole: G.Parse<seq<Json>>, vs: seq<Json>, ok: bool, s: text, i: nat, p: nat)
    requires i <= |s| && whole == G.ParseItems(s[i..]) && ItemsRead(whole, vs, ok, s, i, p)
    requires ok ==> At(s, p) != COMMA
    ensures Agrees(G.ParseItems(s[i..]), ok && At(s, p) == RBRACKET, s, i, p + 1, vs)
  {
  }

  /** parse_array */
  method ParseArray(item: Item, s: text, i: nat, live: Live, ghost own: set<object>)
      returns (ok: bool, end: nat, live': Live, ghost d: Tree)
    requires i < |s| && s[i] == LBRACKET && !G.ParseValue(s[i..]).Overrun?
    requires Leaf(item) && own == Own(item) && own <= live
    modifies item`kind, item`child
    ensures d.shape.node == item && Grown(d) && own <= d.cells && live' == live + d.cells
    ensures fresh(d.under) && forall o :: o in d.cells && o !in own ==> fresh(o)
    ensures Agrees(G.ParseValue(s[i..]), ok, s, i, end, JsonOf(ImageOf(d.shape)))
    decreases |s| - i, 3
  {
    PeekAt(s, i);
    item.kind := ArrayKind;
    var p := Skip(s, i + 1);
    ok, end, live', d := ParseBracketed(item, s, p, live, own);
    PeekAt(s, i);
    ArrayRead(s, i, p, ok, end, JsonsOf(Images(d.shape.kids)));
    ArrayJson(d.shape);
  }

  /** parse_array behind the opening bracket. */
  method ParseBracketed(item: Item, s: text, p: nat, live: Live, ghost own: set<object>)
      returns (ok: bool, end: nat, live': Live, ghost d: Tree)
    requires 0 < p <= |s| && (At(s, p) != RBRACKET ==> !G.ParseItems(s[p..]).Overrun?)
    requires Leaf(item) && own == Own(item) && own <= live
    modifies item`child
    ensures d.shape.node == item && Grown(d) && own <= d.cells && live' == live + d.cells
    ensures fresh(d.under) && forall o :: o in d.cells && o !in own ==> fresh(o)
    ensures Bracketed(s, p, ok, end, JsonsOf(Images(d.shape.kids)))
    decreases |s| - p, 12
  {
    ghost var f := NOTHING;
    ok, end, live' := true, p + 1, live;
    if At(s, p) != RBRACKET {
      ok, end, live', f := ParseAllItems(item, s, p, live);
    }
    d := ListTree(item, own, f);
  }

  /** An item with the list that has been built under it is a tree. */
  twostate lemma ListTree(new item: Item, new own: set<object>, new f: Forest) returns (d: Tree)
    requires old(allocated(item)) && old(allocated(own))
    requires Built(item, f) && !item.isReference && OwnNames(item) && own == Own(item)
    requires (forall o :: o in f.cells ==> fresh(o)) && own == old(Own(item))
    ensures d.shape == Shape(item, Strings(item), f.kids) && Grown(d) && d.cells == own + f.cells && fresh(d.under)
  {
    NodesAreCells(f.kids, f.tops, f.below, f.cells);
    TreeOver(item, f);
    d := Tree(Shape(item, Strings(item), f.kids), f.tops + f.below, own + f.cells);
  }

  /** The items and the closing bracket. */
  method ParseAllItems(item: Item, s: text, p: nat, live: Live)
      returns (ok: bool, end: nat, live': Live, ghost f: Forest)
    requires 0 < p <= |s| && !G.ParseItems(s[p..]).Overrun? && item.child == null
    modifies item`child
    ensures Built(item, f) && live' == live + f.cells && forall o :: o in f.cells ==> fresh(o)
    ensures Agrees(G.ParseItems(s[p..]), ok, s, p, end, JsonsOf(Images(f.kids)))
    decreases |s| - p, 11
  {
    ghost var whole := G.ParseItems(s[p..]);
    ok, end, live', f := ParseItems(item, s, p, live, whole);
    ItemsEnd(whole, JsonsOf(Images(f.kids)), ok, s, p, end);
    ok, end := ok && At(s, end) == RBRACKET, end + 1;
  }

  /** Nothing but the closing bracket, or items. */
  ghost predicate Bracketed(s: text, p: nat, ok: bool, end: nat, vs: seq<Json>)
    requires p <= |s|
  {
    if At(s, p) == RBRACKET then ok && end == p + 1 && vs == []
    else Agrees(G.ParseItems(s[p..]), ok, s, p, end, vs)
  }

  lemma ArrayRead(s: text, i: nat, p: nat, ok: bool, end: nat, vs: seq<Json>)
    requires i < |s| && s[i] == LBRACKET && i < p <= |s| && s[p..] == G.Skip(s[i + 1..]) && Bracketed(s, p, ok, end, vs)
    requires !G.ParseValue(s[i..]).Overrun?
    ensures Agrees(G.ParseValue(s[i..]), ok, s, i, end, Array(vs))
  {
    PeekAt(s, i);
    PeekAt(s, p);
  }

  lemma ArrayJson(d: Shape)
    requires d.node.kind == ArrayKind
    ensures JsonOf(ImageOf(d)) == Array(JsonsOf(Images(d.kids)))
  {
  }

  // ---------------------------------------------------------------- objects

  /** The name of the member at `i` and its colon have been read up to `p`: what remains is the value. */
  ghost predicate NameRead(s: text, i: nat, ok: bool, p: nat, name: Str?)
    requires i <= |s|
  {
    match G.ParseMember(s[i..])
    case Overrun => false
    case Fail => ok ==> i < p <= |s| && name != null && G.ParseSkipped(s[p..]).Fail?
    case Ok(m, rest) =>
      ok && i < p <= |s| && name != null && G.ParseSkipped(s[p..]) == G.Ok(m.value, rest) && m.name == name.chars
  }

  lemma {:induction false} NameAndColon(s: text, i: nat, p: nat, name: Str)
    requires i < p <= |s| && G.ParseString(G.Skip(s[i..])).Ok? && G.ParseString(G.Skip(s[i..])).value == name.chars
    requires s[p..] == G.Skip(G.ParseString(G.Skip(s[i..])).rest) && !G.ParseMember(s[i..]).Overrun?
    ensures NameRead(s, i, At(s, p) == COLON, p + 1, name)
  {
    PeekAt(s, p);
  }

  lemma {:induction false} NoName(s: text, i: nat)
    requires i <= |s| && !G.ParseMember(s[i..]).Overrun?
    ensures !G.ParseString(G.Skip(s[i..])).Overrun?
    ensures G.ParseString(G.Skip(s[i..])).Fail? ==> G.ParseMember(s[i..]).Fail?
  {
  }

  /** `skip(parse_string(child, skip(s + i)))` */
  method ReadName(child: Item, s: text, i: nat, live: Live) returns (ok: bool, p: nat, live': Live)
    requires i <= |s| && !G.ParseString(G.Skip(s[i..])).Overrun?
    modifies child`kind, child`valuestring
    ensures ok == G.ParseString(G.Skip(s[i..])).Ok?
    ensures !ok ==> unchanged(child) && live' == live
    ensures ok ==> child.valuestring != null && fresh(child.valuestring) && live' == live + {child.valuestring}
    ensures ok ==> child.valuestring.chars == G.ParseString(G.Skip(s[i..])).value
    ensures ok ==> i < p <= |s| && s[p..] == G.Skip(G.ParseString(G.Skip(s[i..])).rest)
  {
    p := Skip(s, i);
    ok, p, live' := ParseString(child, s, p, live);
    if ok {
      p := Skip(s, p);
    }
  }

  /** The string that has just been read becomes the name. */
  method TakeName(child: Item)
    requires child.valuestring != null && child.child == null && !child.isReference && !child.nameIsConst
    modifies child`valuestring, child`name
    ensures Leaf(child) && child.name == old(child.valuestring) && Strings(child) == {child.name}
  {
    child.name, child.valuestring := child.valuestring, null;
  }

  /** The name of a member: read as a string, then moved to its place. */
  method ParseName(child: Item, s: text, i: nat, live: Live) returns (ok: bool, p: nat, live': Live)
    requires 0 < i <= |s| && !G.ParseMember(s[i..]).Overrun? && Leaf(child) && child.name == null && child in live
    modifies child`kind, child`valuestring, child`name
    ensures Leaf(child) && (child.name != null ==> fresh(child.name)) && live' == live + Own(child)
    ensures NameRead(s, i, ok, p, child.name)
  {
    NoName(s, i);
    ok, p, live' := ReadName(child, s, i, live);
    if ok {
      TakeName(child);
      NameAndColon(s, i, p, child.name);
      ok, p := At(s, p) == COLON, p + 1;
    }
  }

  /** A new child with its name. */
  method AddNamed(parent: Item, last: Item?, s: text, i: nat, live: Live, ghost f: Forest)
      returns (ok: bool, p: nat, child: Item, live': Live, ghost own: set<object>)
    requires 0 < i <= |s| && !G.ParseMember(s[i..]).Overrun?
    requires Built(parent, f) && last == ItemAt(Roots(f.kids), |f.kids| - 1)
    modifies parent`child, f.tops`next
    ensures Leaf(child) && own == Own(child) && (forall o :: o in own ==> fresh(o)) && live' == live + own
    ensures Open(parent, f, child) && Images(f.kids) == old(Images(f.kids))
    ensures NameRead(s, i, ok, p, child.name)
  {
    child, live' := AddChild(parent, last, live, f);
    label added:
    ok, p, live' := ParseName(child, s, i, live');
    StillOpen@added(parent, f, child);
    own := Own(child);
  }

  lemma MemberDone(s: text, i: nat, p: nat, ok: bool, end: nat, m: Image, name: Str)
    requires i <= |s| && NameRead(s, i, true, p, name) && m.name == Some(name.chars)
    requires AgreesSkipped(G.ParseSkipped(s[p..]), ok, s, p, end, JsonOf(m))
    ensures AgreesSkipped(G.ParseMember(s[i..]), ok, s, i, end, MemberOf(m))
  {
  }

  /** The value of a child that has its name. */
  method FillNamed(parent: Item, child: Item, s: text, ghost i: nat, p: nat, live: Live, ghost own: set<object>,
                   ghost f: Forest)
      returns (ok: bool, end: nat, live': Live, ghost d: Tree, ghost f': Forest)
    requires 0 < i <= |s| && !G.ParseMember(s[i..]).Overrun? && NameRead(s, i, true, p, child.name)
    requires Leaf(child) && own == Own(child) && own <= live && own !! f.cells && Open(parent, f, child)
    modifies child`kind, child`child, child`valuestring, child`mantissa, child`exponent
    ensures d.shape.node == child && own <= d.cells && live' == live + d.cells
    ensures forall o :: o in d.cells && o !in own ==> fresh(o)
    ensures Extends(f, d, f') && Built(parent, f') && Images(f'.kids) == old(Images(f.kids)) + [ImageOf(d.shape)]
    ensures AgreesSkipped(G.ParseMember(s[i..]), ok, s, i, end, MemberOf(ImageOf(d.shape)))
    decreases |s| - p, 7
  {
    ok, end, live', d, f' := FillChild(parent, child, s, p, live, own, f);
    MemberDone(s, i, p, ok, end, ImageOf(d.shape), child.name);
  }

  lemma CloseLeaf(parent: Item, f: Forest, child: Item) returns (f': Forest)
    requires Open(parent, f, child) && Leaf(child) && f.cells !! Own(child)
    ensures var d := LeafTree(child);
            Extends(f, d, f') && Built(parent, f') && Images(f'.kids) == Images(f.kids) + [ImageOf(d.shape)]
  {
    LeafIsTree(child);
    f' := Appended(parent, f, LeafTree(child));
  }

  /** One member of an object. */
  method ParseMember(parent: Item, last: Item?, s: text, i: nat, live: Live, ghost f: Forest)
      returns (ok: bool, p: nat, child: Item, live': Live, ghost d: Tree, ghost f': Forest)
    requires 0 < i <= |s| && !G.ParseMember(s[i..]).Overrun?
    requires Built(parent, f) && last == ItemAt(Roots(f.kids), |f.kids| - 1)
    modifies parent`child, f.tops`next
    ensures d.shape.node == child && child in d.cells && live' == live + d.cells
    ensures forall o :: o in d.cells ==> fresh(o)
    ensures Extends(f, d, f') && Built(parent, f') && Images(f'.kids) == old(Images(f.kids)) + [ImageOf(d.shape)]
    ensures AgreesSkipped(G.ParseMember(s[i..]), ok, s, i, p, MemberOf(ImageOf(d.shape)))
    decreases |s| - i, 8
  {
    ghost var own;
    ok, p, child, live', own := AddNamed(parent, last, s, i, live, f);
    ok, p, live', d, f' := FinishMember(parent, child, s, i, ok, p, live', own, f);
  }

  /** A member whose name has been read gets its value; otherwise it stays as it is. */
  method FinishMember(parent: Item, child: Item, s: text, ghost i: nat, named: bool, p: nat, live: Live,
                      ghost own: set<object>, ghost f: Forest)
      returns (ok: bool, end: nat, live': Live, ghost d: Tree, ghost f': Forest)
    requires 0 < i <= |s| && NameRead(s, i, named, p, child.name)
    requires Leaf(child) && own == Own(child) && own <= live && own !! f.cells && Open(parent, f, child)
    modifies child`kind, child`child, child`valuestring, child`mantissa, child`exponent
    ensures d.shape.node == child && own <= d.cells && live' == live + d.cells
    ensures forall o :: o in d.cells && o !in own ==> fresh(o)
    ensures Extends(f, d, f') && Built(parent, f') && Images(f'.kids) == old(Images(f.kids)) + [ImageOf(d.shape)]
    ensures AgreesSkipped(G.ParseMember(s[i..]), ok, s, i, end, MemberOf(ImageOf(d.shape)))
    decreases |s| - i, 7
  {
    if named {
      ok, end, live', d, f' := FillNamed(parent, child, s, i, p, live, own, f);
    } else {
      ok, end, live', d := false, 0, live, LeafTree(child);
      f' := CloseLeaf(parent, f, child);
    }
  }

  /** One turn of parse_object. */
  method MemberTurn(parent: Item, last: Item?, s: text, i: nat, now: Live, ghost live: Live,
                    ghost whole: G.Parse<seq<Member>>, ghost f: Forest)
      returns (ok: bool, p: nat, child: Item, now': Live, ghost f': Forest)
    requires i > 0 && MembersPending(whole, MembersOf(Images(f.kids)), s, i) && Growing(parent, last, f, live, now)
    modifies parent`child, f.tops`next
    ensures Growing(parent, child, f', live, now')
    ensures forall o :: o in f'.cells && o !in f.cells ==> fresh(o)
    ensures forall o :: o in f'.tops && o !in f.tops ==> fresh(o)
    ensures MembersRead(whole, MembersOf(Images(f'.kids)), ok, s, i, p) && (ok ==> i < p <= |s|)
    decreases |s| - i, 10
  {
    ghost var ms := Images(f.kids);
    ghost var d;
    MemberInBounds(whole, MembersOf(ms), s, i);
    ok, p, child, now', d, f' := ParseMember(parent, last, s, i, now, f);
    Grows(parent, f, d, f', live, now, now');
    MembersAdvance(whole, ms, ImageOf(d.shape), ok, s, i, p);
  }

  ghost predicate MembersPending(whole: G.Parse<seq<Member>>, ms: seq<Member>, s: text, i: nat) {
    match whole
    case Overrun => false
    case Fail => i <= |s| && G.ParseMembers(s[i..]).Fail?
    case Ok(value, rest) =>
      i <= |s| && var r := G.ParseMembers(s[i..]); r.Ok? && value == ms + r.value && rest == r.rest
  }

  ghost predicate MembersRead(whole: G.Parse<seq<Member>>, ms: seq<Member>, ok: bool, s: text, i: nat, p: nat) {
    match whole
    case Overrun => false
    case Fail => ok ==>
        i < p <= |s| && At(s, p) != RBRACE && (At(s, p) == COMMA ==> MembersPending(whole, ms, s, p + 1))
    case Ok(value, rest) =>
      ok && i < p <= |s|
      && if At(s, p) == COMMA then MembersPending(whole, ms, s, p + 1)
         else At(s, p) == RBRACE && value == ms && rest == s[p + 1..]
  }

  lemma {:induction false} MemberInBounds(whole: G.Parse<seq<Member>>, vs: seq<Member>, s: text, i: nat)
    requires i <= |s| && MembersPending(whole, vs, s, i)
    ensures !G.ParseMember(s[i..]).Overrun?
  {
  }

  /** One more has been read, or has failed to be read. */
  lemma {:induction false} MembersAdvance(whole: G.Parse<seq<Member>>, ms: seq<Image>, m: Image, ok: bool, s: text,
                                          i: nat, p: nat)
    requires i <= |s| && MembersPending(whole, MembersOf(ms), s, i)
             && AgreesSkipped(G.ParseMember(s[i..]), ok, s, i, p, MemberOf(m))
    ensures MembersRead(whole, MembersOf(ms + [m]), ok, s, i, p)
  {
    assert (ms + [m])[..|ms|] == ms;
    if ok {
      G.FirstMember(s[i..]);
      PeekAt(s, p);
      G.JoinedTwice(whole, MembersOf(ms), G.ParseMembers(s[i..]), MemberOf(m), G.MembersAfter(s[p..]));
    }
  }

  /** The members of parse_object. */
  method ParseMembers(item: Item, s: text, i: nat, live: Live, ghost whole: G.Parse<seq<Member>>)
      returns (ok: bool, p: nat, live': Live, ghost f: Forest)
    requires i > 0 && MembersPending(whole, [], s, i) && item.child == null
    modifies item`child
    ensures Built(item, f) && live' == live + f.cells && forall o :: o in f.cells ==> fresh(o)
    ensures MembersRead(whole, MembersOf(Images(f.kids)), ok, s, i, p) && (ok ==> At(s, p) != COMMA)
    decreases |s| - i, 11
  {
    var child;
    ok, p, child, live', f := MemberTurn(item, null, s, i, live, live, whole, NOTHING);
    ok, p, live', f := MoreMembers(item, ok, child, s, i, p, live', live, whole, f);
  }

  /** The loop of parse_object. */
  method MoreMembers(item: Item, ok0: bool, last: Item, s: text, ghost i: nat, p0: nat, now: Live,
                     ghost live: Live, ghost whole: G.Parse<seq<Member>>, ghost f0: Forest)
      returns (ok: bool, p: nat, live': Live, ghost f: Forest)
    requires i > 0 && Growing(item, last, f0, live, now)
    requires MembersRead(whole, MembersOf(Images(f0.kids)), ok0, s, i, p0)
    requires ok0 ==> i < p0 <= |s|
    modifies item`child, f0.tops`next
    ensures Built(item, f) && live' == live + f.cells
    ensures forall o :: o in f.cells && o !in f0.cells ==> fresh(o)
    ensures MembersRead(whole, MembersOf(Images(f.kids)), ok, s, i, p) && (ok ==> At(s, p) != COMMA)
    decreases |s| - i, 10
  {
    ok, p, live', f := ok0, p0, now, f0;
    var child := last;
    while ok && At(s, p) == COMMA
      invariant Growing(item, child, f, live, live') && MembersRead(whole, MembersOf(Images(f.kids)), ok, s, i, p)
      invariant forall o :: o in f.cells && o !in f0.cells ==> fresh(o)
      invariant forall o :: o in f.tops && o !in f0.tops ==> fresh(o)
      invariant ok ==> i < p <= |s|
      decreases if ok then 1 + |s| - p else 0
    {
      ok, p, child, live', f := MemberTurn(item, child, s, p + 1, live', live, whole, f);
    }
  }

  lemma MembersEnd(whole: G.Parse<seq<Member>>, ms: seq<Member>, ok: bool, s: text, i: nat, p: nat)
    requires i <= |s| && whole == G.ParseMembers(s[i..]) && MembersRead(whole, ms, ok, s, i, p)
    requires ok ==> At(s, p) != COMMA
    ensures Agrees(G.ParseMembers(s[i..]), ok && At(s, p) == RBRACE, s, i, p + 1, ms)
  {
  }

  /** parse_object */
  method ParseObject(item: Item, s: text, i: nat, live: Live, ghost own: set<object>)
      returns (ok: bool, end: nat, live': Live, ghost d: Tree)
    requires i < |s| && s[i] == LBRACE && !G.ParseValue(s[i..]).Overrun?
    requires Leaf(item) && own == Own(item) && own <= live
    modifies item`kind, item`child
    ensures d.shape.node == item && Grown(d) && own <= d.cells && live' == live + d.cells
    ensures fresh(d.under) && forall o :: o in d.cells && o !in own ==> fresh(o)
    ensures Agrees(G.ParseValue(s[i..]), ok, s, i, end, JsonOf(ImageOf(d.shape)))
    decreases |s| - i, 3
  {
    PeekAt(s, i);
    item.kind := ObjectKind;
    var p := Skip(s, i + 1);
    ok, end, live', d := ParseBraced(item, s, p, live, own);
    PeekAt(s, i);
    ObjectRead(s, i, p, ok, end, MembersOf(Images(d.shape.kids)));
    ObjectJson(d.shape);
  }

  /** parse_object behind the opening brace. */
  method ParseBraced(item: Item, s: text, p: nat, live: Live, ghost own: set<object>)
      returns (ok: bool, end: nat, live': Live, ghost d: Tree)
    requires 0 < p <= |s| && (At(s, p) != RBRACE ==> !G.ParseMembers(s[p..]).Overrun?)
    requires Leaf(item) && own == Own(item) && own <= live
    modifies item`child
    ensures d.shape.node == item && Grown(d) && own <= d.cells && live' == live + d.cells
    ensures fresh(d.under) && forall o :: o in d.cells && o !in own ==> fresh(o)
    ensures Braced(s, p, ok, end, MembersOf(Images(d.shape.kids)))
    decreases |s| - p, 13
  {
    ghost var f := NOTHING;
    ok, end, live' := true, p + 1, live;
    if At(s, p) != RBRACE {
      ok, end, live', f := ParseAllMembers(item, s, p, live);
    }
    d := ListTree(item, own, f);
  }

  /** The members and the closing brace. */
  method ParseAllMembers(item: Item, s: text, p: nat, live: Live)
      returns (ok: bool, end: nat, live': Live, ghost f: Forest)
    requires 0 < p <= |s| && !G.ParseMembers(s[p..]).Overrun? && item.child == null
    modifies item`child
    ensures Built(item, f) && live' == live + f.cells && forall o :: o in f.cells ==> fresh(o)
    ensures Agrees(G.ParseMembers(s[p..]), ok, s, p, end, MembersOf(Images(f.kids)))
    decreases |s| - p, 12
  {
    ghost var whole := G.ParseMembers(s[p..]);
    ok, end, live', f := ParseMembers(item, s, p, live, whole);
    MembersEnd(whole, MembersOf(Images(f.kids)), ok, s, p, end);
    ok, end := ok && At(s, end) == RBRACE, end + 1;
  }

  /** Nothing but the closing brace, or members. */
  ghost predicate Braced(s: text, p: nat, ok: bool, end: nat, ms: seq<Member>)
    requires p <= |s|
  {
    if At(s, p) == RBRACE then ok && end == p + 1 && ms == []
    else Agrees(G.ParseMembers(s[p..]), ok, s, p, end, ms)
  }

  lemma ObjectRead(s: text, i: nat, p: nat, ok: bool, end: nat, ms: seq<Member>)
    requires i < |s| && s[i] == LBRACE && i < p <= |s| && s[p..] == G.Skip(s[i + 1..]) && Braced(s, p, ok, end, ms)
    requires !G.ParseValue(s[i..]).Overrun?
    ensures Agrees(G.ParseValue(s[i..]), ok, s, i, end, Object(ms))
  {
    PeekAt(s, i);
    PeekAt(s, p);
  }

  lemma ObjectJson(d: Shape)
    requires d.node.kind == ObjectKind
    ensures JsonOf(ImageOf(d)) == Object(MembersOf(Images(d.kids)))
  {
  }

  // ---------------------------------------------------------------- documents

  /** cJSON_ParseWithOpts: either a tree that owns everything that was allocated, or nothing is left allocated. */
  method ParseWithOpts(s: text, requireNul: bool, live: Live) returns (c: Item?, end: nat, live': Live, ghost d: Tree)
    requires !G.ParseDocument(s, requireNul).Overrun?
    ensures c == null <==> G.ParseDocument(s, requireNul).Fail?
    ensures c == null ==> live' == live
    ensures c != null ==> d.shape.node == c && Whole(d) && fresh(d.cells) && live' == live + d.cells
    ensures c != null ==> end <= |s| && G.ParseDocument(s, requireNul) == G.Ok(JsonOf(ImageOf(d.shape)), s[end..])
  {
    var item, ok;
    ok, item, end, live', d := ParseRoot(s, live);
    c := item;
    if ok && requireNul {
      label parsed:
      end := Skip(s, end);
      StillGrown@parsed(d);
      PeekAt(s, end);
      ok := At(s, end) == 0;
    }
    if !ok {
      live' := DeleteAlone(item, live', d.shape);
      c := null;
    }
  }

  method ParseRoot(s: text, live: Live) returns (ok: bool, c: Item, end: nat, live': Live, ghost d: Tree)
    requires !G.ParseSkipped(s).Overrun?
    ensures d.shape.node == c && Whole(d) && fresh(d.cells) && live' == live + d.cells
    ensures ok == G.ParseSkipped(s).Ok?
    ensures ok ==> end <= |s| && G.ParseSkipped(s) == G.Ok(JsonOf(ImageOf(d.shape)), s[end..])
  {
    assert s[0..] == s;
    c, live' := NewItem(live);
    end := Skip(s, 0);
    ok, end, live', d := ParseValue(c, s, end, live', {c});
  }
}
