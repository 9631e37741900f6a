/** Whole trees of items: what they stand for, what they own, deleting and duplicating them. */
module Trees {
  import opened Options
  import opened Bytes
  import opened JsonText
  import opened Items

  /** The nodes a tree is made of, and the strings each of them owns. */
  datatype Shape = Shape(node: Item, strs: set<object>, kids: seq<Shape>)

  function Init(kids: seq<Shape>): seq<Shape>
    requires kids != []
  {
    kids[..|kids| - 1]
  }

  function Last(kids: seq<Shape>): Shape
    requires kids != []
  {
    kids[|kids| - 1]
  }

  ghost function Roots(kids: seq<Shape>): (ns: seq<Item>)
    ensures |ns| == |kids| && forall i :: 0 <= i < |kids| ==> ns[i] == kids[i].node
  {
    if kids == [] then [] else Roots(Init(kids)) + [Last(kids).node]
  }

  /** The roots of a forest, the nodes below them, and both. */
  ghost function Tops(kids: seq<Shape>): set<Item> {
    if kids == [] then {} else Tops(Init(kids)) + {Last(kids).node}
  }

  ghost function Below(kids: seq<Shape>): set<Item>
    decreases kids, 0
  {
    if kids == [] then {} else Below(Init(kids)) + All(Last(kids).kids)
  }

  ghost function All(kids: seq<Shape>): set<Item>
    decreases kids, 1
  {
    Tops(kids) + Below(kids)
  }

  lemma {:induction false} TopsAreRoots(kids: seq<Shape>)
    ensures Tops(kids) == Elements(Roots(kids))
  {
    if kids != [] {
      TopsAreRoots(Init(kids));
      var ns, ms := Roots(kids), Roots(Init(kids));
      assert ns == ms + [Last(kids).node];
      assert Elements(ns) == Elements(ms) + {Last(kids).node} by {
        assert ns[|ms|] == Last(kids).node;
        assert forall i :: 0 <= i < |ms| ==> ns[i] == ms[i];
      }
    }
  }

  /** The strings a node owns: a reference shares its value, and a constant name belongs to the caller. */
  ghost function Strings(n: Item): set<object>
    reads n`isReference, n`nameIsConst, n`valuestring, n`name
  {
    (if !n.isReference && n.valuestring != null then {n.valuestring} else {})
    + (if !n.nameIsConst && n.name != null then {n.name} else {})
  }

  /** Name and value are two strings. */
  ghost predicate OwnNames(n: Item)
    reads n`isReference, n`nameIsConst, n`valuestring, n`name
  {
    !n.isReference && !n.nameIsConst && n.valuestring != null ==> n.valuestring != n.name
  }

  /** The child lists are linked and the strings owned as the shape says. With `follow` the children of a
      reference, which it shares with the item it refers to, belong to the shape; without it a reference has no
      children in the shape. */
  ghost predicate Linked(kids: seq<Shape>, follow: bool)
    reads Tops(kids)`child, Tops(kids)`isReference, Tops(kids)`nameIsConst
    reads Tops(kids)`valuestring, Tops(kids)`name, Below(kids)
    decreases kids, 1
  {
    kids == [] || (Linked(Init(kids), follow) && LinkedTree(Last(kids), follow))
  }

  /** Nothing in `below`, and nothing but the sibling links in `tops`, has changed. */
  twostate predicate Untouched(tops: set<Item>, below: set<Item>)
    reads tops, below
  {
    (forall n :: n in tops ==> SameFields(n)) && unchanged(below)
  }

  twostate predicate SameFields(n: Item)
    reads n
  {
    n.child == old(n.child) && n.isReference == old(n.isReference) && n.nameIsConst == old(n.nameIsConst)
    && n.valuestring == old(n.valuestring) && n.name == old(n.name)
    && n.kind == old(n.kind) && n.mantissa == old(n.mantissa) && n.exponent == old(n.exponent)
  }

  twostate lemma StillLinked(new kids: seq<Shape>, new follow: bool, new tops: set<Item>, new below: set<Item>)
    requires old(allocated(kids)) && old(allocated(tops)) && old(allocated(below))
    requires Tops(kids) <= tops && Below(kids) <= below
    requires old(Linked(kids, follow)) && Untouched(tops, below)
    ensures Linked(kids, follow)
  {
  }

  twostate lemma StillTree(new t: Shape, new follow: bool, new below: set<Item>)
    requires old(allocated(t)) && old(allocated(below))
    requires All(t.kids) <= below && old(LinkedTree(t, follow)) && SameFields(t.node) && unchanged(below)
    ensures LinkedTree(t, follow) && ImageOf(t) == old(ImageOf(t))
  {
  }

  twostate lemma SameImages(new kids: seq<Shape>, new tops: set<Item>, new below: set<Item>)
    requires old(allocated(kids)) && old(allocated(tops)) && old(allocated(below))
    requires Tops(kids) <= tops && Below(kids) <= below && Untouched(tops, below)
    ensures Images(kids) == old(Images(kids))
  {
  }

  ghost predicate LinkedTree(t: Shape, follow: bool)
    reads t.node`child, t.node`isReference, t.node`nameIsConst, t.node`valuestring, t.node`name, All(t.kids)
    decreases t, 2
  {
    t.strs == Strings(t.node) && OwnNames(t.node) &&
    if !follow && t.node.isReference then t.kids == []
    else (TopsAreRoots(t.kids); Chain(t.node.child, Roots(t.kids))) && Linked(t.kids, follow)
  }

  lemma {:induction false} LinkedAt(kids: seq<Shape>, follow: bool, i: nat)
    requires Linked(kids, follow) && i < |kids|
    ensures LinkedTree(kids[i], follow) && kids[i].node in Tops(kids) && All(kids[i].kids) <= Below(kids)
    decreases |kids|
  {
    if i < |kids| - 1 {
      LinkedAt(Init(kids), follow, i);
    }
  }

  // ---------------------------------------------------------------- contents

  /** All fields of a node that are not links, and the images of its children. */
  datatype Image = Image(kind: Kind, mantissa: int, exponent: int, str: Option<text>, name: Option<text>,
                         nameIsConst: bool, kids: seq<Image>)

  function Chars(s: Str?): Option<text> {
    if s == null then None else Some(s.chars)
  }

  ghost function ImageOf(t: Shape): Image
    reads t.node`kind, t.node`mantissa, t.node`exponent, t.node`valuestring, t.node`name, t.node`nameIsConst
    reads All(t.kids)
    decreases t, 1
  {
    var n := t.node;
    Image(n.kind, n.mantissa, n.exponent, Chars(n.valuestring), Chars(n.name), n.nameIsConst, Images(t.kids))
  }

  ghost function Images(kids: seq<Shape>): (ms: seq<Image>)
    reads Tops(kids)`kind, Tops(kids)`mantissa, Tops(kids)`exponent
    reads Tops(kids)`valuestring, Tops(kids)`name, Tops(kids)`nameIsConst, Below(kids)
    ensures |ms| == |kids|
    decreases kids, 0
  {
    if kids == [] then [] else Images(Init(kids)) + [ImageOf(Last(kids))]
  }

  lemma ImagesGrow(kids: seq<Shape>, t: Shape)
    ensures Images(kids + [t]) == Images(kids) + [ImageOf(t)]
  {
    assert Init(kids + [t]) == kids;
  }

  /** The JSON value of an image. */
  function JsonOf(m: Image): Json
    decreases m, 0
  {
    match m.kind
    case NullKind => Null
    case FalseKind => False
    case TrueKind => True
    case NumberKind => Number(m.mantissa, m.exponent)
    case StringKind => String(if m.str.Some? then m.str.value else [])
    case ArrayKind => Array(JsonsOf(m.kids))
    case ObjectKind => Object(MembersOf(m.kids))
  }

  function JsonsOf(ms: seq<Image>): seq<Json> {
    if ms == [] then [] else JsonsOf(ms[..|ms| - 1]) + [JsonOf(ms[|ms| - 1])]
  }

  function MembersOf(ms: seq<Image>): seq<Member> {
    if ms == [] then [] else MembersOf(ms[..|ms| - 1]) + [MemberOf(ms[|ms| - 1])]
  }

  function MemberOf(m: Image): Member
    decreases m, 1
  {
    Member(if m.name.Some? then m.name.value else [], JsonOf(m))
  }

  lemma {:induction false} JsonsAt(ms: seq<Image>, i: nat)
    requires i < |ms|
    ensures |JsonsOf(ms)| == |ms| && JsonsOf(ms)[i] == JsonOf(ms[i])
    decreases |ms|
  {
    var front := ms[..|ms| - 1];
    if |ms| > 1 {
      JsonsAt(front, if i < |front| then i else 0);
    }
  }

  lemma {:induction false} MembersAt(ms: seq<Image>, i: nat)
    requires i < |ms|
    ensures |MembersOf(ms)| == |ms| && MembersOf(ms)[i] == MemberOf(ms[i])
    decreases |ms|
  {
    var front := ms[..|ms| - 1];
    if |ms| > 1 {
      MembersAt(front, if i < |front| then i else 0);
    }
  }

  /** What the printers ask of a tree: a string has characters and a member has a name. */
  predicate Named(m: Image) {
    (m.kind == StringKind ==> m.str.Some?)
    && forall i :: 0 <= i < |m.kids| ==> Named(m.kids[i]) && (m.kind == ObjectKind ==> m.kids[i].name.Some?)
  }

  // ---------------------------------------------------------------- ownership

  /** The allocated cells a forest owns. */
  ghost function Cells(kids: seq<Shape>): set<object> {
    if kids == [] then {} else Cells(Init(kids)) + TreeCells(Last(kids))
  }

  ghost function TreeCells(t: Shape): set<object> {
    {t.node} + t.strs + Cells(t.kids)
  }

  lemma {:induction false} NodesAreCells(kids: seq<Shape>, tops: set<Item>, below: set<Item>, cells: set<object>)
    requires tops == Tops(kids) && below == Below(kids) && cells == Cells(kids)
    ensures forall n :: n in tops || n in below ==> n in cells
    decreases kids
  {
    if kids != [] {
      var front, k := Init(kids), Last(kids).kids;
      NodesAreCells(front, Tops(front), Below(front), Cells(front));
      NodesAreCells(k, Tops(k), Below(k), Cells(k));
    }
  }

  /** No cell is owned twice. */
  ghost predicate Separate(kids: seq<Shape>) {
    kids == [] ||
    (Separate(Init(kids)) && SeparateTree(Last(kids)) && Cells(Init(kids)) !! TreeCells(Last(kids)))
  }

  ghost predicate SeparateTree(t: Shape) {
    t.node !in Cells(t.kids) && t.strs !! Cells(t.kids) && t.node !in t.strs && Separate(t.kids)
  }

  lemma {:induction false} SeparatePrefix(kids: seq<Shape>, i: nat)
    requires Separate(kids) && i <= |kids|
    ensures Separate(kids[..i]) && Cells(kids[..i]) <= Cells(kids)
    ensures i < |kids| ==>
              SeparateTree(kids[i]) && Cells(kids[..i]) !! TreeCells(kids[i]) && TreeCells(kids[i]) <= Cells(kids)
    ensures i < |kids| ==> Cells(kids[..i + 1]) == Cells(kids[..i]) + TreeCells(kids[i])
    decreases |kids| - i
  {
    assert kids[..|kids|] == kids;
    if i < |kids| {
      SeparatePrefix(kids, i + 1);
      assert Init(kids[..i + 1]) == kids[..i] && Last(kids[..i + 1]) == kids[i];
      assert kids[..i + 1][..i] == kids[..i] && kids[..i + 1][i] == kids[i];
    }
  }

  /** The state of the allocator: the cells handed out and not yet given back. */
  type Live = set<object>

  method NewItem(live: Live) returns (n: Item, live': Live)
    ensures fresh(n) && live' == live + {n}
    ensures n.Blank() && Single(n) && n.name == null
    ensures n.kind == FalseKind && !n.isReference && !n.nameIsConst && n.mantissa == 0 && n.exponent == 0
  {
    n := new Item();
    live' := live + {n};
  }

  /** cJSON_strdup */
  method NewStr(chars: text, live: Live) returns (s: Str, live': Live)
    ensures fresh(s) && s.chars == chars && live' == live + {s}
  {
    s := new Str(chars);
    live' := live + {s};
  }

  /** cJSON_free: what is freed must be live, so nothing is freed twice. */
  method Free(o: object, live: Live) returns (live': Live)
    requires o in live
    ensures live' == live - {o}
  {
    live' := live - {o};
  }

  /** cJSON_Delete of a list: frees every cell the forest owns, each exactly once, and nothing else. What hangs
      below a reference is not part of the forest and stays live. */
  method Delete(c: Item?, live: Live, ghost kids: seq<Shape>) returns (live': Live)
    requires Chain(c, Roots(kids)) && Linked(kids, false) && Separate(kids) && Cells(kids) <= live
    ensures live' == live - Cells(kids)
    decreases kids, 1
  {
    var p := c;
    live' := live;
    ghost var i, tops, below := 0, Tops(kids), Below(kids);
    assert kids[..0] == [];
    while p != null
      invariant 0 <= i <= |kids| && p == ItemAt(Roots(kids), i)
      invariant Chain(c, Roots(kids)) && Linked(kids, false)
      invariant live' == live - Cells(kids[..i])
      decreases |kids| - i
    {
      var next := p.next;
      label before:
      live' := DeleteNext(p, live', live, kids, i);
      StillLinked@before(kids, false, tops, below);
      p, i := next, i + 1;
    }
    assert kids[..i] == kids;
  }

  method DeleteNext(p: Item, now: Live, ghost live: Live, ghost kids: seq<Shape>, ghost i: nat) returns (live': Live)
    requires i < |kids| && p == kids[i].node && Linked(kids, false) && Separate(kids) && Cells(kids) <= live
    requires now == live - Cells(kids[..i])
    ensures live' == live - Cells(kids[..i + 1])
    decreases kids, 0
  {
    SeparatePrefix(kids, i);
    LinkedAt(kids, false, i);
    live' := DeleteOne(p, now, kids[i]);
  }

  /** The cells of one node and of what it owns. */
  method DeleteOne(c: Item, live: Live, ghost t: Shape) returns (live': Live)
    requires t.node == c && LinkedTree(t, false) && SeparateTree(t) && TreeCells(t) <= live
    ensures live' == live - TreeCells(t)
    decreases t, 2
  {
    live' := live;
    if !c.isReference && c.child != null {
      live' := Delete(c.child, live', t.kids);
    } else {
      NothingBelow(t);
    }
    if !c.isReference && c.valuestring != null {
      live' := Free(c.valuestring, live');
    }
    if !c.nameIsConst && c.name != null {
      live' := Free(c.name, live');
    }
    live' := Free(c, live');
  }

  lemma NothingBelow(t: Shape)
    requires LinkedTree(t, false) && (t.node.isReference || t.node.child == null)
    ensures Cells(t.kids) == {}
  {
    if !t.node.isReference {
      assert ItemAt(Roots(t.kids), 0) == null;
      assert |t.kids| == 0;
    }
  }

  // ---------------------------------------------------------------- growing a child list

  /** The tail step of every loop that builds a child list: hang `n` behind `last`, or make it the first child. */
  method LinkLast(parent: Item, last: Item?, n: Item, ghost ns: seq<Item>, ghost tops: set<Item>,
                  ghost below: set<Item>, ghost under: set<Item>)
    requires IsList(parent, ns) && last == ItemAt(ns, |ns| - 1) && n !in ns && n != parent && Single(n)
    requires tops == Elements(ns) && tops !! below + under && parent !in below + under && n !in below + under
    modifies parent`child, tops`next, n`prev
    ensures IsList(parent, ns + [n])
    ensures Untouched(tops, below) && Untouched({n}, under)
    ensures ns != [] ==> parent.child == old(parent.child)
  {
    if last != null {
      ListIsAcyclic(parent, ns);
      last.next := n;
      n.prev := last;
    } else {
      parent.child := n;
    }
  }

  // ---------------------------------------------------------------- copying a node

  /** create_reference: shares the children and the value of `item`, belongs to no list and has no name. */
  method CreateReference(item: Item, live: Live) returns (r: Item, live': Live)
    ensures fresh(r) && live' == live + {r} && r.isReference && r.name == null && Single(r)
    ensures r.child == item.child && r.valuestring == item.valuestring && r.kind == item.kind
    ensures r.mantissa == item.mantissa && r.exponent == item.exponent && r.nameIsConst == item.nameIsConst
  {
    r, live' := NewItem(live);
    r.child, r.valuestring, r.kind := item.child, item.valuestring, item.kind;
    r.mantissa, r.exponent, r.nameIsConst := item.mantissa, item.exponent, item.nameIsConst;
    r.isReference := true;
  }

  /** Names that were allocated although their node says that they are constant. */
  ghost function Lost(n: Item): set<object>
    reads n`nameIsConst, n`name
  {
    if n.nameIsConst && n.name != null then {n.name} else {}
  }

  /** `if (s) c = cJSON_strdup(s)` */
  method CopyStr(s: Str?, live: Live) returns (c: Str?, live': Live)
    ensures Chars(c) == Chars(s) && (c != null ==> fresh(c))
    ensures live' == live + if c == null then {} else {c}
  {
    c, live' := null, live;
    if s != null {
      c, live' := NewStr(s.chars, live);
    }
  }

  /** Copies everything but the links of one node. */
  method CopyNode(item: Item, live: Live) returns (n: Item, live': Live)
    ensures fresh(n) && Single(n) && n.child == null && !n.isReference
    ensures n.kind == item.kind && n.mantissa == item.mantissa && n.exponent == item.exponent
    ensures n.nameIsConst == item.nameIsConst
    ensures Chars(n.valuestring) == Chars(item.valuestring) && Chars(n.name) == Chars(item.name)
    ensures OwnNames(n) && n !in Strings(n) && n !in Lost(n) && Strings(n) !! Lost(n)
    ensures fresh(Strings(n)) && fresh(Lost(n))
    ensures live' == live + {n} + Strings(n) + Lost(n)
  {
    n, live' := NewItem(live);
    n.kind, n.mantissa, n.exponent := item.kind, item.mantissa, item.exponent;
    n.nameIsConst := item.nameIsConst;
    var value, name;
    value, live' := CopyStr(item.valuestring, live');
    n.valuestring := value;
    name, live' := CopyStr(item.name, live');
    n.name := name;
  }

  lemma {:induction false} ImagesAt(kids: seq<Shape>, i: nat)
    requires i < |kids|
    ensures Images(kids)[i] == ImageOf(kids[i])
    decreases |kids|
  {
    if i < |kids| - 1 {
      ImagesAt(kids[..|kids| - 1], i);
    }
  }

  /** Some node of the image has a name that is flagged constant. */
  predicate ConstNamed(m: Image)
    decreases m, 0
  {
    (m.nameIsConst && m.name.Some?) || AnyConstNamed(m.kids)
  }

  predicate NoConstNamed(ms: seq<Image>, upTo: nat)
    requires upTo <= |ms|
  {
    forall i :: 0 <= i < upTo ==> !ConstNamed(ms[i])
  }

  predicate AnyConstNamed(ms: seq<Image>)
    decreases ms, 0
  {
    exists i :: 0 <= i < |ms| && ConstNamed(ms[i])
  }

  // ---------------------------------------------------------------- lists of new trees

  /** A tree, the nodes below its root, and the cells it owns. */
  datatype Tree = Tree(shape: Shape, under: set<Item>, cells: set<object>)

  /** The trees under a node, their roots, the nodes below these, and the cells they own. */
  datatype Forest = Forest(kids: seq<Shape>, tops: set<Item>, below: set<Item>, cells: set<object>)

  const NOTHING := Forest([], {}, {}, {})

  /** `f'` is `f` with `d` behind it. */
  ghost predicate Extends(f: Forest, d: Tree, f': Forest) {
    |f'.kids| == |f.kids| + 1 && f'.kids[|f.kids|] == d.shape && f'.tops == f.tops + {d.shape.node}
    && f'.below == f.below + d.under && f'.cells == f.cells + d.cells
  }

  /** A list of new trees under `parent`: linked, owned once, and free of references. */
  ghost predicate Built(parent: Item, f: Forest)
    reads parent`child, f.tops, f.below
  {
    match f
    case Forest(kids, tops, below, cells) =>
      tops == Tops(kids) && below == Below(kids) && cells == Cells(kids) && tops !! below
      && parent !in tops && parent !in below && (TopsAreRoots(kids); IsList(parent, Roots(kids)))
      && Linked(kids, false) && Separate(kids)
      && (forall n :: n in tops ==> !n.isReference) && (forall n :: n in below ==> !n.isReference)
  }

  /** A tree in which every cell is owned once and nothing is a reference. */
  ghost predicate Grown(d: Tree)
    reads d.shape.node`child, d.shape.node`isReference, d.shape.node`nameIsConst, d.shape.node`valuestring
    reads d.shape.node`name, d.under
  {
    match d
    case Tree(shape, under, cells) =>
      under == All(shape.kids) && cells == TreeCells(shape) && shape.node !in under && !shape.node.isReference
      && (forall x :: x in under ==> !x.isReference) && LinkedTree(shape, false) && SeparateTree(shape)
  }

  /** Such a tree that is in no list. */
  ghost predicate Whole(d: Tree)
    reads d.shape.node, d.under
  {
    Single(d.shape.node) && Grown(d)
  }

  /** `d` shares nothing with the list under `parent`. */
  ghost predicate Foreign(parent: Item, f: Forest, d: Tree) {
    d.shape.node != parent && d.shape.node !in f.tops && d.shape.node !in f.below
    && parent !in d.under && f.tops !! d.under && f.cells !! d.cells
  }

  twostate lemma StillGrown(new d: Tree)
    requires old(allocated(d)) && old(Grown(d)) && SameFields(d.shape.node) && unchanged(d.under)
    ensures Grown(d) && ImageOf(d.shape) == old(ImageOf(d.shape))
  {
    StillTree(d.shape, false, d.under);
  }

  twostate lemma StillBuilt(new parent: Item, new f: Forest)
    requires old(allocated(parent)) && old(allocated(f))
    requires old(Built(parent, f)) && parent.child == old(parent.child)
    requires unchanged(f.tops) && unchanged(f.below)
    ensures Built(parent, f) && Images(f.kids) == old(Images(f.kids))
  {
    StillLinked(f.kids, false, f.tops, f.below);
    SameImages(f.kids, f.tops, f.below);
  }

  /** One more tree at the end of the list. */
  method AppendTree(parent: Item, last: Item?, n: Item, ghost f: Forest, ghost d: Tree) returns (ghost f': Forest)
    requires Built(parent, f) && Whole(d) && Foreign(parent, f, d)
    requires d.shape.node == n && last == ItemAt(Roots(f.kids), |f.kids| - 1)
    modifies parent`child, f.tops`next, n`prev
    ensures Extends(f, d, f') && Built(parent, f')
    ensures Images(f'.kids) == old(Images(f.kids)) + [old(ImageOf(d.shape))]
  {
    TopsAreRoots(f.kids);
    LinkLast(parent, last, n, Roots(f.kids), f.tops, f.below, d.under);
    StillApart(f, d);
    f' := Appended(parent, f, d);
  }

  twostate lemma StillApart(new f: Forest, new d: Tree)
    requires old(allocated(f)) && old(allocated(d))
    requires f.tops == Tops(f.kids) && f.below == Below(f.kids) && old(Linked(f.kids, false)) && old(Grown(d))
    requires Untouched(f.tops, f.below) && Untouched({d.shape.node}, d.under)
    ensures Linked(f.kids, false) && Grown(d)
    ensures Images(f.kids) == old(Images(f.kids)) && ImageOf(d.shape) == old(ImageOf(d.shape))
  {
    StillLinked(f.kids, false, f.tops, f.below);
    SameImages(f.kids, f.tops, f.below);
    StillGrown(d);
  }

  /** Everything that makes a list of trees but the links of the list itself. */
  ghost predicate Planted(parent: Item, f: Forest)
    reads f.tops, f.below
  {
    match f
    case Forest(kids, tops, below, cells) =>
      tops == Tops(kids) && below == Below(kids) && cells == Cells(kids) && tops !! below
      && parent !in tops && parent !in below && Linked(kids, false) && Separate(kids)
      && (forall n :: n in tops ==> !n.isReference) && (forall n :: n in below ==> !n.isReference)
  }

  lemma Appended(parent: Item, f: Forest, d: Tree) returns (f': Forest)
    requires Planted(parent, f) && Grown(d) && Foreign(parent, f, d)
    requires (TopsAreRoots(f.kids); IsList(parent, Roots(f.kids) + [d.shape.node]))
    ensures Extends(f, d, f') && Built(parent, f')
    ensures Images(f'.kids) == Images(f.kids) + [ImageOf(d.shape)]
  {
    f' := Forest(f.kids + [d.shape], f.tops + {d.shape.node}, f.below + d.under, f.cells + d.cells);
    ForestGrows(f.kids, d.shape);
    ImagesGrow(f.kids, d.shape);
    assert Init(f.kids + [d.shape]) == f.kids && Last(f.kids + [d.shape]) == d.shape;
  }

  /** A node over a built list is a tree. */
  lemma TreeOver(n: Item, f: Forest)
    requires Built(n, f) && !n.isReference && OwnNames(n)
    requires n !in Strings(n) && n !in f.cells && Strings(n) !! f.cells
    ensures Grown(Tree(Shape(n, Strings(n), f.kids), f.tops + f.below, {n} + Strings(n) + f.cells))
  {
  }

  lemma Alone(d: Shape)
    ensures Tops([d]) == {d.node} && Roots([d]) == [d.node] && Below([d]) == All(d.kids)
    ensures Images([d]) == [ImageOf(d)]
    ensures Cells([d]) == TreeCells(d) && (SeparateTree(d) ==> Separate([d]))
    ensures forall follow :: Linked([d], follow) <==> LinkedTree(d, follow)
  {
    assert Init([d]) == [] && Last([d]) == d;
    ImagesGrow([], d);
    assert [] + [d] == [d];
  }

  lemma ForestGrows(kids: seq<Shape>, d: Shape)
    ensures Roots(kids + [d]) == Roots(kids) + [d.node]
    ensures Tops(kids + [d]) == Tops(kids) + {d.node}
    ensures Below(kids + [d]) == Below(kids) + All(d.kids)
    ensures Cells(kids + [d]) == Cells(kids) + TreeCells(d)
    ensures Separate(kids) && SeparateTree(d) && Cells(kids) !! TreeCells(d) ==> Separate(kids + [d])
  {
    var ks := kids + [d];
    assert Init(ks) == kids && Last(ks) == d;
  }

  // ---------------------------------------------------------------- duplicating

  /** The children of an item, their nodes and what is below them, and their images. */
  datatype Children = Children(kids: seq<Shape>, tops: set<Item>, below: set<Item>, images: seq<Image>)

  ghost function ChildrenOf(t: Shape): Children
    reads t.node, All(t.kids)
  {
    Children(t.kids, Tops(t.kids), Below(t.kids), Images(t.kids))
  }

  /** These are the children linked under `item`; references among them are followed. */
  ghost predicate Walks(item: Item, c: Children)
    reads item`child, c.tops, c.below
  {
    match c
    case Children(kids, tops, below, images) =>
      tops == Tops(kids) && below == Below(kids) && |kids| == |images|
      && (TopsAreRoots(kids); Chain(item.child, Roots(kids))) && Linked(kids, true) && Images(kids) == images
  }

  twostate lemma StillWalks(new item: Item, new c: Children)
    requires old(allocated(item)) && old(allocated(c))
    requires old(Walks(item, c)) && item.child == old(item.child) && unchanged(c.tops) && unchanged(c.below)
    ensures Walks(item, c)
  {
    TopsAreRoots(c.kids);
    StillLinked(c.kids, true, c.tops, c.below);
    SameImages(c.kids, c.tops, c.below);
  }

  /** What an allocation for a copy with the image `m` leaves behind: the tree and the names `lost`, which belong to
      nodes that are still flagged as having a constant name. */
  ghost predicate Accounted(live: Live, live': Live, cells: set<object>, lost: set<object>, anyLost: bool) {
    live' == live + cells + lost && lost !! cells && (lost != {} <==> anyLost)
  }

  /** cJSON_Duplicate. The source, which may hold references, is left alone; the copy has the same contents and
      owns everything in it except the names `lost`. `src` stands for the nodes below the item. */
  method Duplicate(item: Item, recurse: bool, live: Live, ghost t: Shape, ghost src: set<Item>)
      returns (n: Item, live': Live, ghost d: Tree, ghost lost: set<object>)
    requires t.node == item && src == All(t.kids) && LinkedTree(t, true)
    ensures d.shape.node == n && fresh(n) && fresh(d.cells) && fresh(lost) && Whole(d)
    ensures ImageOf(d.shape) == if recurse then old(ImageOf(t)) else old(ImageOf(t)).(kids := [])
    ensures Accounted(live, live', d.cells, lost, ConstNamed(ImageOf(d.shape)))
    decreases t, 4
  {
    if recurse {
      n, live', d, lost := DuplicateTree(item, live, t, src);
    } else {
      n, live', d, lost := DuplicateRoot(item, live, t, src);
    }
  }

  method DuplicateTree(item: Item, live: Live, ghost t: Shape, ghost src: set<Item>)
      returns (n: Item, live': Live, ghost d: Tree, ghost lost: set<object>)
    requires t.node == item && src == All(t.kids) && LinkedTree(t, true)
    ensures d.shape.node == n && fresh(n) && (forall o :: o in d.cells ==> fresh(o))
            && (forall o :: o in lost ==> fresh(o))
    ensures Whole(d) && ImageOf(d.shape) == old(ImageOf(t))
    ensures Accounted(live, live', d.cells, lost, ConstNamed(ImageOf(d.shape)))
    decreases t, 3
  {
    n, live', d, lost := DuplicateRoot(item, live, t, src);
    live', d, lost := DuplicateInto(item, n, live', live, t, src, d, lost);
  }

  method DuplicateRoot(item: Item, live: Live, ghost t: Shape, ghost src: set<Item>)
      returns (n: Item, live': Live, ghost d: Tree, ghost lost: set<object>)
    requires t.node == item && src == All(t.kids) && LinkedTree(t, true)
    ensures d.shape == Shape(n, d.shape.strs, []) && n.child == null
    ensures fresh(n) && fresh(d.cells) && fresh(lost) && Whole(d)
    ensures ImageOf(d.shape) == ImageOf(t).(kids := [])
    ensures Accounted(live, live', d.cells, lost, n.nameIsConst && n.name != null)
    ensures LinkedTree(t, true) && ImageOf(t) == old(ImageOf(t))
  {
    n, live' := CopyNode(item, live);
    lost := Lost(n);
    d := Tree(Shape(n, Strings(n), []), {}, {n} + Strings(n));
    TreeOver(n, NOTHING);
    StillTree(t, true, src);
  }

  /** The children, under the node that has just been copied. */
  method DuplicateInto(item: Item, n: Item, now: Live, ghost live: Live, ghost t: Shape, ghost src: set<Item>,
                       ghost root: Tree, ghost lost: set<object>)
      returns (live': Live, ghost d: Tree, ghost lost': set<object>)
    requires t.node == item && src == All(t.kids) && LinkedTree(t, true) && n != item && n !in src
    requires root.shape == Shape(n, root.shape.strs, []) && n.child == null && Whole(root)
    requires Accounted(live, now, root.cells, lost, n.nameIsConst && n.name != null)
    modifies n`child
    ensures d.shape.node == n && Whole(d)
    ensures forall o :: o in d.cells && o !in root.cells ==> fresh(o)
    ensures forall o :: o in lost' && o !in lost ==> fresh(o)
    ensures ImageOf(d.shape) == old(ImageOf(root.shape)).(kids := old(Images(t.kids)))
    ensures Accounted(live, live', d.cells, lost', ConstNamed(ImageOf(d.shape)))
    decreases t, 2
  {
    ghost var c := ChildrenOf(t);
    ghost var f, gone;
    live', f, gone := DuplicateList(item, n, now, c);
    Filled(n, root, f);
    d, lost' := Tree(Shape(n, root.shape.strs, f.kids), f.tops + f.below, root.cells + f.cells), lost + gone;
    Combined(live, now, live', root.cells, f.cells, lost, gone,
             n.nameIsConst && n.name != null, AnyConstNamed(c.images));
  }

  /** The list of copies under a copied node makes it a whole copy. */
  twostate lemma Filled(new n: Item, new root: Tree, new f: Forest)
    requires old(allocated(n)) && old(allocated(root))
    requires root.shape == Shape(n, root.shape.strs, []) && old(Whole(root)) && Built(n, f) && fresh(f.cells)
    requires Single(n) == old(Single(n)) && n.isReference == old(n.isReference) && n.nameIsConst == old(n.nameIsConst)
    requires n.valuestring == old(n.valuestring) && n.name == old(n.name)
    requires n.kind == old(n.kind) && n.mantissa == old(n.mantissa) && n.exponent == old(n.exponent)
    ensures var d := Tree(Shape(n, root.shape.strs, f.kids), f.tops + f.below, root.cells + f.cells);
            Whole(d) && ImageOf(d.shape) == old(ImageOf(root.shape)).(kids := Images(f.kids))
            && ConstNamed(ImageOf(d.shape)) == ((n.nameIsConst && n.name != null) || AnyConstNamed(Images(f.kids)))
  {
    TreeOver(n, f);
    assert root.cells == {n} + Strings(n);
  }

  lemma Combined(live: Live, now: Live, live': Live, cells: set<object>, more: set<object>,
                 lost: set<object>, gone: set<object>, any: bool, anyMore: bool)
    requires Accounted(live, now, cells, lost, any) && Accounted(now, live', more, gone, anyMore)
    requires lost !! more && gone !! cells
    ensures Accounted(live, live', cells + more, lost + gone, any || anyMore)
  {
  }

  /** The walk along the children. */
  method DuplicateList(item: Item, n: Item, live: Live, ghost c: Children)
      returns (live': Live, ghost f: Forest, ghost lost: set<object>)
    requires Walks(item, c) && n.child == null && n != item && n !in c.tops && n !in c.below
    modifies n`child
    ensures fresh(f.cells) && fresh(lost) && Built(n, f) && Images(f.kids) == c.images
    ensures Accounted(live, live', f.cells, lost, AnyConstNamed(c.images))
    decreases c.kids, 2
  {
    live', f, lost := live, NOTHING, {};
    var cptr := item.child;
    var nptr: Item? := null;
    while cptr != null
      invariant Copying(item, cptr, n, nptr, c, f) && Books(live, live', f, lost, c)
      invariant (forall o :: o in f.cells ==> fresh(o)) && forall o :: o in lost ==> fresh(o)
      decreases |c.kids| - |f.kids|
    {
      NewNodes(n, f, item, c);
      cptr, nptr, live', f, lost := DuplicateTurn(item, cptr, n, nptr, live', c, f, live, lost);
    }
    CopyingDone(item, n, nptr, c, f, live, live', lost);
  }

  /** The first children have been copied into the list under `n`. */
  ghost predicate Copying(item: Item, cptr: Item?, n: Item, nptr: Item?, c: Children, f: Forest)
    reads item`child, c.tops, c.below, n`child, f.tops, f.below
  {
    match f
    case Forest(kids, _, _, _) =>
      |kids| <= |c.kids| && Walks(item, c) && Built(n, f) && |c.images| == |c.kids|
        && Images(kids) == c.images[..|kids|]
      && cptr == ItemAt(Roots(c.kids), |kids|) && nptr == ItemAt(Roots(kids), |kids| - 1)
  }

  /** What has been allocated for the copies: the cells that they own, and the lost names. */
  ghost predicate Books(live: Live, now: Live, f: Forest, lost: set<object>, c: Children) {
    match f
    case Forest(kids, _, _, cells) =>
      |kids| <= |c.images| && Accounted(live, now, cells, lost, !NoConstNamed(c.images, |kids|))
  }

  lemma CopyingDone(item: Item, n: Item, nptr: Item?, c: Children, f: Forest, live: Live, now: Live, lost: set<object>)
    requires Copying(item, null, n, nptr, c, f) && Books(live, now, f, lost, c)
    ensures Built(n, f) && Images(f.kids) == c.images && Accounted(live, now, f.cells, lost, AnyConstNamed(c.images))
  {
    assert c.images[..|f.kids|] == c.images;
  }

  /** The copies share no node with what is copied. */
  twostate lemma NewNodes(new n: Item, new f: Forest, new item: Item, new c: Children)
    requires old(allocated(item)) && old(allocated(c)) && Built(n, f) && fresh(f.cells)
    ensures fresh(f.tops) && fresh(f.below) && Apart(item, c, f)
  {
    NodesAreCells(f.kids, f.tops, f.below, f.cells);
  }

  ghost predicate Apart(item: Item, c: Children, f: Forest) {
    c.tops !! f.tops && c.below !! f.tops && item !in f.tops
  }

  /** One turn of the loop. */
  method DuplicateTurn(item: Item, cptr: Item, n: Item, nptr: Item?, now: Live,
                       ghost c: Children, ghost f: Forest, ghost live: Live, ghost lost: set<object>)
      returns (next: Item?, newchild: Item, live': Live, ghost f': Forest, ghost lost': set<object>)
    requires Copying(item, cptr, n, nptr, c, f) && Books(live, now, f, lost, c)
    requires n != item && n !in c.tops && n !in c.below && Apart(item, c, f)
    modifies n`child, f.tops`next
    ensures Copying(item, next, n, newchild, c, f') && Books(live, live', f', lost', c)
    ensures |f'.kids| == |f.kids| + 1
    ensures forall o :: o in f'.cells && o !in f.cells ==> fresh(o)
    ensures forall o :: o in lost' && o !in lost ==> fresh(o)
    decreases c.kids, 1
  {
    ghost var d, gone;
    newchild, live', d, gone, f' := DuplicateAndHang(item, cptr, n, nptr, now, c, f);
    StillWalks(item, c);
    next := cptr.next;
    lost' := lost + gone;
    CopiedOneMore(item, cptr, n, c, f, d, f');
    BooksGrow(live, now, live', f, d, f', lost, gone, c);
  }

  /** Duplicates a child and hangs it behind the previous one. */
  method DuplicateAndHang(ghost item: Item, cptr: Item, n: Item, nptr: Item?, now: Live, ghost c: Children,
                          ghost f: Forest)
      returns (newchild: Item, live': Live, ghost d: Tree, ghost lost: set<object>, ghost f': Forest)
    requires Copying(item, cptr, n, nptr, c, f) && |f.kids| < |c.kids|
    modifies n`child, f.tops`next
    ensures newchild == d.shape.node && fresh(d.cells) && fresh(lost) && f.cells !! d.cells
    ensures Extends(f, d, f') && Built(n, f') && Images(f'.kids) == c.images[..|f.kids|] + [c.images[|f.kids|]]
    ensures Accounted(now, live', d.cells, lost, ConstNamed(c.images[|f.kids|]))
    decreases c.kids, 0
  {
    LinkedAt(c.kids, true, |f.kids|);
    ImagesAt(c.kids, |f.kids|);
    newchild, live', d, lost := DuplicateChild(cptr, n, now, c.kids[|f.kids|], All(c.kids[|f.kids|].kids), f);
    f' := AppendTree(n, nptr, newchild, f, d);
  }

  method DuplicateChild(cptr: Item, n: Item, live: Live, ghost k: Shape, ghost src: set<Item>, ghost f: Forest)
      returns (newchild: Item, live': Live, ghost d: Tree, ghost lost: set<object>)
    requires k.node == cptr && src == All(k.kids) && LinkedTree(k, true) && Built(n, f)
    ensures d.shape.node == newchild && fresh(newchild) && fresh(d.cells) && fresh(lost)
    ensures Built(n, f) && Whole(d) && Foreign(n, f, d)
    ensures ImageOf(d.shape) == old(ImageOf(k)) && Images(f.kids) == old(Images(f.kids))
    ensures Accounted(live, live', d.cells, lost, ConstNamed(ImageOf(d.shape)))
    decreases k, 5
  {
    newchild, live', d, lost := Duplicate(cptr, true, live, k, src);
    NewTree(d);
    StillBuilt(n, f);
  }

  twostate lemma NewTree(new d: Tree)
    requires Grown(d) && fresh(d.cells)
    ensures fresh(d.under)
  {
    NodesAreCells(d.shape.kids, Tops(d.shape.kids), Below(d.shape.kids), Cells(d.shape.kids));
  }

  lemma CopiedOneMore(item: Item, cptr: Item, n: Item, c: Children, f: Forest, d: Tree, f': Forest)
    requires |f.kids| < |c.kids| == |c.images| && Walks(item, c) && cptr == c.kids[|f.kids|].node
    requires Extends(f, d, f') && Built(n, f') && Images(f'.kids) == c.images[..|f.kids|] + [c.images[|f.kids|]]
    ensures Copying(item, cptr.next, n, d.shape.node, c, f')
  {
    assert c.images[..|f.kids|] + [c.images[|f.kids|]] == c.images[..|f'.kids|];
  }

  lemma BooksGrow(live: Live, now: Live, live': Live, f: Forest, d: Tree, f': Forest,
                  lost: set<object>, gone: set<object>, c: Children)
    requires Books(live, now, f, lost, c) && |f.kids| < |c.images| && Extends(f, d, f')
    requires Accounted(now, live', d.cells, gone, ConstNamed(c.images[|f.kids|])) && gone !! f.cells && lost !! d.cells
    ensures Books(live, live', f', lost + gone, c)
  {
    Combined(live, now, live', f.cells, d.cells, lost, gone,
             !NoConstNamed(c.images, |f.kids|), ConstNamed(c.images[|f.kids|]));
  }

  /** Copying a tree and deleting the copy gives everything back, exactly when no node of it has a name that is
      flagged constant. */
  method DuplicateThenDelete(item: Item, live: Live, ghost t: Shape, ghost src: set<Item>) returns (live': Live)
    requires t.node == item && src == All(t.kids) && LinkedTree(t, true)
    ensures live <= live' && (live' == live <==> !ConstNamed(old(ImageOf(t))))
  {
    var n;
    ghost var d, lost;
    n, live', d, lost := Duplicate(item, true, live, t, src);
    Alone(d.shape);
    live' := Delete(n, live', [d.shape]);
    assert live' == live + lost by {
      assert live !! d.cells;
    }
    assert live !! lost;
  }

  /** An item named as cJSON_AddItemToObjectCS does is one whose copy cannot be given back. */
  method ConstantNameLeaks(name: Str, live: Live) returns (live': Live)
    ensures live < live'
  {
    var item := new Item();
    item.name, item.nameIsConst := name, true;
    ghost var t := Shape(item, {}, []);
    live' := DuplicateThenDelete(item, live, t, {});
  }

  /** Deleting a reference frees its node and nothing of what it shares. */
  method ReferenceThenDelete(item: Item, live: Live) returns (live': Live)
    ensures live' == live
  {
    var r;
    r, live' := CreateReference(item, live);
    ghost var t := Shape(r, {}, []);
    Alone(t);
    live' := Delete(r, live', [t]);
  }

  // ---------------------------------------------------------------- edits that delete

  /** The subtree of the item that an edit removes, apart from the list that is edited. */
  ghost predicate Removable(a: Item, ns: seq<Item>, k: nat, d: Shape, live: Live)
    reads if k < |ns| then {d.node} + All(d.kids) else {}
  {
    k < |ns| ==> d.node == ns[k] && LinkedTree(d, false) && SeparateTree(d) && TreeCells(d) <= live
                 && a !in All(d.kids) && forall x :: x in ns ==> x !in All(d.kids)
  }

  method DeleteAlone(c: Item, live: Live, ghost d: Shape) returns (live': Live)
    requires Single(c) && d.node == c && LinkedTree(d, false) && SeparateTree(d) && TreeCells(d) <= live
    ensures live' == live - TreeCells(d)
  {
    Alone(d);
    live' := Delete(c, live, [d]);
  }

  /** cJSON_DeleteItemFromArray */
  method DeleteItemFromArray(a: Item, which: int, live: Live, ghost ns: seq<Item>, ghost d: Shape,
                             ghost under: set<Item>)
      returns (live': Live)
    requires IsList(a, ns) && Removable(a, ns, Index(which), d, live) && under == All(d.kids)
    modifies a`child, Elements(ns)`next, Elements(ns)`prev
    ensures IsList(a, Removed(ns, Index(which)))
    ensures live' == if Index(which) < |ns| then live - TreeCells(d) else live
  {
    var c := DetachItemFromArray(a, which, ns);
    live' := live;
    if c != null {
      StillTree(d, false, under);
      live' := DeleteAlone(c, live, d);
    }
  }

  /** cJSON_ReplaceItemInArray */
  method ReplaceItemInArray(a: Item, which: int, newitem: Item, live: Live,
                            ghost ns: seq<Item>, ghost d: Shape, ghost under: set<Item>) returns (live': Live)
    requires IsList(a, ns) && newitem !in ns && newitem != a && Single(newitem)
    requires Removable(a, ns, Index(which), d, live) && under == All(d.kids) && newitem !in under
    modifies a`child, Elements(ns)`next, Elements(ns)`prev, newitem`next, newitem`prev
    ensures IsList(a, Updated(ns, Index(which), newitem))
    ensures live' == if Index(which) < |ns| then live - TreeCells(d) else live
  {
    var c := Relink(a, which, newitem, ns);
    live' := live;
    if c != null {
      StillTree(d, false, under);
      live' := DeleteAlone(c, live, d);
    }
  }
}
