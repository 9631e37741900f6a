/** The mutable cJSON tree: nodes, child lists, and who owns what. */
module Items {
  import opened Bytes

  /** A string allocated for a node. Its characters never change while a node points at it. */
  class Str {
    const chars: text

    constructor (chars: text)
      ensures this.chars == chars
    {
      this.chars := chars;
    }
  }

  /** `type & 255` */
  datatype Kind = FalseKind | TrueKind | NullKind | NumberKind | StringKind | ArrayKind | ObjectKind

  /** struct cJSON. The two flags are kept apart from the kind; `name` is the field `string`, and a number is
      kept exactly. */
  class Item {
    var next: Item?
    var prev: Item?
    var child: Item?
    var kind: Kind
    var isReference: bool
    var nameIsConst: bool
    var valuestring: Str?
    var mantissa: int
    var exponent: int
    var name: Str?

    /** cJSON_New_Item: all bytes zero. */
    constructor ()
      ensures Blank() && next == null && prev == null && name == null
      ensures kind == FalseKind && !isReference && !nameIsConst && mantissa == 0 && exponent == 0
    {
      next, prev, child := null, null, null;
      kind, isReference, nameIsConst := FalseKind, false, false;
      valuestring, name := null, null;
      mantissa, exponent := 0, 0;
    }

    /** Nothing hangs on the node yet. */
    predicate Blank()
      reads this`child, this`valuestring
    {
      child == null && valuestring == null
    }
  }

  // ---------------------------------------------------------------- child lists

  ghost function Elements(ns: seq<Item>): set<Item> {
    set i | 0 <= i < |ns| :: ns[i]
  }

  ghost function ItemAt(ns: seq<Item>, i: int): Item? {
    if 0 <= i < |ns| then ns[i] else null
  }

  /** `head` starts a doubly linked list whose nodes are `ns`. */
  ghost predicate Chain(head: Item?, ns: seq<Item>)
    reads Elements(ns)`next, Elements(ns)`prev
  {
    head == ItemAt(ns, 0)
    && (forall i {:trigger ns[i].next} :: 0 <= i < |ns| ==> ns[i].next == ItemAt(ns, i + 1))
    && (forall i {:trigger ns[i].prev} :: 0 <= i < |ns| ==> ns[i].prev == ItemAt(ns, i - 1))
  }

  /** Such a list is acyclic: no node occurs in it twice. */
  lemma {:induction false} ChainIsAcyclic(head: Item?, ns: seq<Item>, i: nat, j: nat)
    requires Chain(head, ns) && i < j < |ns|
    ensures ns[i] != ns[j]
    decreases |ns| - j
  {
    if ns[i] == ns[j] {
      assert ns[i].next == ns[j].next;
      if j + 1 < |ns| {
        ChainIsAcyclic(head, ns, i + 1, j + 1);
      }
    }
  }

  /** The nodes of the list are determined by the pointers alone. */
  lemma {:induction false} ChainIsUnique(head: Item?, ns: seq<Item>, ms: seq<Item>, i: nat)
    requires Chain(head, ns) && Chain(head, ms) && i <= |ns| && i <= |ms|
    requires ItemAt(ns, i) == ItemAt(ms, i)
    ensures ns[i..] == ms[i..]
    decreases |ns| - i
  {
    if i < |ns| {
      assert i < |ms| && ns[i].next == ms[i].next;
      ChainIsUnique(head, ns, ms, i + 1);
      assert ns[i..] == [ns[i]] + ns[i + 1..];
      assert ms[i..] == [ms[i]] + ms[i + 1..];
    }
  }

  /** `ns` are the items of the array or object `a`. */
  ghost predicate IsList(a: Item, ns: seq<Item>)
    reads a`child, Elements(ns)`next, Elements(ns)`prev
  {
    a !in ns && Chain(a.child, ns)
  }

  /** A node that belongs to no list. */
  ghost predicate Single(item: Item)
    reads item`next, item`prev
  {
    item.next == null && item.prev == null
  }

  /** The index as the editing functions see it: negative means the first. */
  function Index(which: int): nat {
    if which < 0 then 0 else which
  }

  /** cJSON_GetArrayItem, and the walk with which every edit starts. */
  method GetArrayItem(a: Item, which: int, ghost ns: seq<Item>) returns (c: Item?)
    requires IsList(a, ns)
    ensures c == ItemAt(ns, Index(which))
    ensures c == if ns == [] || which >= |ns| then null else ns[if which < 0 then 0 else which]
  {
    c := a.child;
    var left := which;
    ghost var i := 0;
    while c != null && left > 0
      invariant 0 <= i <= |ns| && c == ItemAt(ns, i)
      invariant if left > 0 then i + left == Index(which) else i == Index(which)
      decreases |ns| - i
    {
      left, c, i := left - 1, c.next, i + 1;
    }
  }

  /** cJSON_GetArraySize */
  method GetArraySize(a: Item, ghost ns: seq<Item>) returns (i: nat)
    requires IsList(a, ns)
    ensures i == |ns|
  {
    var c := a.child;
    i := 0;
    while c != null
      invariant 0 <= i <= |ns| && c == ItemAt(ns, i)
      decreases |ns| - i
    {
      i, c := i + 1, c.next;
    }
  }

  /** cJSON_AddItemToArray */
  method AddItemToArray(a: Item, item: Item?, ghost ns: seq<Item>)
    requires IsList(a, ns) && (item != null ==> item !in ns && item != a && Single(item))
    modifies a`child, Elements(ns)`next, (if item == null then {} else {item})`prev
    ensures IsList(a, if item == null then ns else ns + [item])
  {
    var c := a.child;
    if item == null { return; }
    if c == null {
      a.child := item;
    } else {
      ghost var i := 0;
      while c != null && c.next != null
        invariant 0 <= i < |ns| && c == ns[i]
        decreases |ns| - i
      {
        c, i := c.next, i + 1;
      }
      assert i == |ns| - 1;
      ListIsAcyclic(a, ns);
      c.next := item;
      item.prev := c;
    }
  }

  lemma {:induction false} ListIsAcyclic(a: Item, ns: seq<Item>)
    requires IsList(a, ns)
    ensures forall i, j :: 0 <= i < j < |ns| ==> ns[i] != ns[j]
  {
    forall i, j | 0 <= i < j < |ns| ensures ns[i] != ns[j] {
      ChainIsAcyclic(a.child, ns, i, j);
    }
  }

  function Inserted<T>(s: seq<T>, i: nat, x: T): seq<T> {
    if i < |s| then s[..i] + [x] + s[i..] else s + [x]
  }

  function Removed<T>(s: seq<T>, i: nat): seq<T> {
    if i < |s| then s[..i] + s[i + 1..] else s
  }

  function Updated<T>(s: seq<T>, i: nat, x: T): seq<T> {
    if i < |s| then s[i := x] else s
  }

  /** Where an edit takes effect: at the front for a negative index, and at the end or not at all behind it. */
  lemma InsertedWhere<T>(s: seq<T>, which: int, x: T)
    ensures Inserted(s, Index(which), x) == if which < 0 then [x] + s
                                            else if which <= |s| then s[..which] + [x] + s[which..] else s + [x]
  {
    assert s[..0] + [x] + s[0..] == [x] + s;
    if which == |s| {
      assert s[..which] + [x] + s[which..] == s + [x];
    }
  }

  lemma RemovedWhere<T>(s: seq<T>, which: int)
    ensures Removed(s, Index(which)) == if s == [] || which >= |s| then s
                                        else if which < 0 then s[1..] else s[..which] + s[which + 1..]
  {
    assert s != [] ==> s[..0] + s[1..] == s[1..];
  }

  lemma UpdatedWhere<T>(s: seq<T>, which: int, x: T)
    ensures Updated(s, Index(which), x) == if s == [] || which >= |s| then s
                                           else if which < 0 then [x] + s[1..]
                                           else s[..which] + [x] + s[which + 1..]
  {
  }

  lemma {:induction false} InsertedChain(a: Item, ns: seq<Item>, k: nat, x: Item)
    requires k < |ns| && a !in ns && x !in ns && x != a
    requires forall i :: 0 <= i < |ns| ==> ns[i].next == if i + 1 == k then x else ItemAt(ns, i + 1)
    requires forall i :: 0 <= i < |ns| ==> ns[i].prev == if i == k then x else ItemAt(ns, i - 1)
    requires x.next == ns[k] && x.prev == ItemAt(ns, k - 1)
    requires a.child == if k == 0 then x else ns[0]
    ensures IsList(a, Inserted(ns, k, x))
  {
    var ms := Inserted(ns, k, x);
    forall i | 0 <= i < |ms| ensures ms[i].next == ItemAt(ms, i + 1) && ms[i].prev == ItemAt(ms, i - 1) {
      if i < k {
        assert ms[i] == ns[i];
      } else if i > k {
        assert ms[i] == ns[i - 1];
      }
    }
  }

  lemma {:induction false} RemovedChain(a: Item, ns: seq<Item>, k: nat)
    requires k < |ns| && a !in ns
    requires forall i :: 0 <= i < |ns| && i != k ==>
               ns[i].next == if i + 1 == k then ItemAt(ns, k + 1) else ItemAt(ns, i + 1)
    requires forall i :: 0 <= i < |ns| && i != k ==>
               ns[i].prev == if i == k + 1 then ItemAt(ns, k - 1) else ItemAt(ns, i - 1)
    requires a.child == if k == 0 then ItemAt(ns, 1) else ns[0]
    ensures IsList(a, Removed(ns, k))
  {
    var ms := Removed(ns, k);
    forall i | 0 <= i < |ms| ensures ms[i].next == ItemAt(ms, i + 1) && ms[i].prev == ItemAt(ms, i - 1) {
      if i < k {
        assert ms[i] == ns[i];
      } else {
        assert ms[i] == ns[i + 1];
      }
    }
  }

  lemma {:induction false} UpdatedChain(a: Item, ns: seq<Item>, k: nat, x: Item)
    requires k < |ns| && a !in ns && x !in ns && x != a
    requires forall i :: 0 <= i < |ns| && i != k ==> ns[i].next == if i + 1 == k then x else ItemAt(ns, i + 1)
    requires forall i :: 0 <= i < |ns| && i != k ==> ns[i].prev == if i == k + 1 then x else ItemAt(ns, i - 1)
    requires x.next == ItemAt(ns, k + 1) && x.prev == ItemAt(ns, k - 1)
    requires a.child == if k == 0 then x else ns[0]
    ensures IsList(a, Updated(ns, k, x))
  {
    var ms := Updated(ns, k, x);
    forall i | 0 <= i < |ms| ensures ms[i].next == ItemAt(ms, i + 1) && ms[i].prev == ItemAt(ms, i - 1) {
      assert i != k ==> ms[i] == ns[i];
    }
  }

  /** cJSON_InsertItemInArray */
  method InsertItemInArray(a: Item, which: int, newitem: Item, ghost ns: seq<Item>)
    requires IsList(a, ns) && newitem !in ns && newitem != a && Single(newitem)
    modifies a`child, Elements(ns)`next, Elements(ns)`prev, newitem`next, newitem`prev
    ensures IsList(a, Inserted(ns, Index(which), newitem))
  {
    var c := GetArrayItem(a, which, ns);
    if c == null {
      AddItemToArray(a, newitem, ns);
    } else {
      LinkBefore(a, c, newitem, ns, Index(which));
    }
  }

  method LinkBefore(a: Item, c: Item, newitem: Item, ghost ns: seq<Item>, ghost k: nat)
    requires IsList(a, ns) && newitem !in ns && newitem != a && k < |ns| && c == ns[k]
    modifies a`child, Elements(ns)`next, Elements(ns)`prev, newitem`next, newitem`prev
    ensures IsList(a, Inserted(ns, k, newitem))
  {
    ListIsAcyclic(a, ns);
    ghost var before := ItemAt(ns, k - 1);
    assert c.prev == before && a.child == ns[0];
    newitem.next := c;
    newitem.prev := c.prev;
    c.prev := newitem;
    if c == a.child {
      assert k == 0;
      a.child := newitem;
    } else {
      assert k > 0 && before == ns[k - 1];
      newitem.prev.next := newitem;
    }
    InsertedChain(a, ns, k, newitem);
  }

  /** cJSON_DetachItemFromArray */
  method DetachItemFromArray(a: Item, which: int, ghost ns: seq<Item>) returns (c: Item?)
    requires IsList(a, ns)
    modifies a`child, Elements(ns)`next, Elements(ns)`prev
    ensures c == ItemAt(ns, Index(which)) && IsList(a, Removed(ns, Index(which)))
    ensures c != null ==> Single(c)
  {
    c := GetArrayItem(a, which, ns);
    if c != null {
      Unlink(a, c, ns, Index(which));
    }
  }

  method Unlink(a: Item, c: Item, ghost ns: seq<Item>, ghost k: nat)
    requires IsList(a, ns) && k < |ns| && c == ns[k]
    modifies a`child, Elements(ns)`next, Elements(ns)`prev
    ensures IsList(a, Removed(ns, k)) && Single(c)
  {
    ListIsAcyclic(a, ns);
    if c.prev != null {
      c.prev.next := c.next;
    }
    if c.next != null {
      c.next.prev := c.prev;
    }
    if c == a.child {
      a.child := c.next;
    }
    c.prev, c.next := null, null;
    RemovedChain(a, ns, k);
  }

  /** The relinking half of cJSON_ReplaceItemInArray; the old item is then deleted. */
  method Relink(a: Item, which: int, newitem: Item, ghost ns: seq<Item>) returns (c: Item?)
    requires IsList(a, ns) && newitem !in ns && newitem != a && Single(newitem)
    modifies a`child, Elements(ns)`next, Elements(ns)`prev, newitem`next, newitem`prev
    ensures c == ItemAt(ns, Index(which)) && IsList(a, Updated(ns, Index(which), newitem))
    ensures c != null ==> Single(c)
    ensures c == null ==> Single(newitem)
  {
    c := GetArrayItem(a, which, ns);
    if c != null {
      LinkInstead(a, c, newitem, ns, Index(which));
    }
  }

  method LinkInstead(a: Item, c: Item, newitem: Item, ghost ns: seq<Item>, ghost k: nat)
    requires IsList(a, ns) && newitem !in ns && newitem != a && k < |ns| && c == ns[k]
    modifies a`child, Elements(ns)`next, Elements(ns)`prev, newitem`next, newitem`prev
    ensures IsList(a, Updated(ns, k, newitem)) && Single(c)
  {
    ListIsAcyclic(a, ns);
    newitem.next := c.next;
    newitem.prev := c.prev;
    if newitem.next != null {
      newitem.next.prev := newitem;
    }
    if c == a.child {
      a.child := newitem;
    } else {
      newitem.prev.next := newitem;
    }
    c.next, c.prev := null, null;
    UpdatedChain(a, ns, k, newitem);
  }
}
