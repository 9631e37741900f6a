/** The allocator of message-queue keys: a fixed array in shared memory. */
module KeyCache {

  const FREED := -1

  /** Length of the used prefix: everything before the first 0. */
  function Used(c: seq<int>): (n: nat)
    ensures n <= |c|
  {
    if c == [] || c[0] == 0 then 0 else 1 + Used(c[1..])
  }

  lemma {:induction false} UsedIsFirstZero(c: seq<int>)
    ensures forall j :: 0 <= j < Used(c) ==> c[j] != 0
    ensures Used(c) < |c| ==> c[Used(c)] == 0
  {
    if c != [] && c[0] != 0 {
      UsedIsFirstZero(c[1..]);
      forall j | 0 <= j < Used(c) ensures c[j] != 0 {
        assert j > 0 ==> c[j] == c[1..][j - 1];
      }
    }
  }

  lemma {:induction false} UsedIs(c: seq<int>, n: nat)
    requires n <= |c| && (n < |c| ==> c[n] == 0) && forall j :: 0 <= j < n ==> c[j] != 0
    ensures Used(c) == n
  {
    if n > 0 {
      UsedIs(c[1..], n - 1);
    }
  }

  /** The keys handed out and not given back. */
  ghost function Live(c: seq<int>): set<int> {
    set j | 0 <= j < |c| && c[j] > 0 :: c[j]
  }

  /** The keys there are: all but the first of the configured range, which the main process keeps. */
  function Keys(start: nat, max: nat): set<int> {
    if max <= 1 then {} else Keys(start, max - 1) + {start + max - 1}
  }

  lemma {:induction false} KeysAre(start: nat, max: nat)
    ensures forall k :: k in Keys(start, max) <==> start < k < start + max
    ensures |Keys(start, max)| == if max == 0 then 0 else max - 1
  {
    if max > 1 {
      KeysAre(start, max - 1);
    }
  }

  /** The used cells hold distinct keys of the range or are freed, and what follows is 0. */
  ghost predicate Ordered(c: seq<int>, start: nat) {
    (forall j :: Used(c) <= j < |c| ==> c[j] == 0)
    && (forall j :: 0 <= j < Used(c) ==> c[j] == FREED || start < c[j] < start + |c|)
    && (forall j, k :: 0 <= j < k < Used(c) && c[j] > 0 ==> c[j] != c[k])
  }

  /** In addition there is still a 0 at the end, unless there is no cell at all. */
  ghost predicate Valid(c: seq<int>, start: nat) {
    Ordered(c, start) && (|c| > 0 ==> Used(c) < |c|)
  }

  // ---------------------------------------------------------------- what the two operations compute

  /** The smallest key from `i` on that is not in the cache, or -1. */
  function SmallestFree(c: seq<int>, start: nat, i: int): (k: int)
    requires start < i
    decreases start + |c| - i
  {
    if i >= start + |c| then -1 else if i in c then SmallestFree(c, start, i + 1) else i
  }

  lemma {:induction false} SmallestFreeIsLeast(c: seq<int>, start: nat, i: int)
    requires start < i
    ensures var k := SmallestFree(c, start, i);
            if k == -1 then forall m :: i <= m < start + |c| ==> m in c
            else i <= k < start + |c| && k !in c && forall m :: i <= m < k ==> m in c
    decreases start + |c| - i
  {
    if i < start + |c| && i in c {
      SmallestFreeIsLeast(c, start, i + 1);
    }
  }

  /** The lowest freed cell among the used ones, or else the first unused one. */
  function Slot(c: seq<int>): (j: nat)
    ensures j <= |c|
  {
    if c == [] || c[0] == 0 || c[0] == FREED then 0
    else if FREED in c[..Used(c)] then 1 + Slot(c[1..])
    else Used(c)
  }

  lemma {:induction false} SlotIs(c: seq<int>, j: nat)
    requires j <= Used(c) && forall m :: 0 <= m < j ==> c[m] != FREED
    requires if FREED in c[..Used(c)] then j < Used(c) && c[j] == FREED else j == Used(c)
    ensures Slot(c) == j
    decreases |c|
  {
    UsedIsFirstZero(c);
    if c != [] && c[0] != 0 && c[0] != FREED {
      var d := c[1..];
      assert Used(c) == 1 + Used(d);
      assert forall m :: 0 <= m < Used(d) ==> d[m] == c[m + 1];
      if FREED in c[..Used(c)] {
        assert d[j - 1] == FREED && FREED in d[..Used(d)];
        SlotIs(d, j - 1);
      }
    }
  }

  /** The answer of getMsgKey. */
  function Chosen(c: seq<int>, start: nat): int {
    if Used(c) == |c| then -1 else SmallestFree(c, start, start + 1)
  }

  function AfterGet(c: seq<int>, start: nat): seq<int> {
    if Chosen(c, start) < 0 || Slot(c) >= |c| then c else c[Slot(c) := Chosen(c, start)]
  }

  /** delMsgKey stops at the first cell that holds the key or 0, and frees it when it is the key. */
  function AfterDel(c: seq<int>, key: int): (d: seq<int>)
    ensures |d| == |c|
  {
    if c == [] then c
    else if c[0] == key then [FREED] + c[1..]
    else if c[0] == 0 then c
    else [c[0]] + AfterDel(c[1..], key)
  }

  // ---------------------------------------------------------------- what they mean

  lemma {:induction false} Pigeonhole(c: seq<int>, n: nat, holes: set<int>)
    requires n <= |c| && forall j :: 0 <= j < n ==> c[j] in holes
    requires forall j, k :: 0 <= j < k < n ==> c[j] != c[k]
    ensures n <= |holes|
  {
    if n > 0 {
      Pigeonhole(c, n - 1, holes - {c[n - 1]});
    }
  }

  /** While a key is free and no cell is freed, at least two cells are unused. */
  lemma {:induction false} RoomForOne(c: seq<int>, start: nat, key: int)
    requires Ordered(c, start) && start < key < start + |c| && key !in c && FREED !in c[..Used(c)]
    ensures Used(c) + 1 < |c|
  {
    UsedIsFirstZero(c);
    KeysAre(start, |c|);
    forall j | 0 <= j < Used(c) ensures c[j] in Keys(start, |c|) - {key} {
      assert c[j] == c[..Used(c)][j];
    }
    assert forall j :: 0 <= j < Used(c) ==> c[j] > 0;
    Pigeonhole(c, Used(c), Keys(start, |c|) - {key});
  }

  lemma {:induction false} SlotFacts(c: seq<int>)
    ensures Slot(c) <= Used(c) && -1 !in c[..Slot(c)]
    ensures if -1 in c[..Used(c)] then Slot(c) < Used(c) && c[Slot(c)] == -1 else Slot(c) == Used(c)
    decreases |c|
  {
    UsedIsFirstZero(c);
    if c != [] && c[0] != 0 && c[0] != FREED {
      var d := c[1..];
      assert c[..Used(c)] == [c[0]] + d[..Used(d)];
      if FREED in c[..Used(c)] {
        SlotFacts(d);
        assert c[..Slot(c)] == [c[0]] + d[..Slot(d)];
      }
    } else if c != [] && c[0] == FREED {
      assert c[..Used(c)][0] == FREED;
    }
  }

  /** The invariant of the cache, and the cache as a set: getMsgKey adds the smallest key that is not live, and
      answers -1 only when every key is live. */
  lemma {:induction false} GetAdds(c: seq<int>, start: nat)
    requires Valid(c, start)
    ensures Valid(AfterGet(c, start), start) && |AfterGet(c, start)| == |c|
    ensures Chosen(c, start) == -1 <==> Live(c) == Keys(start, |c|)
    ensures Chosen(c, start) == -1 ==> AfterGet(c, start) == c
    ensures Chosen(c, start) != -1 ==> Live(AfterGet(c, start)) == Live(c) + {Chosen(c, start)}
    ensures Chosen(c, start) != -1 ==> IsLeastFree(Chosen(c, start), Live(c), start, |c|)
  {
    ChosenIsLeastFree(c, start);
    if Chosen(c, start) != -1 {
      LiveAreKeys(c, start);
      KeysAre(start, |c|);
      FillSlot(c, start, Chosen(c, start));
    }
  }

  lemma {:induction false} ChosenIsLeastFree(c: seq<int>, start: nat)
    requires Valid(c, start)
    ensures if Chosen(c, start) == -1 then Live(c) == Keys(start, |c|)
            else IsLeastFree(Chosen(c, start), Live(c), start, |c|)
  {
    var top := if Chosen(c, start) == -1 then start + |c| else Chosen(c, start);
    SmallestFreeIsLeast(c, start, start + 1);
    KeysAre(start, |c|);
    LiveAreKeys(c, start);
    BelowAreLive(c, start, top);
  }

  lemma BelowAreLive(c: seq<int>, start: nat, top: int)
    requires Ordered(c, start) && top <= start + |c| && forall m :: start < m < top ==> m in c
    ensures forall k :: k in Keys(start, |c|) && k < top ==> k in Live(c)
    ensures top == start + |c| ==> Live(c) == Keys(start, |c|)
  {
    KeysAre(start, |c|);
    LiveAreKeys(c, start);
  }

  ghost predicate IsLeastFree(key: int, live: set<int>, start: nat, max: nat) {
    key in Keys(start, max) && key !in live && forall k :: k in Keys(start, max) && k < key ==> k in live
  }

  lemma {:induction false} LiveAreKeys(c: seq<int>, start: nat)
    requires Ordered(c, start)
    ensures Live(c) <= Keys(start, |c|) && forall k :: k > 0 ==> (k in Live(c) <==> k in c)
  {
    KeysAre(start, |c|);
  }

  lemma {:induction false} FillSlot(c: seq<int>, start: nat, key: int)
    requires Valid(c, start) && start < key < start + |c| && key !in c
    ensures Slot(c) < |c| && var d := c[Slot(c) := key]; Valid(d, start) && Live(d) == Live(c) + {key}
  {
    UsedIsFirstZero(c);
    SlotFacts(c);
    var j := Slot(c);
    if j == Used(c) {
      RoomForOne(c, start, key);
    }
    FilledIsValid(c, start, key, j);
    FilledIsLive(c, key, j);
  }

  lemma FilledIsValid(c: seq<int>, start: nat, key: int, j: nat)
    requires Valid(c, start) && start < key < start + |c| && key !in c && j <= Used(c) && j + 1 < |c|
    ensures Valid(c[j := key], start)
  {
    UsedIsFirstZero(c);
    UsedIs(c[j := key], if j == Used(c) then j + 1 else Used(c));
  }

  /** A key in a cell that had none. */
  lemma FilledIsLive(c: seq<int>, key: int, j: nat)
    requires j < |c| && key > 0 && c[j] <= 0
    ensures Live(c[j := key]) == Live(c) + {key}
  {
    var d := c[j := key];
    assert d[j] == key;
    forall k | k in Live(c) ensures k in Live(d) {
      var m :| 0 <= m < |c| && c[m] > 0 && c[m] == k;
      assert d[m] == k;
    }
  }

  /** delMsgKey takes exactly its key out. */
  lemma {:induction false} DelRemoves(c: seq<int>, start: nat, key: int)
    requires Valid(c, start) && key != 0
    ensures Valid(AfterDel(c, key), start) && Live(AfterDel(c, key)) == Live(c) - {key}
    ensures key !in Live(c) ==> AfterDel(c, key) == c
  {
    DelFacts(c, key);
    LiveAreKeys(c, start);
    if key in c[..Used(c)] {
      var j :| 0 <= j < Used(c) && c[j] == key && AfterDel(c, key) == c[j := FREED];
      FreeCell(c, start, j);
    } else {
      LiveInUsedPart(c);
    }
  }

  lemma LiveInUsedPart(c: seq<int>)
    requires forall j :: Used(c) <= j < |c| ==> c[j] == 0
    ensures forall k :: k in Live(c) ==> k in c[..Used(c)]
  {
    forall k | k in Live(c) ensures k in c[..Used(c)] {
      var m :| 0 <= m < |c| && c[m] > 0 && c[m] == k;
      assert c[..Used(c)][m] == k;
    }
  }

  lemma {:induction false} FreeCell(c: seq<int>, start: nat, j: nat)
    requires Valid(c, start) && j < Used(c)
    ensures var d := c[j := FREED]; Valid(d, start) && Live(d) == Live(c) - {c[j]}
    ensures c[j] in Live(c) || c[j := FREED] == c
  {
    UsedIsFirstZero(c);
    var d := c[j := FREED];
    UsedIs(d, Used(c));
    forall k | k in Live(c) - {c[j]} ensures k in Live(d) {
      var m :| 0 <= m < |c| && c[m] > 0 && c[m] == k;
      assert d[m] == k;
    }
    forall k | k in Live(d) ensures k in Live(c) - {c[j]} {
      var m :| 0 <= m < |d| && d[m] > 0 && d[m] == k;
      assert c[m] == k && m != j;
      assert c[j] == k ==> m < Used(c);
    }
  }

  lemma {:induction false} DelFacts(c: seq<int>, key: int)
    requires key != 0
    ensures if key in c[..Used(c)] then exists j :: 0 <= j < Used(c) && c[j] == key && AfterDel(c, key) == c[j := FREED]
            else AfterDel(c, key) == c
  {
    if c != [] && c[0] != 0 {
      var d := c[1..];
      assert c[..Used(c)] == [c[0]] + d[..Used(d)];
      assert c == [c[0]] + d;
      DelFacts(d, key);
      if c[0] != key {
        assert key in c[..Used(c)] <==> key in d[..Used(d)];
        if key in d[..Used(d)] {
          var j :| 0 <= j < Used(d) && d[j] == key && AfterDel(d, key) == d[j := FREED];
          assert c[j + 1] == key && AfterDel(c, key) == c[j + 1 := FREED];
        }
      } else {
        assert c[..Used(c)][0] == key;
        assert AfterDel(c, key) == c[0 := FREED];
      }
    }
  }

  // ---------------------------------------------------------------- whole runs

  datatype Op = Get | Del(key: int)

  function AfterOp(c: seq<int>, start: nat, op: Op): seq<int> {
    match op
    case Get => AfterGet(c, start)
    case Del(key) => AfterDel(c, key)
  }

  function Run(c: seq<int>, start: nat, ops: seq<Op>): seq<int> {
    if ops == [] then c else AfterOp(Run(c, start, ops[..|ops| - 1]), start, ops[|ops| - 1])
  }

  function Zeros(max: nat): seq<int> {
    seq(max, _ => 0)
  }

  /** Over every run that never deletes the key 0 the last cell stays 0, and a request fails only when all
      `max - 1` keys are live. */
  lemma {:induction false} NeverRunsOutEarly(start: nat, max: nat, ops: seq<Op>)
    requires max > 0 && Del(0) !in ops
    ensures var c := Run(Zeros(max), start, ops);
            |c| == max && Valid(c, start) && c[max - 1] == 0 && start !in Live(c)
            && (Chosen(c, start) == -1 <==> Live(c) == Keys(start, max))
            && (Chosen(c, start) == -1 <==> |Live(c)| == max - 1)
  {
    var c := Run(Zeros(max), start, ops);
    if ops == [] {
      UsedIs(c, 0);
    } else {
      var front, op := ops[..|ops| - 1], ops[|ops| - 1];
      NeverRunsOutEarly(start, max, front);
      assert op in ops;
      OpKeepsValid(Run(Zeros(max), start, front), start, op);
    }
    GetAdds(c, start);
    LiveAreKeys(c, start);
    KeysAre(start, max);
    AllOrFewer(Live(c), Keys(start, max));
  }

  lemma OpKeepsValid(c: seq<int>, start: nat, op: Op)
    requires Valid(c, start) && op != Del(0)
    ensures Valid(AfterOp(c, start, op), start) && |AfterOp(c, start, op)| == |c|
  {
    match op
    case Get => GetAdds(c, start);
    case Del(key) => DelRemoves(c, start, key);
  }

  lemma {:induction false} AllOrFewer(a: set<int>, b: set<int>)
    requires a <= b
    ensures |a| <= |b| && (|a| == |b| <==> a == b)
  {
    var rest := b - a;
    assert b == a + rest;
    assert rest == {} <==> a == b;
  }

  /** One operation on the set of live keys. */
  ghost predicate SetStep(live: set<int>, op: Op, live': set<int>, start: nat, max: nat) {
    match op
    case Get => if live == Keys(start, max) then live' == live
                else exists key :: IsLeastFree(key, live, start, max) && live' == live + {key}
    case Del(key) => live' == live - {key}
  }

  /** The cache refines the set. */
  lemma {:induction false} RefinesSet(start: nat, max: nat, ops: seq<Op>, op: Op)
    requires max > 0 && Del(0) !in ops && op != Del(0)
    ensures SetStep(Live(Run(Zeros(max), start, ops)), op, Live(Run(Zeros(max), start, ops + [op])), start, max)
  {
    var c := Run(Zeros(max), start, ops);
    NeverRunsOutEarly(start, max, ops);
    assert (ops + [op])[..|ops|] == ops;
    match op
    case Get => GetAdds(c, start);
    case Del(key) => DelRemoves(c, start, key);
  }

  /** Deleting the key 0 frees a cell that was never used. The invariant survives exactly when one more is left. */
  lemma {:induction false} DeletingZero(c: seq<int>, start: nat)
    requires Valid(c, start) && |c| > 0
    ensures AfterDel(c, 0) == c[Used(c) := -1]
    ensures Valid(AfterDel(c, 0), start) <==> Used(c) + 1 < |c|
  {
    UsedIsFirstZero(c);
    DelOfZero(c);
    UsedIs(c[Used(c) := FREED], Used(c) + 1);
  }

  lemma {:induction false} DelOfZero(c: seq<int>)
    requires Used(c) < |c|
    ensures AfterDel(c, 0) == c[Used(c) := FREED]
  {
    if c[0] != 0 {
      DelOfZero(c[1..]);
      assert c == [c[0]] + c[1..];
    }
  }

  /** Without any 0 left the answer is -1 even though no key is live. */
  lemma {:induction false} ExhaustedByZeros()
    ensures var c := Run(Zeros(2), 0, [Del(0), Del(0)]); Live(c) == {} && Chosen(c, 0) == -1
  {
    var ops := [Del(0), Del(0)];
    assert ops[..1] == [Del(0)] && ops[..1][..0] == [];
    assert Zeros(2) == [0, 0];
    assert Run(Zeros(2), 0, ops[..1]) == [FREED, 0] by {
      assert Run(Zeros(2), 0, ops[..1][..0]) == [0, 0];
    }
    assert Run(Zeros(2), 0, ops) == [FREED, FREED];
    UsedIs([FREED, FREED], 2);
  }

  // ---------------------------------------------------------------- the operations on the array

  /** The lowest freed cell seen so far, or -1. */
  ghost predicate LowestFreed(c: seq<int>, empty: int) {
    empty == -1 || (0 <= empty < Used(c) && c[empty] == FREED && FREED !in c[..empty])
  }

  /** The inner loop of getMsgKey for the key `i`. */
  method Scan(keyCache: array<int>, i: int, empty0: int) returns (used: bool, j: nat, empty: int)
    requires i > 0 && LowestFreed(keyCache[..], empty0)
    ensures used <==> i in keyCache[..Used(keyCache[..])] || Used(keyCache[..]) == keyCache.Length
    ensures LowestFreed(keyCache[..], empty)
    ensures !used ==> j == Used(keyCache[..]) && (empty == -1 ==> FREED !in keyCache[..j])
  {
    ghost var c := keyCache[..];
    UsedIsFirstZero(c);
    used, j, empty := true, 0, empty0;
    while j < keyCache.Length
      invariant 0 <= j <= Used(c) && used && i !in c[..j] && LowestFreed(c, empty)
      invariant empty == -1 ==> FREED !in c[..j]
    {
      assert c[..j + 1] == c[..j] + [c[j]];
      if keyCache[j] == i || keyCache[j] == 0 {
        if keyCache[j] == 0 {
          used := false;
        }
        break;
      }
      if keyCache[j] == -1 && empty == -1 {
        empty := j;
      }
      j := j + 1;
    }
    assert j < Used(c) ==> c[..Used(c)][j] == c[j];
  }

  /** getMsgKey */
  method GetMsgKey(keyCache: array<int>, start: nat) returns (key: int)
    requires Ordered(keyCache[..], start)
    modifies keyCache
    ensures key == Chosen(old(keyCache[..]), start)
    ensures keyCache[..] == AfterGet(old(keyCache[..]), start)
    ensures if key == -1 then NoKeyLeft(old(keyCache[..]), start) && keyCache[..] == old(keyCache[..])
            else exists j: nat ::
                   Handed(old(keyCache[..]), start, key, j) && keyCache[..] == old(keyCache[..])[j := key]
  {
    ghost var c := keyCache[..];
    GetHands(c, start);
    UsedIsFirstZero(c);
    key := -1;
    var empty, max, i := -1, start + keyCache.Length, start + 1;
    while i < max
      invariant start < i && keyCache[..] == c && LowestFreed(c, empty)
      invariant Used(c) == |c| || SmallestFree(c, start, i) == SmallestFree(c, start, start + 1)
    {
      var used, j;
      used, j, empty := Scan(keyCache, i, empty);
      InUsedPart(c, i);
      if !used {
        key := i;
        SlotIs(c, if empty >= 0 then empty else j);
        if empty >= 0 {
          keyCache[empty] := i;
        } else {
          keyCache[j] := i;
        }
        break;
      }
      i := i + 1;
    }
  }

  /** No cell is unused, or every key is in the cache. */
  predicate NoKeyLeft(c: seq<int>, start: nat) {
    0 !in c || forall m :: start < m < start + |c| ==> m in c
  }

  /** `key` is the smallest one that is not in the cache, and `j` the first cell that is freed or unused. */
  predicate Handed(c: seq<int>, start: nat, key: int, j: nat) {
    start < key < start + |c| && key !in c && (forall m :: start < m < key ==> m in c)
    && j < |c| && (c[j] == -1 || c[j] == 0) && -1 !in c[..j] && 0 !in c[..j]
  }

  lemma {:induction false} GetHands(c: seq<int>, start: nat)
    requires Ordered(c, start)
    ensures var key := Chosen(c, start);
      if key == -1 then NoKeyLeft(c, start) && AfterGet(c, start) == c
      else Slot(c) < |c| && Handed(c, start, key, Slot(c)) && AfterGet(c, start) == c[Slot(c) := key]
  {
    UsedIsFirstZero(c);
    SlotFacts(c);
    SmallestFreeIsLeast(c, start, start + 1);
    if -1 !in c[..Used(c)] && Used(c) < |c| {
      assert 0 !in c[..Used(c)];
    }
  }

  lemma InUsedPart(c: seq<int>, i: int)
    requires i > 0 && forall j :: Used(c) <= j < |c| ==> c[j] == 0
    ensures i in c <==> i in c[..Used(c)]
  {
    if i in c {
      var j :| 0 <= j < |c| && c[j] == i;
      assert c[..Used(c)][j] == i;
    }
  }

  /** Cell `j` holds the key, and no cell before it holds the key or is unused. */
  predicate FirstOf(c: seq<int>, key: int, j: nat) {
    j < |c| && c[j] == key && key !in c[..j] && 0 !in c[..j]
  }

  lemma {:induction false} DelFrees(c: seq<int>, key: int, j: nat)
    requires FirstOf(c, key, j)
    ensures AfterDel(c, key) == c[j := -1]
  {
    if j > 0 {
      FrontOfTail(c, j);
      DelFrees(c[1..], key, j - 1);
    }
  }

  lemma FrontOfTail(c: seq<int>, j: nat)
    requires 0 < j <= |c|
    ensures c[..j] == [c[0]] + c[1..][..j - 1]
  {
    assert c[1..][..j - 1] == c[1..j];
  }

  lemma {:induction false} DelLeaves(c: seq<int>, key: int)
    requires forall j :: 0 <= j < |c| ==> !FirstOf(c, key, j)
    ensures AfterDel(c, key) == c
  {
    assert c != [] ==> !FirstOf(c, key, 0);
    if c != [] && c[0] != 0 {
      assert c == [c[0]] + c[1..];
      forall j | 0 <= j < |c| - 1 ensures !FirstOf(c[1..], key, j) {
        FrontOfTail(c, j + 1);
        assert !FirstOf(c, key, j + 1);
      }
      DelLeaves(c[1..], key);
    }
  }

  /** In `d` the first cell of the key is freed, if there is one, and everything else is as in `c`. */
  ghost predicate FreesFirst(c: seq<int>, key: int, d: seq<int>) {
    (forall j :: 0 <= j < |c| && FirstOf(c, key, j) ==> d == c[j := -1])
    && ((forall j :: 0 <= j < |c| ==> !FirstOf(c, key, j)) ==> d == c)
  }

  lemma {:induction false} DelFreesFirst(c: seq<int>, key: int)
    ensures FreesFirst(c, key, AfterDel(c, key))
  {
    forall j | 0 <= j < |c| && FirstOf(c, key, j) ensures AfterDel(c, key) == c[j := -1] {
      DelFrees(c, key, j);
    }
    if forall j :: 0 <= j < |c| ==> !FirstOf(c, key, j) {
      DelLeaves(c, key);
    }
  }

  /** delMsgKey */
  method DelMsgKey(keyCache: array<int>, key: int)
    modifies keyCache
    ensures keyCache[..] == AfterDel(old(keyCache[..]), key)
    ensures FreesFirst(old(keyCache[..]), key, keyCache[..])
  {
    ghost var c := keyCache[..];
    var j := 0;
    assert c[0..] == c && c[..0] == [];
    while j < keyCache.Length
      invariant 0 <= j <= keyCache.Length && keyCache[..] == c
      invariant AfterDel(c, key) == c[..j] + AfterDel(c[j..], key)
    {
      ghost var rest := c[j..];
      assert rest[0] == c[j] && rest[1..] == c[j + 1..];
      if keyCache[j] == key || keyCache[j] == 0 {
        if keyCache[j] == key {
          keyCache[j] := -1;
          assert c[j := -1] == c[..j] + ([FREED] + rest[1..]);
        }
        break;
      }
      assert c[..j] + ([c[j]] + AfterDel(rest[1..], key)) == c[..j + 1] + AfterDel(c[j + 1..], key);
      j := j + 1;
    }
    DelFreesFirst(c, key);
  }
}
