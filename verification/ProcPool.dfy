/** The pool of worker processes and the objects placed in them. */
module ProcPool {
  import opened Options
  import opened Arithmetic

  const PROC_LOAD_MAX := 100
  const SLAVE_LOAD_MAX := 90

  /** The names and the entry function that tell one kind of worker from another. */
  datatype Kind = Kind(name: string, subName: string, proc: int)

  /** pidOps: `queue` are the ids in pobjQueue, and `taskMax` is 0 until the worker has initialised itself. */
  datatype Proc = Proc(kind: Kind, pid: int, queue: seq<int>, load: int, taskMax: int)

  type Pool = seq<Proc>

  /** The C expression `queLen*100/taskMax`. */
  function LoadOf(len: nat, taskMax: int): nat
    requires taskMax > 0
  {
    len * 100 / taskMax
  }

  /** An integer load below 100 means exactly that a place is free. */
  lemma LoadMeasuresRoom(len: nat, taskMax: int)
    requires taskMax > 0
    ensures LoadOf(len, taskMax) < 100 <==> len < taskMax
  {
    var load := LoadOf(len, taskMax);
    assert load * taskMax <= len * 100 < (load + 1) * taskMax by {
      DivisionBounds(len * 100, taskMax);
    }
    if len < taskMax && load >= 100 {
      Scaled(100, load, taskMax);
    }
    if len >= taskMax && load < 100 {
      Scaled(load + 1, 100, taskMax);
    }
  }

  lemma DivisionBounds(a: nat, b: int)
    requires b > 0
    ensures (a / b) * b <= a < (a / b + 1) * b
  {
  }

  // ---------------------------------------------------------------- one process

  /** putToShmQueue: a bounded FIFO refuses when it is full. */
  function PutToQueue(q: seq<int>, id: int, max: int): seq<int> {
    if |q| < max then q + [id] else q
  }

  /** delFromQueue: the first entry with this id goes. */
  function DelFromQueue(q: seq<int>, id: int): (r: seq<int>)
    ensures |r| <= |q|
  {
    if q == [] then [] else if q[0] == id then q[1..] else [q[0]] + DelFromQueue(q[1..], id)
  }

  /** putObj2pidQue. A worker that is still starting may become ready, with `ready` places, while it is waited for. */
  function Put(p: Proc, id: int, ready: nat): Proc {
    var r := if p.taskMax > 0 then p else p.(taskMax := ready);
    if r.taskMax <= 0 then r
    else
      var q := PutToQueue(r.queue, id, r.taskMax);
      r.(queue := q, load := LoadOf(|q|, r.taskMax))
  }

  /** delObjFromPidQue */
  function Del(p: Proc, id: int): Proc
    requires p.taskMax > 0
  {
    var q := DelFromQueue(p.queue, id);
    p.(queue := q, load := LoadOf(|q|, p.taskMax))
  }

  ghost predicate Distinct(q: seq<int>) {
    forall i, j :: 0 <= i < j < |q| ==> q[i] != q[j]
  }

  /** Each id at most once, never more than taskMax of them, and the load is what the queue says. */
  ghost predicate Valid(p: Proc) {
    Distinct(p.queue)
    && if p.taskMax > 0 then |p.queue| <= p.taskMax && p.load == LoadOf(|p.queue|, p.taskMax)
       else p.taskMax == 0 && p.queue == [] && p.load == 0
  }

  lemma {:induction false} DelFacts(q: seq<int>, id: int)
    requires Distinct(q)
    ensures var r := DelFromQueue(q, id); Distinct(r) && forall x :: x in r <==> x in q && x != id
  {
    if q != [] {
      var t := q[1..];
      assert q == [q[0]] + t;
      assert q[0] !in t;
      DelFacts(t, id);
    }
  }

  lemma PutKeepsValid(p: Proc, id: int, ready: nat)
    requires Valid(p) && id !in p.queue
    ensures Valid(Put(p, id, ready))
  {
    if p.taskMax > 0 {
      LoadMeasuresRoom(|p.queue|, p.taskMax);
    }
  }

  lemma DelKeepsValid(p: Proc, id: int)
    requires Valid(p) && p.taskMax > 0
    ensures Valid(Del(p, id)) && forall x :: x in Del(p, id).queue <==> x in p.queue && x != id
  {
    DelFacts(p.queue, id);
  }

  /** The first entry with the id goes, and the order of the others stays. */
  lemma {:induction false} DelRemovesFirst(a: seq<int>, id: int, b: seq<int>)
    requires id !in a
    ensures DelFromQueue(a, id) == a && DelFromQueue(a + [id] + b, id) == a + b
  {
    var q := a + [id] + b;
    if a == [] {
      assert q[1..] == b;
    } else {
      assert q[1..] == a[1..] + [id] + b;
      DelRemovesFirst(a[1..], id, b);
      assert a == [a[0]] + a[1..];
    }
  }

  // ---------------------------------------------------------------- placing an object

  predicate Matches(p: Proc, kind: Kind) {
    p.kind == kind && p.load < PROC_LOAD_MAX
  }

  /** conditionByPidOps, and the search with it: a process that is full is passed over even if it has the object. */
  function Holder(pool: Pool, kind: Kind, id: int, i: nat): (r: Option<nat>)
    ensures r.Some? ==> i <= r.value < |pool| && Matches(pool[r.value], kind) && id in pool[r.value].queue
    ensures r.Some? ==> forall j :: i <= j < r.value && Matches(pool[j], kind) ==> id !in pool[j].queue
    ensures r.None? ==> forall j :: i <= j < |pool| && Matches(pool[j], kind) ==> id !in pool[j].queue
    decreases |pool| - i
  {
    if i >= |pool| then None
    else if Matches(pool[i], kind) && id in pool[i].queue then Some(i)
    else Holder(pool, kind, id, i + 1)
  }

  /** conditionByPidOps2, and the search with it. */
  function Room(pool: Pool, kind: Kind, i: nat): (r: Option<nat>)
    ensures r.Some? ==> i <= r.value < |pool| && Matches(pool[r.value], kind)
    ensures r.Some? ==> forall j :: i <= j < r.value ==> !Matches(pool[j], kind)
    ensures r.None? ==> forall j :: i <= j < |pool| ==> !Matches(pool[j], kind)
    decreases |pool| - i
  {
    if i >= |pool| then None else if Matches(pool[i], kind) then Some(i) else Room(pool, kind, i + 1)
  }

  /** A worker that has just been forked. */
  function Forked(kind: Kind, pid: int): Proc {
    Proc(kind, pid, [], 0, 0)
  }

  /** getEmptyProc: the pool afterwards and the process it returns. `fork` is the pid of the worker that
      createProcess manages to start, if it comes to that. */
  function Place(pool: Pool, kind: Kind, id: int, slaveLoad: int, fork: Option<int>, ready: nat): (Pool, Option<nat>) {
    var holder := Holder(pool, kind, id, 0);
    var room := Room(pool, kind, 0);
    if holder.Some? then (pool, holder)
    else if room.Some? then (pool[room.value := Put(pool[room.value], id, ready)], room)
    else if slaveLoad < SLAVE_LOAD_MAX && fork.Some? then
      (pool + [Put(Forked(kind, fork.value), id, ready)], Some(|pool|))
    else (pool, None)
  }

  /** Process `i` is of this kind, below a load of 100, and has the object; no process before it is all of that. */
  predicate IsFirstHolder(pool: Pool, kind: Kind, id: int, i: nat) {
    i < |pool| && pool[i].kind == kind && pool[i].load < 100 && id in pool[i].queue
    && forall j :: 0 <= j < i ==> !(pool[j].kind == kind && pool[j].load < 100 && id in pool[j].queue)
  }

  /** Process `i` is the first one of this kind below a load of 100. */
  predicate IsFirstWithRoom(pool: Pool, kind: Kind, i: nat) {
    i < |pool| && pool[i].kind == kind && pool[i].load < 100
    && forall j :: 0 <= j < i ==> !(pool[j].kind == kind && pool[j].load < 100)
  }

  /** The first process with room that has the object takes precedence over the first one with room, and that one
      over a new worker, which is forked while the load of the slave is below 90. */
  lemma PlaceExactly(pool: Pool, kind: Kind, id: int, slaveLoad: int, fork: Option<int>, ready: nat)
    ensures var (after, r) := Place(pool, kind, id, slaveLoad, fork, ready);
      (forall i: nat :: IsFirstHolder(pool, kind, id, i) ==> after == pool && r == Some(i))
      && (forall i: nat :: IsFirstWithRoom(pool, kind, i) && (forall j: nat :: !IsFirstHolder(pool, kind, id, j)) ==>
            after == pool[i := Put(pool[i], id, ready)] && r == Some(i))
      && ((forall p :: p in pool && p.kind == kind ==> p.load >= 100) ==>
            if slaveLoad < 90 && fork.Some? then
              after == pool + [Put(Proc(kind, fork.value, [], 0, 0), id, ready)] && r == Some(|pool|)
            else after == pool && r == None)
  {
    var holder, room := Holder(pool, kind, id, 0), Room(pool, kind, 0);
    assert holder.Some? ==> IsFirstHolder(pool, kind, id, holder.value);
    assert room.Some? ==> IsFirstWithRoom(pool, kind, room.value);
  }

  ghost predicate ValidPool(pool: Pool) {
    (forall i :: 0 <= i < |pool| ==> Valid(pool[i]))
    && forall i, j :: 0 <= i < j < |pool| ==> pool[i].pid != pool[j].pid
  }

  lemma PlaceKeepsValid(pool: Pool, kind: Kind, id: int, slaveLoad: int, fork: Option<int>, ready: nat)
    requires ValidPool(pool) && (fork.Some? ==> forall p :: p in pool ==> p.pid != fork.value)
    ensures ValidPool(Place(pool, kind, id, slaveLoad, fork, ready).0)
  {
    var room := Room(pool, kind, 0);
    if Holder(pool, kind, id, 0).None? {
      if room.Some? {
        PutKeepsValid(pool[room.value], id, ready);
      } else if fork.Some? {
        PutKeepsValid(Forked(kind, fork.value), id, ready);
      }
    }
  }

  /** The process that getEmptyProc returns has the object, unless the worker did not become ready. */
  lemma PlacedIn(pool: Pool, kind: Kind, id: int, slaveLoad: int, fork: Option<int>, ready: nat)
    requires ValidPool(pool)
    ensures var (after, r) := Place(pool, kind, id, slaveLoad, fork, ready);
            r.Some? ==> r.value < |after| && after[r.value].kind == kind
                        && (id in after[r.value].queue <==> after[r.value].taskMax > 0)
  {
    var room := Room(pool, kind, 0);
    var holder := Holder(pool, kind, id, 0);
    if holder.Some? {
      assert Valid(pool[holder.value]);
    } else if room.Some? {
      var p := pool[room.value];
      assert Valid(p);
      if p.taskMax > 0 {
        LoadMeasuresRoom(|p.queue|, p.taskMax);
      }
    }
  }

  /** Every other process is as it was. */
  lemma OthersUntouched(pool: Pool, kind: Kind, id: int, slaveLoad: int, fork: Option<int>, ready: nat, i: nat)
    requires i < |pool|
    ensures var (after, r) := Place(pool, kind, id, slaveLoad, fork, ready);
            |pool| <= |after| <= |pool| + 1 && (r != Some(i) ==> after[i] == pool[i])
  {
  }

  // ---------------------------------------------------------------- an object in two processes

  /** Some process of this kind has the object although it is full. */
  ghost predicate InFullProcess(pool: Pool, kind: Kind, id: int) {
    exists i :: 0 <= i < |pool| && pool[i].kind == kind && pool[i].load >= PROC_LOAD_MAX && id in pool[i].queue
  }

  ghost predicate InTwo(pool: Pool, kind: Kind, id: int) {
    exists i, j :: 0 <= i < j < |pool| && pool[i].kind == kind && pool[j].kind == kind
                   && id in pool[i].queue && id in pool[j].queue
  }

  /** A worker that is not full, or one that can be forked, is there and becomes ready. */
  predicate FindsPlace(pool: Pool, kind: Kind, slaveLoad: int, fork: Option<int>, ready: nat) {
    var room := Room(pool, kind, 0);
    if room.Some? then pool[room.value].taskMax > 0 || ready > 0
    else slaveLoad < SLAVE_LOAD_MAX && fork.Some? && ready > 0
  }

  /** A placement puts an object into a second process of its kind exactly when a full process has it, and one that
      is not full becomes its second home. */
  lemma {:induction false} SecondHome(pool: Pool, kind: Kind, id: int, slaveLoad: int, fork: Option<int>, ready: nat)
    requires ValidPool(pool) && !InTwo(pool, kind, id)
    ensures var (after, r) := Place(pool, kind, id, slaveLoad, fork, ready);
            InTwo(after, kind, id) <==>
              InFullProcess(pool, kind, id) && FindsPlace(pool, kind, slaveLoad, fork, ready)
  {
    var (after, r) := Place(pool, kind, id, slaveLoad, fork, ready);
    PlacedIn(pool, kind, id, slaveLoad, fork, ready);
    if Holder(pool, kind, id, 0).Some? {
      OnlyHome(pool, kind, id, r.value);
    } else if r.Some? {
      forall i | 0 <= i < |pool| ensures r != Some(i) ==> after[i] == pool[i] {
        OthersUntouched(pool, kind, id, slaveLoad, fork, ready, i);
      }
      TwoAfter(pool, after, r.value, kind, id);
    }
  }

  /** The only process that has the object is not full. */
  lemma OnlyHome(pool: Pool, kind: Kind, id: int, i: nat)
    requires i < |pool| && Matches(pool[i], kind) && id in pool[i].queue && !InTwo(pool, kind, id)
    ensures !InFullProcess(pool, kind, id)
  {
    forall j | 0 <= j < |pool| && j != i && pool[j].kind == kind ensures id !in pool[j].queue {
      TwoHomes(pool, kind, id, i, j);
    }
  }

  /** A placement in `r` makes a second home exactly when the object gets there and is somewhere else already. */
  lemma TwoAfter(pool: Pool, after: Pool, r: nat, kind: Kind, id: int)
    requires !InTwo(pool, kind, id) && |pool| <= |after| <= |pool| + 1 && r < |after|
             && (|after| > |pool| ==> r == |pool|)
    requires (forall i :: 0 <= i < |pool| && i != r ==> after[i] == pool[i]) && after[r].kind == kind
    ensures InTwo(after, kind, id) <==>
              id in after[r].queue
              && exists i :: 0 <= i < |pool| && i != r && pool[i].kind == kind && id in pool[i].queue
  {
    if id in after[r].queue {
      forall i | 0 <= i < |pool| && i != r && pool[i].kind == kind && id in pool[i].queue
        ensures InTwo(after, kind, id)
      {
        TwoHomes(after, kind, id, i, r);
      }
    }
    if InTwo(after, kind, id) {
      var i, j :| 0 <= i < j < |after| && after[i].kind == kind && after[j].kind == kind
                  && id in after[i].queue && id in after[j].queue;
      assert i == r || j == r;
    }
  }

  lemma TwoHomes(pool: Pool, kind: Kind, id: int, i: nat, j: nat)
    requires i < |pool| && j < |pool| && i != j && pool[i].kind == kind && pool[j].kind == kind
    ensures id in pool[i].queue && id in pool[j].queue ==> InTwo(pool, kind, id)
  {
  }

  // ---------------------------------------------------------------- whole runs

  datatype Action =
    | Placing(kind: Kind, id: int, slaveLoad: int, fork: Option<int>, ready: nat)
    | Removing(i: nat, id: int)     // a beat function gives an object up
    | Readying(i: nat, places: nat) // a worker finishes its initialisation
    | Leaving(i: nat)               // a worker has exited and is taken out of the queue

  /** Pids are fresh; a beat function runs only in a worker that is ready. */
  predicate Enabled(pool: Pool, a: Action) {
    match a
    case Placing(_, _, _, fork, _) => fork.Some? ==> forall p :: p in pool ==> p.pid != fork.value
    case Removing(i, _) => i < |pool| && pool[i].taskMax > 0
    case Readying(i, places) => i < |pool| && pool[i].taskMax == 0 && places > 0
    case Leaving(i) => i < |pool|
  }

  function Step(pool: Pool, a: Action): Pool
    requires Enabled(pool, a)
  {
    match a
    case Placing(kind, id, slaveLoad, fork, ready) => Place(pool, kind, id, slaveLoad, fork, ready).0
    case Removing(i, id) => pool[i := Del(pool[i], id)]
    case Readying(i, places) => pool[i := pool[i].(taskMax := places)]
    case Leaving(i) => pool[..i] + pool[i + 1..]
  }

  ghost predicate IsRun(run: seq<Pool>, acts: seq<Action>) {
    |run| == |acts| + 1 && run[0] == []
    && forall i :: 0 <= i < |acts| ==> Enabled(run[i], acts[i]) && run[i + 1] == Step(run[i], acts[i])
  }

  lemma StepKeepsValid(pool: Pool, a: Action)
    requires ValidPool(pool) && Enabled(pool, a)
    ensures ValidPool(Step(pool, a))
  {
    match a
    case Placing(kind, id, slaveLoad, fork, ready) => PlaceKeepsValid(pool, kind, id, slaveLoad, fork, ready);
    case Removing(i, id) =>
      DelKeepsValid(pool[i], id);
      ChangeKeepsValid(pool, i, Del(pool[i], id));
    case Readying(i, places) => ChangeKeepsValid(pool, i, pool[i].(taskMax := places));
    case Leaving(i) => LeavingKeepsValid(pool, i);
  }

  lemma ChangeKeepsValid(pool: Pool, i: nat, p: Proc)
    requires ValidPool(pool) && i < |pool| && Valid(p) && p.pid == pool[i].pid
    ensures ValidPool(pool[i := p])
  {
  }

  lemma LeavingKeepsValid(pool: Pool, i: nat)
    requires ValidPool(pool) && i < |pool|
    ensures ValidPool(pool[..i] + pool[i + 1..])
  {
    var rest := pool[..i] + pool[i + 1..];
    forall j | 0 <= j < |rest| ensures rest[j] == pool[if j < i then j else j + 1] {
    }
  }

  /** The invariant of the pool over every sequence of placements and removals. */
  lemma {:induction false} AlwaysValid(run: seq<Pool>, acts: seq<Action>, i: nat, j: nat)
    requires IsRun(run, acts) && i < |run| && j < |run[i]|
    ensures ValidPool(run[i])
    ensures var p := run[i][j];
            Distinct(p.queue) && |p.queue| <= p.taskMax
            && (p.taskMax > 0 ==>
                p.load == |p.queue| * 100 / p.taskMax && (p.load < 100 <==> |p.queue| < p.taskMax))
  {
    RunValid(run, acts, i);
    if run[i][j].taskMax > 0 {
      LoadMeasuresRoom(|run[i][j].queue|, run[i][j].taskMax);
    }
  }

  lemma {:induction false} RunValid(run: seq<Pool>, acts: seq<Action>, i: nat)
    requires IsRun(run, acts) && i < |run|
    ensures ValidPool(run[i])
  {
    if i > 0 {
      RunValid(run, acts, i - 1);
      StepKeepsValid(run[i - 1], acts[i - 1]);
    }
  }

  /** A worker with a single place is full with its first object; placing that object again gives it a second home. */
  lemma {:induction false} SecondHomeExample(kind: Kind)
    ensures var acts := [Placing(kind, 7, 0, Some(100), 1), Placing(kind, 7, 0, Some(101), 1)];
            exists run :: IsRun(run, acts) && InTwo(run[2], kind, 7)
  {
    var acts := [Placing(kind, 7, 0, Some(100), 1), Placing(kind, 7, 0, Some(101), 1)];
    var one := [Proc(kind, 100, [7], 100, 1)];
    var two := one + [Proc(kind, 101, [7], 100, 1)];
    assert PutToQueue([], 7, 1) == [7];
    assert Step([], acts[0]) == one;
    assert Step(one, acts[1]) == two;
    assert IsRun([[], one, two], acts);
    assert two[0].queue == [7] && two[1].queue == [7];
    assert InTwo(two, kind, 7);
  }
}

/** The pool as the records in shared memory. */
module Pids {
  import opened Options
  import opened ProcPool

  class PidOps {
    const kind: Kind
    var pid: int
    var pobjQueue: seq<int>
    var load: int
    var taskMax: int

    constructor (kind: Kind, pid: int)
      ensures View() == Forked(kind, pid)
    {
      this.kind, this.pid := kind, pid;
      pobjQueue, load, taskMax := [], 0, 0;
    }

    function View(): Proc
      reads this
    {
      Proc(kind, pid, pobjQueue, load, taskMax)
    }
  }

  ghost function Views(ps: seq<PidOps>): Pool
    reads ps
  {
    seq(|ps|, i requires 0 <= i < |ps| reads ps => ps[i].View())
  }

  /** putObj2pidQue; `ready` is what the worker stores in taskMax while it is waited for. */
  method PutObj2PidQue(p: PidOps, id: int, ready: nat) returns (ret: int)
    modifies p
    ensures p.View() == Put(old(p.View()), id, ready)
    ensures p.pid == old(p.pid) && p.taskMax == if old(p.taskMax) > 0 then old(p.taskMax) else ready
    ensures p.taskMax == 0 ==> ret == -1 && p.pobjQueue == old(p.pobjQueue) && p.load == old(p.load)
    ensures p.taskMax > 0 ==>
      ret == 0 && p.load == |p.pobjQueue| * 100 / p.taskMax
      && p.pobjQueue == if |old(p.pobjQueue)| < p.taskMax then old(p.pobjQueue) + [id] else old(p.pobjQueue)
  {
    if p.taskMax <= 0 {
      p.taskMax := ready;
    }
    if p.taskMax <= 0 {
      return -1;
    }
    p.pobjQueue := PutToQueue(p.pobjQueue, id, p.taskMax);
    p.load := |p.pobjQueue| * 100 / p.taskMax;
    ret := 0;
  }

  /** delObjFromPidQue */
  method DelObjFromPidQue(id: int, p: PidOps)
    requires p.taskMax > 0
    modifies p
    ensures p.View() == Del(old(p.View()), id)
    ensures p.pid == old(p.pid) && p.taskMax == old(p.taskMax) && p.load == |p.pobjQueue| * 100 / p.taskMax
    ensures id !in old(p.pobjQueue) ==> p.pobjQueue == old(p.pobjQueue)
    ensures forall a, b :: old(p.pobjQueue) == a + [id] + b && id !in a ==> p.pobjQueue == a + b
  {
    if id !in p.pobjQueue {
      DelRemovesFirst(p.pobjQueue, id, []);
    }
    forall a, b | p.pobjQueue == a + [id] + b && id !in a ensures DelFromQueue(p.pobjQueue, id) == a + b {
      DelRemovesFirst(a, id, b);
    }
    p.pobjQueue := DelFromQueue(p.pobjQueue, id);
    p.load := |p.pobjQueue| * 100 / p.taskMax;
  }

  /** searchFromQueue with conditionByPidOps. */
  method SearchHolder(ps: seq<PidOps>, kind: Kind, id: int) returns (p: PidOps?)
    ensures var r := Holder(Views(ps), kind, id, 0); p == if r.Some? then ps[r.value] else null
    ensures p == null ==> forall q :: q in ps && q.kind == kind && q.load < 100 ==> id !in q.pobjQueue
    ensures p != null ==>
      p.kind == kind && p.load < 100 && id in p.pobjQueue
      && exists i :: 0 <= i < |ps| && ps[i] == p
           && forall q :: q in ps[..i] && q.kind == kind && q.load < 100 ==> id !in q.pobjQueue
  {
    var i := 0;
    while i < |ps|
      invariant 0 <= i <= |ps| && Holder(Views(ps), kind, id, 0) == Holder(Views(ps), kind, id, i)
      invariant forall q :: q in ps[..i] && q.kind == kind && q.load < 100 ==> id !in q.pobjQueue
    {
      assert Views(ps)[i] == ps[i].View();
      if ps[i].kind == kind && ps[i].load < PROC_LOAD_MAX {
        if id in ps[i].pobjQueue {
          return ps[i];
        }
      }
      i := i + 1;
    }
    return null;
  }

  /** searchFromQueue with conditionByPidOps2. */
  method SearchRoom(ps: seq<PidOps>, kind: Kind) returns (p: PidOps?)
    ensures var r := Room(Views(ps), kind, 0); p == if r.Some? then ps[r.value] else null
    ensures p == null ==> forall q :: q in ps && q.kind == kind ==> q.load >= 100
    ensures p != null ==>
      p.kind == kind && p.load < 100
      && exists i :: 0 <= i < |ps| && ps[i] == p && forall q :: q in ps[..i] && q.kind == kind ==> q.load >= 100
  {
    var i := 0;
    while i < |ps|
      invariant 0 <= i <= |ps| && Room(Views(ps), kind, 0) == Room(Views(ps), kind, i)
      invariant forall q :: q in ps[..i] && q.kind == kind ==> q.load >= 100
    {
      assert Views(ps)[i] == ps[i].View();
      if ps[i].kind == kind && ps[i].load < PROC_LOAD_MAX {
        return ps[i];
      }
      i := i + 1;
    }
    return null;
  }

  /** getEmptyProc on the queue of workers. */
  method GetEmptyProc(ps: seq<PidOps>, kind: Kind, id: int, slaveLoad: int, fork: Option<int>, ready: nat)
      returns (qs: seq<PidOps>, p: PidOps?)
    requires forall i, j :: 0 <= i < j < |ps| ==> ps[i] != ps[j]
    modifies ps
    ensures var (after, r) := Place(old(Views(ps)), kind, id, slaveLoad, fork, ready);
            Views(qs) == after && p == if r.Some? then qs[r.value] else null
    ensures ps <= qs && forall i :: |ps| <= i < |qs| ==> fresh(qs[i])
  {
    qs := ps;
    p := SearchHolder(ps, kind, id);
    if p != null { return; }
    p := SearchRoom(ps, kind);
    if p != null {
      ghost var i, was := Room(Views(ps), kind, 0).value, Views(ps);
      var ret := PutObj2PidQue(p, id, ready);
      assert Views(ps) == was[i := Put(was[i], id, ready)];
    } else if slaveLoad < SLAVE_LOAD_MAX && fork.Some? {
      p := new PidOps(kind, fork.value);
      var ret := PutObj2PidQue(p, id, ready);
      qs := ps + [p];
      assert Views(qs) == old(Views(ps)) + [Put(Forked(kind, fork.value), id, ready)];
    }
  }
}
