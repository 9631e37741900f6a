/** What the master's two threads get done: when the manager stops waiting for a slave, and when nothing moves. */
module MasterProgress {
  import opened Options
  import opened MasterProtocol

  // ---------------------------------------------------------------- the end of the waiting

  /** What one visit makes of an object, in the fields of its slave: an unattached object waits while the outage of
      its slave is younger than 120 seconds, is given up behind that or when the slave is not initialised or has a
      load of 90, and goes back to its slave otherwise. An object without a slave gets the first of the least loaded
      slaves that are online and initialised. */
  lemma ManagedExactly(o: Obj, slaves: seq<Slave>, now: int)
    requires o.slave.Some? ==> o.slave.value < |slaves|
    ensures o.slave.Some? && o.attached ==> Managed(o, slaves, now) == o && !Redirected(o, slaves)
    ensures o.slave.Some? && !o.attached ==>
      var s := slaves[o.slave.value];
      if s.offline != 0 && now - s.offline < 120 then Managed(o, slaves, now) == o && !Redirected(o, slaves)
      else if s.offline != 0 || s.systemInit == 0 || s.load >= 90 then
        Managed(o, slaves, now) == Obj(None, false) && !Redirected(o, slaves)
      else Managed(o, slaves, now) == Obj(o.slave, true) && Redirected(o, slaves)
    ensures o.slave.None? && !Redirected(o, slaves) ==>
      Managed(o, slaves, now) == o
      && forall i :: 0 <= i < |slaves| ==> slaves[i].online == 0 || slaves[i].systemInit == 0 || slaves[i].load >= 90
    ensures o.slave.None? && Redirected(o, slaves) ==>
      var o' := Managed(o, slaves, now);
      o'.attached && o'.slave.Some? && o'.slave.value < |slaves|
      && IsFirstOfLeastLoad(slaves, o'.slave.value)
  {
    LowestIsLowest(slaves);
  }

  /** Slave `k` may take an object, every other that may has at least its load, and those before it have more. */
  predicate IsFirstOfLeastLoad(slaves: seq<Slave>, k: nat) {
    k < |slaves| && slaves[k].online != 0 && slaves[k].systemInit != 0 && slaves[k].load < 90
    && forall i :: 0 <= i < |slaves| && slaves[i].online != 0 && slaves[i].systemInit != 0 && slaves[i].load < 90 ==>
        if i < k then slaves[k].load < slaves[i].load else slaves[k].load <= slaves[i].load
  }

  /** The manager is at object `k`. */
  predicate IsAt(st: State, k: nat) {
    st.manager.Managing? && st.manager.obj == k
  }

  /** The manager is at object `k`, which waits for slave `s` and is not being redirected. */
  predicate Waits(st: State, k: nat, s: nat) {
    IsAt(st, k) && k < |st.objs| && st.objs[k] == Obj(Some(s), false)
    && (st.manager.at == Look || st.manager.at == Check(s) || st.manager.at == Clock(s) || st.manager.at == Drop(s))
  }

  /** It waits, and is to be given up only if the outage that began at `since` is old enough. */
  predicate WaitsDuly(st: State, k: nat, s: nat, since: int) {
    Waits(st, k, s) && (st.manager.at.Drop? ==> st.now - since >= 120)
  }

  lemma WaitsOrMovesOn(st: State, a: Action, k: nat, s: nat, since: int)
    requires Inv(st) && Enabled(st, a) && WaitsDuly(st, k, s, since)
    requires s < |st.slaves| && st.slaves[s].offline == since && since != 0
    ensures IsAt(Step(st, a), k) ==> WaitsDuly(Step(st, a), k, s, since)
    ensures !IsAt(Step(st, a), k) ==> MovedOn(Step(st, a), k, s, st.now - since >= 120)
  {
  }

  /** The manager has left object `k` behind, without a slave or still waiting for `s`. */
  predicate MovedOn(st: State, k: nat, s: nat, givenUp: bool) {
    st.manager == Managing(k + 1, Look) && k < |st.objs|
    && st.objs[k] == Obj(if givenUp then None else Some(s), false)
  }

  lemma RunWaits(run: seq<State>, acts: seq<Action>, i: nat, k: nat, s: nat, since: int)
    requires IsRun(run, acts) && i < |acts| && WaitsDuly(run[i], k, s, since)
    requires s < |run[i].slaves| && run[i].slaves[s].offline == since && since != 0
    ensures run[i].now <= run[i + 1].now
    ensures IsAt(run[i + 1], k) ==> WaitsDuly(run[i + 1], k, s, since)
    ensures !IsAt(run[i + 1], k) ==> MovedOn(run[i + 1], k, s, run[i].now - since >= 120)
  {
    AlwaysSafe(run, acts, i);
    WaitsOrMovesOn(run[i], acts[i], k, s, since);
    NowGrows(run[i], acts[i]);
  }

  /** Over whole runs: a visit from state `i` to state `m` to an object that waits for a slave whose outage lasts
      through the visit. The manager never redirects the object; if the outage is at least 120 seconds old when the
      manager looks, the object has no slave when the manager moves on, and if it is younger even then, the object
      still waits. */
  lemma {:induction false} VisitInOutage(run: seq<State>, acts: seq<Action>, i: nat, m: nat, k: nat, s: nat, since: int)
    requires IsRun(run, acts) && i < m < |run| && Lasts(run, i, m, s, since)
    requires run[i].manager == Managing(k, Look) && k < |run[i].objs| && run[i].objs[k] == Obj(Some(s), false)
    requires (forall j :: i <= j < m ==> IsAt(run[j], k)) && !IsAt(run[m], k)
    ensures forall j :: i <= j < m ==> Waits(run[j], k, s)
    ensures run[m].manager == Managing(k + 1, Look) && k < |run[m].objs|
    ensures run[i].now - since >= 120 ==> run[m].objs[k] == Obj(None, false)
    ensures run[m].now - since < 120 ==> run[m].objs[k] == Obj(Some(s), false)
  {
    var j := i;
    while j + 1 < m
      invariant i <= j < m && run[i].now <= run[j].now && WaitsDuly(run[j], k, s, since)
      invariant forall l :: i <= l < j ==> Waits(run[l], k, s)
    {
      RunWaits(run, acts, j, k, s, since);
      j := j + 1;
    }
    RunWaits(run, acts, j, k, s, since);
  }

  /** The same in terms of what the slave answers: if it does not report itself as not initialised during the visit,
      an object whose slave has been offline for 120 seconds is given up. */
  lemma {:induction false} GivenUpWithoutAnswer(run: seq<State>, acts: seq<Action>, i: nat, m: nat, k: nat, s: nat)
    requires IsRun(run, acts) && i < m < |run| && IsOffline(run[i], s) && !Ending(run[i], s)
    requires forall j :: i <= j < m ==> !(run[j].poller == Polling(s, Ask) && acts[j] == PollAsk(Some(0)))
    requires run[i].manager == Managing(k, Look) && k < |run[i].objs| && run[i].objs[k] == Obj(Some(s), false)
    requires (forall j :: i <= j < m ==> IsAt(run[j], k)) && !IsAt(run[m], k)
    requires run[i].now - run[i].slaves[s].offline >= 120
    ensures k < |run[m].objs| && run[m].objs[k] == Obj(None, false)
  {
    OutageLasts(run, acts, i, m, s);
    VisitInOutage(run, acts, i, m, k, s, run[i].slaves[s].offline);
  }

  // ---------------------------------------------------------------- both threads stuck

  /** Nothing but the clock can move: no thread, and no REST request for a slave or an object. */
  ghost predicate Stuck(st: State) {
    forall a :: Enabled(st, a) ==> a.Tick?
  }

  /** The poller holds the slave lock and waits for the object lock to sweep; the manager holds the object lock and
      waits for the slave lock to choose a slave. */
  predicate Embraced(st: State) {
    st.poller.Polling? && st.poller.pc == Sweep && st.manager.Managing? && st.manager.at == Pick
  }

  lemma PollerMoves(st: State) returns (a: Action)
    requires Inv(st) && !(st.poller.Polling? && st.poller.pc == Sweep)
    ensures Enabled(st, a) && !a.Tick?
  {
    match st.poller
    case PollRests => a := PollLock;
    case Polling(s, pc) =>
      if s >= |st.slaves| {
        a := PollUnlock;
      } else {
        match pc
        case Ask => a := PollAsk(None);
        case ClearInit => a := PollClearInit;
        case ClearOnline => a := PollClearOnline;
        case ClearOffline => a := PollClearOffline;
        case SetInit => a := PollSetInit(true);
        case SetLoad => a := PollSetLoad(0);
      }
  }

  lemma ManagerMoves(st: State) returns (a: Action)
    requires Inv(st) && !(st.manager.Managing? && st.manager.at == Pick)
    ensures Enabled(st, a) && !a.Tick?
  {
    match st.manager
    case ManageRests => a := ManageLock;
    case Managing(k, at) =>
      if k >= |st.objs| {
        a := ManageUnlock;
      } else {
        match at
        case Look => a := ManageLook;
        case Check(_) => a := ManageCheck;
        case Clock(_) => a := ManageClock;
        case Drop(_) => a := ManageDrop;
        case Assign(_) => a := ManageAssign;
        case Attach(_) => a := ManageAttach;
        case Redirect(_) => a := ManageRedirect(None);
      }
  }

  /** In every state of every interleaving: the master is stuck exactly when each of its threads holds the lock that
      the other waits for. */
  lemma {:induction false} StuckExactly(run: seq<State>, acts: seq<Action>, i: nat)
    requires IsRun(run, acts) && i < |run|
    ensures Stuck(run[i]) <==> Embraced(run[i])
  {
    AlwaysSafe(run, acts, i);
    if !Embraced(run[i]) {
      if run[i].poller.Polling? && run[i].poller.pc == Sweep {
        var a := ManagerMoves(run[i]);
      } else {
        var a := PollerMoves(run[i]);
      }
    }
  }

  /** From then on no slave is polled and no object is managed, in any continuation. */
  lemma {:induction false} StuckForever(run: seq<State>, acts: seq<Action>, i: nat, m: nat)
    requires IsRun(run, acts) && i <= m < |run| && Embraced(run[i])
    ensures run[m] == run[i].(now := run[m].now) && Embraced(run[m])
    decreases m
  {
    if i < m {
      StuckForever(run, acts, i, m - 1);
      StuckExactly(run, acts, m - 1);
      assert Enabled(run[m - 1], acts[m - 1]) && run[m - 1 + 1] == Step(run[m - 1], acts[m - 1]);
    }
  }

  /** It happens: a slave stops answering while the manager looks for a slave for a new object. */
  lemma {:induction false} StuckExample()
    ensures exists run: seq<State>, acts: seq<Action> :: IsRun(run, acts) && Stuck(run[|acts|])
  {
    var run, acts := [Init()], [];
    var objs := [Obj(None, false)];
    run, acts := Extend(run, acts, PollLock, State(1, [], [], Polling(0, Ask), ManageRests));
    run, acts := Extend(run, acts, PollUnlock, Init());
    run, acts := Extend(run, acts, AddSlave(7), State(1, Sound(), [], PollRests, ManageRests));
    run, acts := Extend(run, acts, AddObj(None), State(1, Sound(), objs, PollRests, ManageRests));
    run, acts := AskedForSlave(run, acts);
    StuckExactly(run, acts, |acts|);
  }

  lemma AskedForSlave(run: seq<State>, acts: seq<Action>) returns (run': seq<State>, acts': seq<Action>)
    requires IsRun(run, acts) && run[|acts|] == State(1, Sound(), [Obj(None, false)], PollRests, ManageRests)
    ensures IsRun(run', acts') && Embraced(run'[|acts'|])
  {
    var objs, down := [Obj(None, false)], [Slave(7, 0, 0, 0, 1)];
    run', acts' := Extend(run, acts, ManageLock, State(1, Sound(), objs, PollRests, Managing(0, Look)));
    run', acts' := Extend(run', acts', ManageLook, State(1, Sound(), objs, PollRests, Managing(0, Pick)));
    run', acts' := Extend(run', acts', PollLock, State(1, Sound(), objs, Polling(0, Ask), Managing(0, Pick)));
    run', acts' := Extend(run', acts', PollAsk(None), State(1, down, objs, Polling(0, ClearInit), Managing(0, Pick)));
    run', acts' := Extend(run', acts', PollClearInit, State(1, down, objs, Polling(0, Sweep), Managing(0, Pick)));
  }
}
