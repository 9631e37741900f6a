/** The master's two threads as interleaved steps: the poller of the slaves and the manager of the objects. */
module MasterProtocol {
  import opened Options

  const SLAVE_LOAD_MAX := 90
  const GRACE := 120

  /** slaveParam: `online` and `offline` are the second at which that state began, or 0. */
  datatype Slave = Slave(ip: int, systemInit: int, load: int, online: int, offline: int)

  /** objParam: the slave as its place in the slave queue. */
  datatype Obj = Obj(slave: Option<nat>, attached: bool)

  /** Where the poller stands with one slave. The sweep is pending from the moment the outage is recorded. */
  datatype PollPc = Ask | ClearInit | Sweep | ClearOnline | ClearOffline | SetInit | SetLoad

  /** The poller holds the slave lock from the first slave of a round to the last. */
  datatype Poller = PollRests | Polling(slave: nat, pc: PollPc)

  datatype ManagePc =
    | Look | Check(s: nat) | Clock(s: nat) | Drop(s: nat)
    | Pick | Assign(s: nat) | Attach(s: nat) | Redirect(s: nat)

  /** The manager holds the object lock from the first object of a round to the last. */
  datatype Manager = ManageRests | Managing(obj: nat, at: ManagePc)

  datatype State = State(now: int, slaves: seq<Slave>, objs: seq<Obj>, poller: Poller, manager: Manager)

  datatype Action =
    // the poller; `ack` is the systemInit of the answer, if there is one
    | PollLock | PollUnlock | PollAsk(ack: Option<int>) | PollClearInit | PollSweep | PollClearOnline | PollClearOffline
    | PollSetInit(org: bool) | PollSetLoad(load: int)
    // the manager; `ack` is the load in the answer to the redirection
    | ManageLock | ManageUnlock | ManageLook | ManageCheck | ManageClock | ManageDrop | ManagePick | ManageAssign
    | ManageAttach | ManageRedirect(ack: Option<int>)
    // the clock, and the REST thread adding a slave or an object under the lock of its queue
    | Tick(sec: nat) | AddSlave(ip: int) | AddObj(slave: Option<nat>)

  // ---------------------------------------------------------------- choosing a slave

  /** What _getlowestLoadSlave asks of the first slave it takes. */
  predicate Eligible(s: Slave) {
    s.online != 0 && s.systemInit != 0 && s.load < SLAVE_LOAD_MAX
  }

  /** `r` is the first of the eligible slaves with the lowest load. */
  ghost predicate IsLowest(slaves: seq<Slave>, r: Option<nat>) {
    match r
    case None => forall i :: 0 <= i < |slaves| ==> !Eligible(slaves[i])
    case Some(k) =>
      k < |slaves| && Eligible(slaves[k])
      && (forall i :: 0 <= i < |slaves| && Eligible(slaves[i]) ==> slaves[k].load <= slaves[i].load)
      && (forall i :: 0 <= i < k && Eligible(slaves[i]) ==> slaves[k].load < slaves[i].load)
  }

  /** _getlowestLoadSlave folded over the queue. */
  function Lowest(slaves: seq<Slave>): (r: Option<nat>)
    ensures r.Some? ==> r.value < |slaves|
  {
    if slaves == [] then None
    else LowerOf(slaves, Lowest(slaves[..|slaves| - 1]), |slaves| - 1)
  }

  function LowerOf(slaves: seq<Slave>, best: Option<nat>, i: nat): (r: Option<nat>)
    requires i < |slaves| && (best.Some? ==> best.value < |slaves|)
  {
    var s := slaves[i];
    match best
    case None => if Eligible(s) then Some(i) else None
    case Some(k) => if s.load < slaves[k].load && s.online != 0 && s.systemInit != 0 then Some(i) else best
  }

  lemma {:induction false} LowestIsLowest(slaves: seq<Slave>)
    ensures IsLowest(slaves, Lowest(slaves))
  {
    if slaves != [] {
      LowestIsLowest(slaves[..|slaves| - 1]);
    }
  }

  // ---------------------------------------------------------------- the steps

  function Init(): State {
    State(1, [], [], PollRests, ManageRests)
  }

  /** The slave the poller is working on. */
  predicate AtPc(st: State, pc: PollPc) {
    st.poller.Polling? && st.poller.pc == pc && st.poller.slave < |st.slaves|
  }

  predicate Visits(st: State) {
    st.manager.Managing? && st.manager.obj < |st.objs|
  }

  predicate Enabled(st: State, a: Action) {
    match a
    case PollLock => st.poller.PollRests?
    case PollUnlock => st.poller.Polling? && st.poller.pc == Ask && st.poller.slave >= |st.slaves|
    case PollAsk(_) => AtPc(st, Ask)
    case PollClearInit => AtPc(st, ClearInit)
    case PollSweep => AtPc(st, Sweep) && st.manager.ManageRests?
    case PollClearOnline => AtPc(st, ClearOnline)
    case PollClearOffline => AtPc(st, ClearOffline)
    case PollSetInit(_) => AtPc(st, SetInit)
    case PollSetLoad(_) => AtPc(st, SetLoad)
    case ManageLock => st.manager.ManageRests?
    case ManageUnlock => st.manager.Managing? && st.manager.at == Look && st.manager.obj >= |st.objs|
    case ManageLook => Visits(st) && st.manager.at == Look
    case ManageCheck => Visits(st) && st.manager.at.Check? && st.manager.at.s < |st.slaves|
    case ManageClock => Visits(st) && st.manager.at.Clock? && st.manager.at.s < |st.slaves|
    case ManageDrop => Visits(st) && st.manager.at.Drop?
    case ManagePick => Visits(st) && st.manager.at.Pick? && st.poller.PollRests?
    case ManageAssign => Visits(st) && st.manager.at.Assign?
    case ManageAttach => Visits(st) && st.manager.at.Attach?
    case ManageRedirect(_) => Visits(st) && st.manager.at.Redirect? && st.manager.at.s < |st.slaves|
    case Tick(_) => true
    case AddSlave(_) => st.poller.PollRests?
    case AddObj(s) => st.manager.ManageRests? && (s.Some? ==> s.value < |st.slaves|)
  }

  function SetSlave(st: State, s: Slave, pc: PollPc): State
    requires st.poller.Polling? && st.poller.slave < |st.slaves|
  {
    st.(slaves := st.slaves[st.poller.slave := s], poller := Polling(st.poller.slave, pc))
  }

  function NextSlave(st: State): State
    requires st.poller.Polling?
  {
    st.(poller := Polling(st.poller.slave + 1, Ask))
  }

  /** slaveLoad, one field at a time. */
  function PollStep(st: State, a: Action): State
    requires Enabled(st, a) && st.poller.Polling?
    requires a.PollAsk? || a.PollClearInit? || a.PollSweep? || a.PollClearOnline? || a.PollClearOffline?
             || a.PollSetInit?
             || a.PollSetLoad?
  {
    var s := st.slaves[st.poller.slave];
    match a
    case PollAsk(None) =>
      if s.offline == 0 then SetSlave(st, s.(offline := st.now), ClearInit) else SetSlave(st, s, ClearOnline)
    case PollAsk(Some(systemInit)) =>
      if systemInit == 0 then SetSlave(st, s.(online := if s.online == 0 then st.now else s.online), ClearOffline)
      else SetSlave(st, s, SetLoad)
    case PollClearInit => SetSlave(st, s.(systemInit := 0), Sweep)
    case PollSweep => SetSlave(st, s, ClearOnline).(objs := Swept(st.objs, st.slaves, s.ip))
    case PollClearOnline => NextSlave(SetSlave(st, s.(online := 0), Ask))
    case PollClearOffline => SetSlave(st, s.(offline := 0), SetInit)
    case PollSetInit(org) =>
      SetSlave(st, s.(systemInit := if org && s.systemInit == 0 then 1 else s.systemInit), SetLoad)
    case PollSetLoad(load) => NextSlave(SetSlave(st, s.(load := load), Ask))
  }

  /** detachSlave: every object whose slave has this address is detached. */
  function Swept(objs: seq<Obj>, slaves: seq<Slave>, ip: int): seq<Obj> {
    seq(|objs|, i requires 0 <= i < |objs| => Detached(objs[i], slaves, ip))
  }

  function Detached(o: Obj, slaves: seq<Slave>, ip: int): Obj {
    if o.slave.Some? && o.attached && o.slave.value < |slaves| && slaves[o.slave.value].ip == ip then
      o.(attached := false)
    else
      o
  }

  function SetObj(st: State, o: Obj, at: ManagePc): State
    requires Visits(st)
  {
    st.(objs := st.objs[st.manager.obj := o], manager := Managing(st.manager.obj, at))
  }

  function NextObj(st: State): State
    requires st.manager.Managing?
  {
    st.(manager := Managing(st.manager.obj + 1, Look))
  }

  /** The first condition of slaveIsNormal. */
  predicate Abnormal(s: Slave) {
    s.offline != 0 || s.systemInit == 0 || s.load >= SLAVE_LOAD_MAX
  }

  predicate InGrace(s: Slave, now: int) {
    s.offline != 0 && now - s.offline < GRACE
  }

  /** mobjManager with slaveIsNormal and getLowestLoadSlave, one decision or write at a time. */
  function ManageStep(st: State, a: Action): State
    requires Enabled(st, a) && Visits(st)
    requires a.ManageLook? || a.ManageCheck? || a.ManageClock? || a.ManageDrop? || a.ManagePick? || a.ManageAssign?
             || a.ManageAttach? || a.ManageRedirect?
  {
    var o, at := st.objs[st.manager.obj], st.manager.at;
    match a
    case ManageLook =>
      if o.slave.None? then SetObj(st, o, Pick)
      else if !o.attached then SetObj(st, o, Check(o.slave.value))
      else NextObj(st)
    case ManageCheck => SetObj(st, o, if Abnormal(st.slaves[at.s]) then Clock(at.s) else Attach(at.s))
    case ManageClock => if InGrace(st.slaves[at.s], st.now) then NextObj(st) else SetObj(st, o, Drop(at.s))
    case ManageDrop => NextObj(SetObj(st, o.(slave := None), Look))
    case ManagePick => if Lowest(st.slaves).Some? then SetObj(st, o, Assign(Lowest(st.slaves).value)) else NextObj(st)
    case ManageAssign => SetObj(st, o.(slave := Some(at.s)), Attach(at.s))
    case ManageAttach => SetObj(st, o.(attached := true), Redirect(at.s))
    case ManageRedirect(ack) =>
      var s := st.slaves[at.s];
      NextObj(st.(slaves := st.slaves[at.s := s.(load := if ack.Some? then ack.value else s.load)]))
  }

  function Step(st: State, a: Action): State
    requires Enabled(st, a)
  {
    match a
    case PollLock => st.(poller := Polling(0, Ask))
    case PollUnlock => st.(poller := PollRests)
    case ManageLock => st.(manager := Managing(0, Look))
    case ManageUnlock => st.(manager := ManageRests)
    case Tick(sec) => st.(now := st.now + sec)
    case AddSlave(ip) => st.(slaves := st.slaves + [Slave(ip, 0, 0, 0, 0)])
    case AddObj(s) => st.(objs := st.objs + [Obj(s, false)])
    case PollAsk(_) => PollStep(st, a)
    case PollClearInit => PollStep(st, a)
    case PollSweep => PollStep(st, a)
    case PollClearOnline => PollStep(st, a)
    case PollClearOffline => PollStep(st, a)
    case PollSetInit(_) => PollStep(st, a)
    case PollSetLoad(_) => PollStep(st, a)
    case _ => ManageStep(st, a)
  }

  // ---------------------------------------------------------------- safety

  predicate Bad(s: Slave) { s.offline != 0 || s.systemInit == 0 }

  /** The outage of slave `s` has been recorded and its objects have not been swept yet. */
  predicate SweepPending(st: State, s: nat) {
    st.poller == Polling(s, ClearInit) || st.poller == Polling(s, Sweep)
  }

  /** The poller is between the two writes that keep `online` and `offline` apart. */
  predicate InPollStep(st: State, s: nat) {
    SweepPending(st, s) || st.poller == Polling(s, ClearOnline) || st.poller == Polling(s, ClearOffline)
  }

  /** An attached object has a slave that is initialised and not offline, except while the sweep of that slave is
      still pending. */
  ghost predicate AttachedSafely(st: State) {
    forall k :: 0 <= k < |st.objs| && st.objs[k].attached ==>
      st.objs[k].slave.Some? && st.objs[k].slave.value < |st.slaves|
      && (Bad(st.slaves[st.objs[k].slave.value]) ==> SweepPending(st, st.objs[k].slave.value))
  }

  /** No slave is both online and offline outside a poll step. */
  ghost predicate OnlineOrOffline(st: State) {
    forall s :: 0 <= s < |st.slaves| && st.slaves[s].online != 0 && st.slaves[s].offline != 0 ==> InPollStep(st, s)
  }

  /** An initialised slave is not offline, but for the moment before the poller clears that flag. */
  ghost predicate InitialisedOrOffline(st: State) {
    forall s :: 0 <= s < |st.slaves| && st.slaves[s].systemInit != 0 && st.slaves[s].offline != 0 ==>
      st.poller == Polling(s, ClearInit)
  }

  /** What the manager has already decided about the object it is visiting. */
  ghost predicate ManagerConsistent(st: State) {
    Visits(st) ==>
      var o := st.objs[st.manager.obj];
      match st.manager.at
      case Look => true
      case Check(s) => o == Obj(Some(s), false) && s < |st.slaves|
      case Clock(s) => o == Obj(Some(s), false) && s < |st.slaves|
      case Drop(s) => o == Obj(Some(s), false) && s < |st.slaves|
      case Pick => o == Obj(None, false)
      case Assign(s) => o == Obj(None, false) && s < |st.slaves| && (Bad(st.slaves[s]) ==> SweepPending(st, s))
      case Attach(s) => o == Obj(Some(s), false) && s < |st.slaves| && (Bad(st.slaves[s]) ==> SweepPending(st, s))
      case Redirect(s) => o == Obj(Some(s), true) && s < |st.slaves|
  }

  ghost predicate InRange(st: State) {
    st.now > 0
    && (forall k :: 0 <= k < |st.objs| && st.objs[k].slave.Some? ==> st.objs[k].slave.value < |st.slaves|)
    && (st.poller.Polling? && st.poller.pc != Ask ==> st.poller.slave < |st.slaves|)
    && (st.manager.Managing? && st.manager.at != Look ==> st.manager.obj < |st.objs|)
  }

  /** What the poller knows about the slave it is working on. */
  ghost predicate PollerConsistent(st: State) {
    st.poller.Polling? && st.poller.slave < |st.slaves| ==>
      var s := st.slaves[st.poller.slave];
      match st.poller.pc
      case ClearInit => s.offline != 0
      case Sweep => s.offline != 0 && s.systemInit == 0
      case ClearOnline => s.offline != 0 && s.systemInit == 0
      case SetInit => s.offline == 0
      case _ => true
  }

  ghost predicate Inv(st: State) {
    InRange(st) && AttachedSafely(st) && OnlineOrOffline(st) && InitialisedOrOffline(st)
    && PollerConsistent(st) && ManagerConsistent(st)
  }

  predicate IsPoll(a: Action) {
    a.PollAsk? || a.PollClearInit? || a.PollSweep? || a.PollClearOnline? || a.PollClearOffline? || a.PollSetInit?
      || a.PollSetLoad?
  }

  predicate IsManage(a: Action) {
    a.ManageLook? || a.ManageCheck? || a.ManageClock? || a.ManageDrop? || a.ManagePick? || a.ManageAssign?
    || a.ManageAttach? || a.ManageRedirect?
  }

  lemma NoAnswerKeepsInv(st: State)
    requires Inv(st) && Enabled(st, PollAsk(None))
    ensures Inv(Step(st, PollAsk(None)))
  {
  }

  lemma AnswerKeepsInv(st: State, systemInit: int)
    requires Inv(st) && Enabled(st, PollAsk(Some(systemInit)))
    ensures Inv(Step(st, PollAsk(Some(systemInit))))
  {
  }

  lemma SweepKeepsInv(st: State, a: Action)
    requires Inv(st) && Enabled(st, a) && a.PollSweep?
    ensures Inv(Step(st, a))
  {
  }

  lemma ClearInitKeepsInv(st: State)
    requires Inv(st) && Enabled(st, PollClearInit)
    ensures Inv(Step(st, PollClearInit))
  {
  }

  lemma ClearKeepsInv(st: State, a: Action)
    requires Inv(st) && Enabled(st, a) && (a.PollClearOnline? || a.PollClearOffline?)
    ensures Inv(Step(st, a))
  {
  }

  lemma SetKeepsInv(st: State, a: Action)
    requires Inv(st) && Enabled(st, a) && (a.PollSetInit? || a.PollSetLoad?)
    ensures Inv(Step(st, a))
  {
  }

  lemma DecideKeepsInv(st: State, a: Action)
    requires Inv(st) && Enabled(st, a) && (a.ManageLook? || a.ManageCheck? || a.ManageClock?)
    ensures Inv(Step(st, a))
  {
  }

  lemma PickKeepsInv(st: State)
    requires Inv(st) && Enabled(st, ManagePick)
    ensures Inv(Step(st, ManagePick))
  {
    LowestIsLowest(st.slaves);
  }

  lemma WriteKeepsInv(st: State, a: Action)
    requires Inv(st) && Enabled(st, a) && (a.ManageDrop? || a.ManageAssign? || a.ManageAttach?)
    ensures Inv(Step(st, a))
  {
  }

  lemma RedirectKeepsInv(st: State, a: Action)
    requires Inv(st) && Enabled(st, a) && a.ManageRedirect?
    ensures Inv(Step(st, a))
  {
  }

  lemma OtherKeepsInv(st: State, a: Action)
    requires Inv(st) && Enabled(st, a) && !IsPoll(a) && !IsManage(a)
    ensures Inv(Step(st, a))
  {
  }

  lemma PollKeepsInv(st: State, a: Action)
    requires Inv(st) && Enabled(st, a) && IsPoll(a)
    ensures Inv(Step(st, a))
  {
    match a
    case PollAsk(None) => NoAnswerKeepsInv(st);
    case PollAsk(Some(systemInit)) => AnswerKeepsInv(st, systemInit);
    case PollSweep => SweepKeepsInv(st, a);
    case PollClearInit => ClearInitKeepsInv(st);
    case PollSetInit(_) => SetKeepsInv(st, a);
    case PollSetLoad(_) => SetKeepsInv(st, a);
    case _ => ClearKeepsInv(st, a);
  }

  lemma ManageKeepsInv(st: State, a: Action)
    requires Inv(st) && Enabled(st, a) && IsManage(a)
    ensures Inv(Step(st, a))
  {
    match a
    case ManageLook => DecideKeepsInv(st, a);
    case ManageCheck => DecideKeepsInv(st, a);
    case ManageClock => DecideKeepsInv(st, a);
    case ManagePick => PickKeepsInv(st);
    case ManageRedirect(_) => RedirectKeepsInv(st, a);
    case _ => WriteKeepsInv(st, a);
  }

  lemma StepKeepsInv(st: State, a: Action)
    requires Inv(st) && Enabled(st, a)
    ensures Inv(Step(st, a))
  {
    if IsPoll(a) {
      PollKeepsInv(st, a);
    } else if IsManage(a) {
      ManageKeepsInv(st, a);
    } else {
      OtherKeepsInv(st, a);
    }
  }

  /** An interleaving of the two threads, the clock and the REST thread. */
  ghost predicate IsRun(run: seq<State>, acts: seq<Action>) {
    |run| == |acts| + 1 && run[0] == Init()
    && forall i {:trigger Enabled(run[i], acts[i])} :: 0 <= i < |acts| ==>
        Enabled(run[i], acts[i]) && run[i + 1] == Step(run[i], acts[i])
  }

  /** Safety in every state of every interleaving. */
  lemma {:induction false} AlwaysSafe(run: seq<State>, acts: seq<Action>, i: nat)
    requires IsRun(run, acts) && i < |run|
    ensures Inv(run[i]) && AttachedSafely(run[i]) && OnlineOrOffline(run[i])
  {
    if i > 0 {
      AlwaysSafe(run, acts, i - 1);
      StepKeepsInv(run[i - 1], acts[i - 1]);
    }
  }

  // ---------------------------------------------------------------- grace period

  /** An object changes its slave only by way of having none. */
  lemma SlaveChangesThroughNone(st: State, a: Action, k: nat)
    requires Inv(st) && Enabled(st, a) && k < |st.objs|
    ensures var st' := Step(st, a);
            k < |st'.objs| && (st'.objs[k].slave != st.objs[k].slave ==>
                st.objs[k].slave.None? || st'.objs[k].slave.None?)
  {
  }

  /** While the outage of slave `s` that began at `since` lasts, object `k` still belongs to `s`, and the manager has
      not decided to take it away before its time. */
  ghost predicate Kept(st: State, k: nat, s: nat, since: int) {
    k < |st.objs| && s < |st.slaves| && st.slaves[s].offline == since && since != 0
    && st.objs[k].slave == Some(s)
    && (st.manager == Managing(k, Drop(s)) ==> st.now - since >= GRACE)
  }

  lemma KeptOrDue(st: State, a: Action, k: nat, s: nat, since: int)
    requires Inv(st) && Enabled(st, a) && Kept(st, k, s, since)
    requires Step(st, a).slaves[s].offline == since
    ensures Kept(Step(st, a), k, s, since) || (st.now - since >= GRACE && Step(st, a).objs[k].slave == None)
  {
  }

  /** The outage of slave `s` that was recorded at `since` lasts from state `i` to state `m`. */
  ghost predicate Lasts(run: seq<State>, i: nat, m: nat, s: nat, since: int) {
    m < |run| && since != 0 && forall j :: i <= j <= m ==> s < |run[j].slaves| && run[j].slaves[s].offline == since
  }

  /** Over whole runs: an object that belongs to `s` in state `i` of an outage, attached or not, and that has lost its
      slave in a later state of that outage, has kept it for the grace period, unless the manager had already decided
      to take it away in state `i`. */
  lemma {:induction false} GracePeriod(run: seq<State>, acts: seq<Action>, i: nat, m: nat, k: nat, s: nat, since: int)
    requires IsRun(run, acts) && i < m < |run| && Lasts(run, i, m, s, since)
    requires k < |run[i].objs| && run[i].objs[k].slave == Some(s) && run[i].manager != Managing(k, Drop(s))
    requires k < |run[m].objs| && run[m].objs[k].slave != Some(s)
    ensures run[m].now - since >= GRACE
  {
    KeptUntilDue(run, acts, i, m, k, s, since);
  }

  lemma RunKeeps(run: seq<State>, acts: seq<Action>, i: nat, k: nat, s: nat, since: int)
    requires IsRun(run, acts) && i < |acts| && Kept(run[i], k, s, since)
    requires s < |run[i + 1].slaves| && run[i + 1].slaves[s].offline == since
    ensures Kept(run[i + 1], k, s, since) || run[i + 1].now - since >= GRACE
  {
    var st, a := run[i], acts[i];
    AlwaysSafe(run, acts, i);
    KeptOrDue(st, a, k, s, since);
    NowGrows(st, a);
  }

  lemma {:induction false} KeptUntilDue(run: seq<State>, acts: seq<Action>, i: nat, m: nat, k: nat, s: nat, since: int)
    requires IsRun(run, acts) && i <= m < |run| && Lasts(run, i, m, s, since) && Kept(run[i], k, s, since)
    requires k < |run[m].objs| && run[m].objs[k].slave != Some(s)
    ensures run[m].now - since >= GRACE
    decreases m - i
  {
    RunKeeps(run, acts, i, k, s, since);
    if Kept(run[i + 1], k, s, since) {
      KeptUntilDue(run, acts, i + 1, m, k, s, since);
    } else {
      TimePasses(run, acts, i + 1, m);
    }
  }

  lemma {:induction false} TimePasses(run: seq<State>, acts: seq<Action>, i: nat, m: nat)
    requires IsRun(run, acts) && i <= m < |run|
    ensures run[i].now <= run[m].now
    decreases m - i
  {
    if i < m {
      NowGrows(run[i], acts[i]);
      TimePasses(run, acts, i + 1, m);
    }
  }

  /** The object loses slave `s` between the states `i` and `m` of an outage, before the grace period is over. */
  ghost predicate TakenEarly(run: seq<State>, i: nat, m: nat, k: nat, s: nat, since: int) {
    i < m && Lasts(run, i, m, s, since)
    && k < |run[i].objs| && run[i].objs[k].slave == Some(s)
    && k < |run[m].objs| && run[m].objs[k].slave != Some(s) && run[m].now - since < GRACE
  }

  /** The decision to take a slave away is carried out by the next step of the manager, whatever happens in between. */
  lemma {:induction false} DecisionIsFinal(run: seq<State>, acts: seq<Action>, i: nat, m: nat, k: nat, s: nat)
    requires IsRun(run, acts) && i < m < |run| && run[i].manager == Managing(k, Drop(s))
    ensures (forall j :: i <= j <= m ==> run[j].manager == Managing(k, Drop(s)))
            || exists j :: i < j <= m && k < |run[j].objs| && run[j].objs[k].slave == None
  {
    var j := i;
    while j < m && run[j + 1].manager == Managing(k, Drop(s))
      invariant i <= j <= m && forall l :: i <= l <= j ==> run[l].manager == Managing(k, Drop(s))
    {
      j := j + 1;
    }
    if j < m {
      AlwaysSafe(run, acts, j);
      DropIsNext(run[j], acts[j], k, s);
      assert run[j + 1].objs[k].slave == None;
    }
  }

  lemma DropIsNext(st: State, a: Action, k: nat, s: nat)
    requires Inv(st) && Enabled(st, a) && st.manager == Managing(k, Drop(s)) && Step(st, a).manager != st.manager
    ensures a == ManageDrop && k < |Step(st, a).objs| && Step(st, a).objs[k].slave == None
  {
  }

  /** At any moment of an outage that is still young: an object can lose its slave early from then on exactly when
      the manager has already decided to take it away, which it may have done before the outage began. */
  lemma {:induction false} GraceExactly(run: seq<State>, acts: seq<Action>, k: nat, s: nat, since: int)
    requires IsRun(run, acts) && var st := run[|acts|];
             k < |st.objs| && s < |st.slaves| && st.slaves[s].offline == since && since != 0
             && st.objs[k].slave == Some(s) && st.now - since < GRACE
    ensures run[|acts|].manager == Managing(k, Drop(s)) <==>
              exists more: seq<State>, rest: seq<Action>, m ::
                IsRun(run + more, acts + rest) && TakenEarly(run + more, |acts|, m, k, s, since)
  {
    var st := run[|acts|];
    if st.manager == Managing(k, Drop(s)) {
      var more, rest := [Step(st, ManageDrop)], [ManageDrop];
      var run', acts' := Extend(run, acts, ManageDrop, Step(st, ManageDrop));
      assert run' == run + more && acts' == acts + rest;
      assert TakenEarly(run + more, |acts|, |acts| + 1, k, s, since);
    } else {
      forall more: seq<State>, rest: seq<Action>, m | IsRun(run + more, acts + rest)
        ensures !TakenEarly(run + more, |acts|, m, k, s, since)
      {
        if TakenEarly(run + more, |acts|, m, k, s, since) {
          assert (run + more)[|acts|] == st;
          GracePeriod(run + more, acts + rest, |acts|, m, k, s, since);
        }
      }
    }
  }

  /** A run in which an object that was restored with a slave that is not initialised loses it in the second in which
      the outage of that slave begins. */
  lemma {:induction false} EarlyLoss()
    ensures exists run: seq<State>, acts: seq<Action>, i: nat, m: nat ::
              IsRun(run, acts) && TakenEarly(run, i, m, 0, 0, 1) && run[m].now == 1
  {
    var run, acts := DecidedBefore();
    var down, kept, lost := [Slave(7, 0, 0, 0, 1)], [Obj(Some(0), false)], [Obj(None, false)];
    run, acts := Extend(run, acts, PollLock, State(1, Sound(), kept, Polling(0, Ask), Managing(0, Drop(0))));
    run, acts := Extend(run, acts, PollAsk(None), State(1, down, kept, Polling(0, ClearInit), Managing(0, Drop(0))));
    run, acts := Extend(run, acts, ManageDrop, State(1, down, lost, Polling(0, ClearInit), Managing(1, Look)));
    var m := |acts|;
    assert Lasts(run, m - 1, m, 0, 1);
    assert TakenEarly(run, m - 1, m, 0, 0, 1) && run[m].now == 1;
  }

  function Sound(): seq<Slave> { [Slave(7, 0, 0, 0, 0)] }

  /** The manager decides while the slave is not offline yet. */
  lemma {:induction false} DecidedBefore() returns (run: seq<State>, acts: seq<Action>)
    ensures IsRun(run, acts)
    ensures run[|acts|] == State(1, Sound(), [Obj(Some(0), false)], PollRests, Managing(0, Drop(0)))
  {
    var kept := [Obj(Some(0), false)];
    run, acts := Restored();
    run, acts := Extend(run, acts, ManageLook, State(1, Sound(), kept, PollRests, Managing(0, Check(0))));
    run, acts := Extend(run, acts, ManageCheck, State(1, Sound(), kept, PollRests, Managing(0, Clock(0))));
    run, acts := Extend(run, acts, ManageClock, State(1, Sound(), kept, PollRests, Managing(0, Drop(0))));
  }

  /** After a first round of the poller an object is restored with its old slave. */
  lemma {:induction false} Restored() returns (run: seq<State>, acts: seq<Action>)
    ensures IsRun(run, acts)
    ensures run[|acts|] == State(1, Sound(), [Obj(Some(0), false)], PollRests, Managing(0, Look))
  {
    var kept := [Obj(Some(0), false)];
    run, acts := [Init()], [];
    run, acts := Extend(run, acts, PollLock, State(1, [], [], Polling(0, Ask), ManageRests));
    run, acts := Extend(run, acts, PollUnlock, Init());
    run, acts := Extend(run, acts, AddSlave(7), State(1, Sound(), [], PollRests, ManageRests));
    run, acts := Extend(run, acts, AddObj(Some(0)), State(1, Sound(), kept, PollRests, ManageRests));
    run, acts := Extend(run, acts, ManageLock, State(1, Sound(), kept, PollRests, Managing(0, Look)));
  }

  lemma Extend(run: seq<State>, acts: seq<Action>, a: Action, st: State) returns (run': seq<State>, acts': seq<Action>)
    requires IsRun(run, acts) && Enabled(run[|acts|], a) && Step(run[|acts|], a) == st
    ensures run' == run + [st] && acts' == acts + [a] && IsRun(run', acts')
    ensures run'[|acts'|] == st && run'[|acts|] == run[|acts|]
  {
    run', acts' := run + [st], acts + [a];
    forall i | 0 <= i < |acts'| ensures Enabled(run'[i], acts'[i]) && run'[i + 1] == Step(run'[i], acts'[i]) {
      if i < |acts| {
        assert Enabled(run[i], acts[i]) && run[i + 1] == Step(run[i], acts[i]);
      }
    }
  }

  lemma NowGrows(st: State, a: Action)
    requires Enabled(st, a)
    ensures st.now <= Step(st, a).now
  {
  }

  // ---------------------------------------------------------------- the end of an outage

  /** Slave `s` answers the poller that it is not initialised. */
  predicate Answers(st: State, a: Action, s: nat) {
    st.poller == Polling(s, Ask) && a == PollAsk(Some(0))
  }

  /** The poller has such an answer and is about to end the outage. */
  predicate Ending(st: State, s: nat) {
    st.poller == Polling(s, ClearOffline)
  }

  predicate IsOffline(st: State, s: nat) {
    s < |st.slaves| && st.slaves[s].offline != 0
  }

  lemma StepKeepsOutage(st: State, a: Action, s: nat)
    requires Inv(st) && Enabled(st, a) && IsOffline(st, s) && !Ending(st, s) && !Answers(st, a, s)
    ensures IsOffline(Step(st, a), s) && !Ending(Step(st, a), s)
    ensures Step(st, a).slaves[s].offline == st.slaves[s].offline
  {
  }

  lemma {:induction false} OutageLasts(run: seq<State>, acts: seq<Action>, i: nat, m: nat, s: nat)
    requires IsRun(run, acts) && i <= m < |run| && IsOffline(run[i], s) && !Ending(run[i], s)
    requires forall j :: i <= j < m ==> !Answers(run[j], acts[j], s)
    ensures Lasts(run, i, m, s, run[i].slaves[s].offline)
    decreases m - i
  {
    if i < m {
      RunKeepsOutage(run, acts, i, s);
      OutageLasts(run, acts, i + 1, m, s);
    }
  }

  lemma RunKeepsOutage(run: seq<State>, acts: seq<Action>, i: nat, s: nat)
    requires IsRun(run, acts) && i < |acts| && IsOffline(run[i], s) && !Ending(run[i], s)
             && !Answers(run[i], acts[i], s)
    ensures IsOffline(run[i + 1], s) && !Ending(run[i + 1], s)
    ensures run[i + 1].slaves[s].offline == run[i].slaves[s].offline
  {
    AlwaysSafe(run, acts, i);
    StepKeepsOutage(run[i], acts[i], s);
  }

  lemma AnswerIsHeard(st: State, a: Action, s: nat)
    requires Inv(st) && Enabled(st, a)
    ensures Answers(st, a, s) ==> Ending(Step(st, a), s)
    ensures Ending(st, s) && !Ending(Step(st, a), s) ==> s < |Step(st, a).slaves| && !IsOffline(Step(st, a), s)
  {
  }

  lemma RunHears(run: seq<State>, acts: seq<Action>, i: nat, s: nat)
    requires IsRun(run, acts) && i < |acts|
    ensures Answers(run[i], acts[i], s) ==> Ending(run[i + 1], s)
    ensures Ending(run[i], s) && !Ending(run[i + 1], s) ==> s < |run[i + 1].slaves| && !IsOffline(run[i + 1], s)
  {
    AlwaysSafe(run, acts, i);
    AnswerIsHeard(run[i], acts[i], s);
  }

  lemma {:induction false} OutageEnds(run: seq<State>, acts: seq<Action>, i: nat, m: nat, s: nat)
    requires IsRun(run, acts) && i < m < |run| && (Ending(run[i], s) || Answers(run[i], acts[i], s))
             && !Ending(run[m], s)
    ensures exists l :: i < l <= m && s < |run[l].slaves| && !IsOffline(run[l], s)
    decreases m - i
  {
    RunHears(run, acts, i, s);
    if Ending(run[i + 1], s) {
      OutageEnds(run, acts, i + 1, m, s);
    }
  }

  /** Over whole runs: an outage ends exactly when the slave answers that it is not initialised. Answering is not
      enough: a slave that reports itself as initialised stays offline. */
  lemma {:induction false} OutageEndsOnlyUninitialised(run: seq<State>, acts: seq<Action>, i: nat, m: nat, s: nat)
    requires IsRun(run, acts) && i <= m < |run| && IsOffline(run[i], s) && !Ending(run[i], s) && !Ending(run[m], s)
    ensures (exists l :: i <= l <= m && s < |run[l].slaves| && !IsOffline(run[l], s))
            <==> exists j :: i <= j < m && Answers(run[j], acts[j], s)
  {
    if j :| i <= j < m && Answers(run[j], acts[j], s) {
      OutageEnds(run, acts, j, m, s);
    } else {
      OutageLasts(run, acts, i, m, s);
    }
  }

  /** The grace period in terms of what the slave answers: until it reports itself as not initialised, an object of
      a slave that has been offline since `since` keeps it for the grace period. */
  lemma {:induction false} GraceUntilAnswered(run: seq<State>, acts: seq<Action>, i: nat, m: nat, k: nat, s: nat)
    requires IsRun(run, acts) && i < m < |run| && IsOffline(run[i], s) && !Ending(run[i], s)
    requires forall j :: i <= j < m ==> !Answers(run[j], acts[j], s)
    requires k < |run[i].objs| && run[i].objs[k].slave == Some(s) && run[i].manager != Managing(k, Drop(s))
    requires k < |run[m].objs| && run[m].objs[k].slave != Some(s)
    ensures run[m].now - run[i].slaves[s].offline >= GRACE
  {
    OutageLasts(run, acts, i, m, s);
    GracePeriod(run, acts, i, m, k, s, run[i].slaves[s].offline);
  }

  // ---------------------------------------------------------------- one poll without interruption

  /** The answer of a slave. */
  datatype Answer = Answer(systemInit: int, load: int)

  /** slaveLoad as a whole, on the slave. */
  function Polled(s: Slave, answer: Option<Answer>, now: int, org: bool): Slave {
    match answer
    case None =>
      (if s.offline == 0 then s.(offline := now, systemInit := 0) else s).(online := 0)
    case Some(a) =>
      (if a.systemInit != 0 then s
       else s.(online := if s.online == 0 then now else s.online, offline := 0,
               systemInit := if org && s.systemInit == 0 then 1 else s.systemInit)).(load := a.load)
  }

  function PollActions(s: Slave, answer: Option<Answer>, org: bool): seq<Action> {
    match answer
    case None => if s.offline == 0 then [PollAsk(None), PollClearInit, PollSweep, PollClearOnline]
                 else [PollAsk(None), PollClearOnline]
    case Some(a) =>
      if a.systemInit == 0 then [PollAsk(Some(0))] + ([PollClearOffline] + [PollSetInit(org), PollSetLoad(a.load)])
      else [PollAsk(Some(a.systemInit)), PollSetLoad(a.load)]
  }

  /** The actions are enabled one after the other and lead from `st` to `end`. */
  ghost predicate Leads(st: State, acts: seq<Action>, end: State)
    decreases |acts|
  {
    if acts == [] then st == end else Enabled(st, acts[0]) && Leads(Step(st, acts[0]), acts[1..], end)
  }

  /** slaveLoad as a whole, on the state: the poller goes on to the next slave. */
  function AfterPoll(st: State, answer: Option<Answer>, org: bool): State
    requires AtPc(st, Ask)
  {
    var i := st.poller.slave;
    var s := st.slaves[i];
    st.(slaves := st.slaves[i := Polled(s, answer, st.now, org)],
        objs := if answer.None? && s.offline == 0 then Swept(st.objs, st.slaves, s.ip) else st.objs,
        poller := Polling(i + 1, Ask))
  }

  /** The steps of the poller on one slave add up to slaveLoad. */
  lemma {:induction false} UninterruptedPoll(st: State, answer: Option<Answer>, org: bool)
    requires AtPc(st, Ask) && st.manager.ManageRests? && st.now != 0
    ensures Leads(st, PollActions(st.slaves[st.poller.slave], answer, org), AfterPoll(st, answer, org))
  {
    match answer
    case None =>
      if st.slaves[st.poller.slave].offline == 0 {
        NewOutage(st, org);
      } else {
        LeadsTwo(st, PollAsk(None), PollClearOnline);
      }
    case Some(a) =>
      if a.systemInit == 0 {
        BackOnline(st, a, org);
      } else {
        LeadsTwo(st, PollAsk(Some(a.systemInit)), PollSetLoad(a.load));
      }
  }

  lemma NewOutage(st: State, org: bool)
    requires AtPc(st, Ask) && st.manager.ManageRests? && st.now != 0 && st.slaves[st.poller.slave].offline == 0
    ensures Leads(st, [PollAsk(None), PollClearInit, PollSweep, PollClearOnline], AfterPoll(st, None, org))
  {
    var s := st.slaves[st.poller.slave];
    var st1 := SetSlave(st, s.(offline := st.now), ClearInit);
    var st2 := SetSlave(st, s.(offline := st.now, systemInit := 0), Sweep);
    var swept := Swept(st.objs, st.slaves, s.ip);
    var st3 := SetSlave(st, s.(offline := st.now, systemInit := 0), ClearOnline).(objs := swept);
    assert Step(st, PollAsk(None)) == st1;
    assert Step(st1, PollClearInit) == st2;
    SweptAlike(st.objs, st.slaves, st2.slaves, s.ip);
    assert Step(st2, PollSweep) == st3;
    assert Step(st3, PollClearOnline) == AfterPoll(st, None, org);
    LeadsFour(st, PollAsk(None), PollClearInit, PollSweep, PollClearOnline);
  }

  lemma BackOnline(st: State, a: Answer, org: bool)
    requires AtPc(st, Ask) && a.systemInit == 0
    ensures Leads(st, [PollAsk(Some(0))] + ([PollClearOffline] + [PollSetInit(org), PollSetLoad(a.load)]),
                  AfterPoll(st, Some(a), org))
  {
    var s := st.slaves[st.poller.slave];
    var s1 := s.(online := if s.online == 0 then st.now else s.online);
    var rest := [PollSetInit(org), PollSetLoad(a.load)];
    assert Step(st, PollAsk(Some(0))) == SetSlave(st, s1, ClearOffline);
    FromClearOffline(st, s1, a, org);
    LeadsOn(st, PollAsk(Some(0)), [PollClearOffline] + rest);
  }

  lemma FromClearOffline(st: State, s: Slave, a: Answer, org: bool)
    requires AtPc(st, Ask)
    ensures var init := if org && s.systemInit == 0 then 1 else s.systemInit;
            var s' := s.(offline := 0, systemInit := init, load := a.load);
            Leads(SetSlave(st, s, ClearOffline), [PollClearOffline] + [PollSetInit(org), PollSetLoad(a.load)],
                  NextSlave(SetSlave(st, s', Ask)))
  {
    assert Step(SetSlave(st, s, ClearOffline), PollClearOffline) == SetSlave(st, s.(offline := 0), SetInit);
    FromSetInit(st, s.(offline := 0), a, org);
    LeadsOn(SetSlave(st, s, ClearOffline), PollClearOffline, [PollSetInit(org), PollSetLoad(a.load)]);
  }

  lemma FromSetInit(st: State, s: Slave, a: Answer, org: bool)
    requires AtPc(st, Ask)
    ensures var s' := s.(systemInit := if org && s.systemInit == 0 then 1 else s.systemInit, load := a.load);
            Leads(SetSlave(st, s, SetInit), [PollSetInit(org), PollSetLoad(a.load)], NextSlave(SetSlave(st, s', Ask)))
  {
    var s2 := s.(systemInit := if org && s.systemInit == 0 then 1 else s.systemInit);
    assert Step(SetSlave(st, s, SetInit), PollSetInit(org)) == SetSlave(st, s2, SetLoad);
    assert Step(SetSlave(st, s2, SetLoad), PollSetLoad(a.load)) == NextSlave(SetSlave(st, s2.(load := a.load), Ask));
    LeadsTwo(SetSlave(st, s, SetInit), PollSetInit(org), PollSetLoad(a.load));
  }

  lemma LeadsLast(st: State, a: Action)
    requires Enabled(st, a)
    ensures Leads(st, [a] + [], Step(st, a))
  {
    var end := Step(st, a);
    assert Leads(end, [], end);
    LeadsOn(st, a, []);
  }

  lemma LeadsTwo(st: State, a: Action, b: Action)
    requires Enabled(st, a) && Enabled(Step(st, a), b)
    ensures Leads(st, [a, b], Step(Step(st, a), b))
  {
    var end := Step(Step(st, a), b);
    assert Leads(end, [], end);
    LeadsOn(Step(st, a), b, []);
    LeadsOn(st, a, [b]);
    assert [b] + [] == [b] && [a] + [b] == [a, b];
  }

  lemma LeadsFour(st: State, a: Action, b: Action, c: Action, d: Action)
    requires Enabled(st, a) && Enabled(Step(st, a), b) && Enabled(Step(Step(st, a), b), c)
    requires Enabled(Step(Step(Step(st, a), b), c), d)
    ensures Leads(st, [a, b, c, d], Step(Step(Step(Step(st, a), b), c), d))
  {
    LeadsTwo(Step(Step(st, a), b), c, d);
    LeadsOn(Step(st, a), b, [c, d]);
    LeadsOn(st, a, [b, c, d]);
    assert [b] + [c, d] == [b, c, d] && [a] + [b, c, d] == [a, b, c, d];
  }

  lemma LeadsOn(st: State, a: Action, rest: seq<Action>)
    requires Enabled(st, a)
    ensures forall end :: Leads(Step(st, a), rest, end) ==> Leads(st, [a] + rest, end)
  {
    assert ([a] + rest)[1..] == rest;
  }

  lemma SweptAlike(objs: seq<Obj>, slaves: seq<Slave>, others: seq<Slave>, ip: int)
    requires |slaves| == |others| && forall i :: 0 <= i < |slaves| ==> slaves[i].ip == others[i].ip
    ensures Swept(objs, slaves, ip) == Swept(objs, others, ip)
  {
  }

  // ---------------------------------------------------------------- one visit without interruption

  /** What mobjManager makes of an object. */
  function Managed(o: Obj, slaves: seq<Slave>, now: int): Obj
    requires o.slave.Some? ==> o.slave.value < |slaves|
  {
    match o.slave
    case None => if Lowest(slaves).Some? then Obj(Lowest(slaves), true) else o
    case Some(s) =>
      if o.attached || (Abnormal(slaves[s]) && InGrace(slaves[s], now)) then o
      else if Abnormal(slaves[s]) then o.(slave := None)
      else o.(attached := true)
  }

  /** Does it redirect the object? */
  predicate Redirected(o: Obj, slaves: seq<Slave>)
    requires o.slave.Some? ==> o.slave.value < |slaves|
  {
    if o.slave.None? then Lowest(slaves).Some? else !o.attached && !Abnormal(slaves[o.slave.value])
  }

  function ManageActions(o: Obj, slaves: seq<Slave>, now: int, ack: Option<int>): seq<Action>
    requires o.slave.Some? ==> o.slave.value < |slaves|
  {
    [ManageLook] +
    match o.slave
    case None => ActionsFromPick(slaves, ack)
    case Some(s) => if o.attached then [] else ActionsFromCheck(slaves[s], now, ack)
  }

  function ActionsFromPick(slaves: seq<Slave>, ack: Option<int>): seq<Action> {
    [ManagePick] + if Lowest(slaves).Some? then [ManageAssign] + [ManageAttach, ManageRedirect(ack)] else []
  }

  function ActionsFromCheck(s: Slave, now: int, ack: Option<int>): seq<Action> {
    [ManageCheck] + if Abnormal(s) then ActionsFromClock(s, now) else [ManageAttach, ManageRedirect(ack)]
  }

  function ActionsFromClock(s: Slave, now: int): seq<Action> {
    [ManageClock] + if InGrace(s, now) then [] else [ManageDrop]
  }

  /** mobjManager as a whole, on the state: the manager goes on to the next object. */
  function AfterManage(st: State, ack: Option<int>): State
    requires Visits(st) && Known(st)
  {
    var o := st.objs[st.manager.obj];
    var o' := Managed(o, st.slaves, st.now);
    if Redirected(o, st.slaves) then Redirecting(st, o', ack) else NextObj(SetObj(st, o', Look))
  }

  /** The end of a visit that leaves `o` behind and redirects it. */
  function Redirecting(st: State, o: Obj, ack: Option<int>): State
    requires Visits(st) && o.slave.Some? && o.slave.value < |st.slaves|
  {
    var s := o.slave.value;
    NextObj(SetObj(st, o, Look)).(
      slaves := if ack.Some? then st.slaves[s := st.slaves[s].(load := ack.value)] else st.slaves)
  }

  /** The slave of the visited object is in the queue. */
  predicate Known(st: State)
    requires Visits(st)
  {
    var o := st.objs[st.manager.obj];
    o.slave.Some? ==> o.slave.value < |st.slaves|
  }

  /** The steps of the manager on one object add up to mobjManager. */
  lemma {:induction false} UninterruptedManage(st: State, ack: Option<int>)
    requires Visits(st) && st.manager.at == Look && Known(st) && st.poller.PollRests?
    ensures Leads(st, ManageActions(st.objs[st.manager.obj], st.slaves, st.now, ack), AfterManage(st, ack))
  {
    var o := st.objs[st.manager.obj];
    match o.slave
    case None =>
      FromPick(st, o, ack);
      LeadsOn(st, ManageLook, ActionsFromPick(st.slaves, ack));
    case Some(s) =>
      if o.attached {
        assert AfterManage(st, ack) == Step(st, ManageLook);
        LeadsLast(st, ManageLook);
      } else {
        FromCheck(st, o, s, ack);
        LeadsOn(st, ManageLook, ActionsFromCheck(st.slaves[s], st.now, ack));
      }
  }

  lemma FromAttach(st: State, o: Obj, s: nat, ack: Option<int>)
    requires Visits(st) && o.slave == Some(s) && s < |st.slaves|
    ensures Leads(SetObj(st, o, Attach(s)), [ManageAttach, ManageRedirect(ack)],
            Redirecting(st, o.(attached := true), ack))
  {
    var st1 := SetObj(st, o, Attach(s));
    var st2 := SetObj(st, o.(attached := true), Redirect(s));
    assert Step(st1, ManageAttach) == st2;
    assert Step(st2, ManageRedirect(ack)) == Redirecting(st, o.(attached := true), ack);
    LeadsTwo(st1, ManageAttach, ManageRedirect(ack));
  }

  lemma FromPick(st: State, o: Obj, ack: Option<int>)
    requires Visits(st) && o == st.objs[st.manager.obj] && o.slave.None? && st.poller.PollRests?
    ensures Leads(SetObj(st, o, Pick), ActionsFromPick(st.slaves, ack), AfterManage(st, ack))
  {
    var st1 := SetObj(st, o, Pick);
    match Lowest(st.slaves)
    case None =>
      assert AfterManage(st, ack) == Step(st1, ManagePick);
      LeadsLast(st1, ManagePick);
    case Some(s) =>
      FromAssign(st, o, s, ack);
      assert Step(st1, ManagePick) == SetObj(st, o, Assign(s));
      LeadsOn(st1, ManagePick, [ManageAssign] + [ManageAttach, ManageRedirect(ack)]);
  }

  lemma FromAssign(st: State, o: Obj, s: nat, ack: Option<int>)
    requires Visits(st) && o.slave.None? && s < |st.slaves|
    ensures Leads(SetObj(st, o, Assign(s)), [ManageAssign] + [ManageAttach, ManageRedirect(ack)],
                  Redirecting(st, Obj(Some(s), true), ack))
  {
    FromAttach(st, o.(slave := Some(s)), s, ack);
    assert Step(SetObj(st, o, Assign(s)), ManageAssign) == SetObj(st, o.(slave := Some(s)), Attach(s));
    LeadsOn(SetObj(st, o, Assign(s)), ManageAssign, [ManageAttach, ManageRedirect(ack)]);
  }

  lemma FromCheck(st: State, o: Obj, s: nat, ack: Option<int>)
    requires Visits(st) && o == st.objs[st.manager.obj] == Obj(Some(s), false) && s < |st.slaves|
    ensures Leads(SetObj(st, o, Check(s)), ActionsFromCheck(st.slaves[s], st.now, ack), AfterManage(st, ack))
  {
    var st1 := SetObj(st, o, Check(s));
    if Abnormal(st.slaves[s]) {
      FromClock(st, o, s, ack);
      assert Step(st1, ManageCheck) == SetObj(st, o, Clock(s));
      LeadsOn(st1, ManageCheck, ActionsFromClock(st.slaves[s], st.now));
    } else {
      FromAttach(st, o, s, ack);
      assert Step(st1, ManageCheck) == SetObj(st, o, Attach(s));
      LeadsOn(st1, ManageCheck, [ManageAttach, ManageRedirect(ack)]);
    }
  }

  lemma FromClock(st: State, o: Obj, s: nat, ack: Option<int>)
    requires Visits(st) && o == st.objs[st.manager.obj] == Obj(Some(s), false) && s < |st.slaves|
             && Abnormal(st.slaves[s])
    ensures Leads(SetObj(st, o, Clock(s)), ActionsFromClock(st.slaves[s], st.now), AfterManage(st, ack))
  {
    var st1 := SetObj(st, o, Clock(s));
    if InGrace(st.slaves[s], st.now) {
      assert AfterManage(st, ack) == Step(st1, ManageClock);
      LeadsLast(st1, ManageClock);
    } else {
      var st2 := SetObj(st, o, Drop(s));
      assert Step(st1, ManageClock) == st2;
      assert AfterManage(st, ack) == Step(st2, ManageDrop);
      LeadsTwo(st1, ManageClock, ManageDrop);
    }
  }
}

/** The callbacks of the two threads on the records themselves. */
module Master {
  import opened Options
  import opened MasterProtocol

  class SlaveParam {
    var ip: int
    var systemInit: int
    var load: int
    var online: int
    var offline: int

    constructor (ip: int)
      ensures View() == Slave(ip, 0, 0, 0, 0)
    {
      this.ip := ip;
      systemInit, load, online, offline := 0, 0, 0, 0;
    }

    function View(): Slave
      reads this
    {
      Slave(ip, systemInit, load, online, offline)
    }
  }

  class ObjParam {
    var slave: SlaveParam?
    var attachSlave: bool

    constructor (slave: SlaveParam?)
      ensures this.slave == slave && !attachSlave
    {
      this.slave, attachSlave := slave, false;
    }
  }

  ghost function Views(slaves: seq<SlaveParam>): seq<Slave>
    reads slaves
  {
    seq(|slaves|, i requires 0 <= i < |slaves| reads slaves => slaves[i].View())
  }

  /** detachObjSlave */
  method DetachObjSlave(o: ObjParam, slaveIp: int)
    modifies o`attachSlave
    ensures o.attachSlave == (old(o.attachSlave) && !(o.slave != null && o.slave.ip == slaveIp))
  {
    if o.slave != null && o.attachSlave {
      if o.slave.ip == slaveIp {
        o.attachSlave := false;
      }
    }
  }

  /** detachSlave: the callback on every object of the queue. */
  method DetachSlave(objs: seq<ObjParam>, slaveIp: int)
    modifies objs`attachSlave
    ensures forall o :: o in objs ==>
              o.attachSlave == (old(o.attachSlave) && !(o.slave != null && o.slave.ip == slaveIp))
  {
    var i := 0;
    while i < |objs|
      invariant 0 <= i <= |objs|
      invariant forall o :: o in objs[..i] ==>
                  o.attachSlave == (old(o.attachSlave) && !(o.slave != null && o.slave.ip == slaveIp))
      invariant forall o :: o in objs && o !in objs[..i] ==> o.attachSlave == old(o.attachSlave)
    {
      DetachObjSlave(objs[i], slaveIp);
      assert objs[..i + 1] == objs[..i] + [objs[i]];
      i := i + 1;
    }
    assert objs[..i] == objs;
  }

  /** slaveLoad, with the answer of the slave and the clock as parameters. */
  method SlaveLoad(p: SlaveParam, answer: Option<Answer>, now: int, org: bool, objs: seq<ObjParam>)
    modifies p, objs`attachSlave
    ensures p.View() == Polled(old(p.View()), answer, now, org)
    ensures p.ip == old(p.ip)
    ensures p.online == if answer.None? then 0
                        else if answer.value.systemInit == 0 && old(p.online) == 0 then now else old(p.online)
    ensures p.offline == if answer.Some? && answer.value.systemInit == 0 then 0
                         else if answer.None? && old(p.offline) == 0 then now else old(p.offline)
    ensures p.systemInit == if answer.None? && old(p.offline) == 0 then 0
                            else if answer.Some? && answer.value.systemInit == 0 && org && old(p.systemInit) == 0
                            then 1 else old(p.systemInit)
    ensures p.load == if answer.Some? then answer.value.load else old(p.load)
    ensures forall o :: o in objs ==>
      o.attachSlave == (old(o.attachSlave) && !(answer.None? && old(p.offline) == 0 && o.slave != null
        && o.slave.ip == p.ip))
  {
    if answer.None? {
      if p.offline == 0 {
        p.offline := now;
        p.systemInit := 0;
        DetachSlave(objs, p.ip);
      }
      if p.online != 0 {
        p.online := 0;
      }
    } else {
      if answer.value.systemInit == 0 {
        if p.online == 0 {
          p.online := now;
        }
        if p.offline != 0 {
          p.offline := 0;
        }
        if org {
          if p.systemInit == 0 {
            p.systemInit := 1;
          }
        }
      }
      p.load := answer.value.load;
    }
  }

  /** getLowestLoadSlave: _getlowestLoadSlave on every slave of the queue. */
  method GetLowestLoadSlave(slaves: seq<SlaveParam>) returns (lowest: SlaveParam?)
    ensures var r := Lowest(Views(slaves)); lowest == if r.Some? then slaves[r.value] else null
    ensures lowest == null ==>
      forall p :: p in slaves ==> p.online == 0 || p.systemInit == 0 || p.load >= 90
    ensures lowest != null ==>
      lowest in slaves && lowest.online != 0 && lowest.systemInit != 0 && lowest.load < 90
      && forall p :: p in slaves && p.online != 0 && p.systemInit != 0 ==> lowest.load <= p.load
  {
    lowest := null;
    ghost var r: Option<nat> := None;
    var i := 0;
    ghost var vs := Views(slaves);
    while i < |slaves|
      invariant 0 <= i <= |slaves| && vs == Views(slaves)
      invariant r == Lowest(vs[..i]) && lowest == if r.Some? then slaves[r.value] else null
    {
      var p := slaves[i];
      assert vs[..i + 1][..i] == vs[..i] && vs[..i + 1][i] == vs[i] == p.View();
      if lowest == null {
        if p.online != 0 && p.systemInit != 0 && p.load < SLAVE_LOAD_MAX {
          lowest, r := p, Some(i);
        }
      } else {
        if p.load < lowest.load && p.online != 0 && p.systemInit != 0 {
          lowest, r := p, Some(i);
        }
      }
      i := i + 1;
    }
    assert vs[..i] == vs;
    LowestIsLowest(vs);
    forall p | p in slaves ensures exists k :: 0 <= k < |slaves| && vs[k] == p.View() {
      var k :| 0 <= k < |slaves| && slaves[k] == p;
      assert vs[k] == p.View();
    }
  }

  /** slaveIsNormal: 1 when the object can go back to its slave, 0 to wait, -1 to give the slave up. */
  method SlaveIsNormal(p: SlaveParam, now: int) returns (normal: int)
    ensures normal == if p.offline != 0 then if now - p.offline < 120 then 0 else -1
                      else if p.systemInit == 0 || p.load >= 90 then -1 else 1
  {
    normal := 1;
    if p.offline != 0 || p.systemInit == 0 || p.load >= SLAVE_LOAD_MAX {
      normal := -1;
      if p.offline != 0 {
        var sec := now - p.offline;
        if sec < GRACE {
          normal := 0;
        }
      }
    }
  }

  /** The object as its slave's place in the queue. */
  ghost predicate Shows(o: ObjParam, slaves: seq<SlaveParam>, view: Obj)
    reads o
  {
    view.attached == o.attachSlave
    && match view.slave
       case None => o.slave == null
       case Some(i) => i < |slaves| && slaves[i] == o.slave
  }

  /** The sweep of the protocol leaves every object as detachSlave leaves its record. */
  lemma SweptAsDetached(objs: seq<ObjParam>, slaves: seq<SlaveParam>, views: seq<Obj>, ip: int)
    requires |views| == |objs| && forall k :: 0 <= k < |objs| ==> Shows(objs[k], slaves, views[k])
    ensures var swept := Swept(views, Views(slaves), ip);
      |swept| == |objs|
      && forall k {:trigger swept[k]} :: 0 <= k < |objs| ==>
        var o := objs[k];
        swept[k] == Obj(views[k].slave, o.attachSlave && !(o.slave != null && o.slave.ip == ip))
  {
  }

  /** mobjManager, with the load in the answer to the redirection as parameter. */
  method MobjManager(o: ObjParam, slaves: seq<SlaveParam>, now: int, ack: Option<int>) returns (redirect: bool)
    modifies o, slaves`load, (if o.slave == null then {} else {o.slave})`load
    ensures old(o.slave) != null && old(o.attachSlave) ==> !redirect && o.slave == old(o.slave) && o.attachSlave
    ensures old(o.slave) != null && !old(o.attachSlave) ==>
      if old(o.slave.offline) != 0 && now - old(o.slave.offline) < 120 then
        !redirect && !o.attachSlave && o.slave == old(o.slave)
      else if old(o.slave.offline) != 0 || old(o.slave.systemInit) == 0 || old(o.slave.load) >= 90 then
        !redirect && !o.attachSlave && o.slave == null
      else redirect && o.attachSlave && o.slave == old(o.slave)
    ensures old(o.slave) == null ==>
      var r := Lowest(old(Views(slaves)));
      redirect == r.Some?
      && o.slave == (if r.Some? then slaves[r.value] else null) && o.attachSlave == (r.Some? || old(o.attachSlave))
    ensures forall view :: old(Shows(o, slaves, view)) ==>
      Shows(o, slaves, Managed(view, old(Views(slaves)), now)) && redirect == Redirected(view, old(Views(slaves)))
    ensures forall s :: s in slaves && !(redirect && s == o.slave && ack.Some?) ==> s.load == old(s.load)
    ensures redirect && ack.Some? ==> o.slave != null && o.slave.load == ack.value
  {
    redirect := false;
    if o.slave != null && !o.attachSlave {
      var normal := SlaveIsNormal(o.slave, now);
      if normal == 1 {
        redirect := true;
        o.attachSlave := true;
      } else if normal == -1 {
        o.slave := null;
      }
    } else if o.slave == null {
      var p := GetLowestLoadSlave(slaves);
      if p != null {
        redirect := true;
        o.slave := p;
        o.attachSlave := true;
      }
    }
    if redirect {
      if ack.Some? {
        o.slave.load := ack.value;
      }
    }
  }
}
