/** The start/stop protocol of one live stream: flag changes, frame callbacks, two beat loops and the object manager. */
module LiveTask {
  import opened Options

  const TASK_BEAT_TIMEOUT := 30
  const PROC_BEAT_TIMEOUT := 20

  datatype Call = Start | Stop

  /** rtspTaskBeat between two accesses: what it has read so far, what it is about to call, what it has called. */
  datatype Pc =
    | Idle
    | Wanted | Unwanted             // livestream has been read
    | Aging                         // and liveTaskBeat is not 0
    | ToStart | ToStop | ToRestart  // the decision
    | Starting | Stopping | Restarting

  /** rtspProcBeat between two accesses. */
  datatype ProcPc = ProcIdle | Renewing | Rechecking | Checking | Leaving | Clearing

  /** rtsp_callback, with the second that it read when the frame arrived: it compares the stored second with it,
      checks that it is positive, and stores its own. */
  datatype Callback = Away | Entered(sec: int) | Compared(sec: int) | Storing(sec: int)

  /** objManager, with its own second. */
  datatype Manager = ManIdle | Dating(now: int) | Putting(now: int) | Setting(now: int)

  /** The shared flags of taskParams, the second the process last saw, whether the object is in the queue of the
      process, the calls of start and stop so far, and where the four threads are. `joins` says whether stopping a
      player waits for a callback that is running. */
  datatype State = State(joins: bool, tv: int, livestream: int, liveBeat: int, liveTaskBeat: int, queued: bool,
                         calls: seq<Call>, pc: Pc, cb: Callback, proc: ProcPc, man: Manager)

  datatype Action =
    | SetFlag(live: int)        // a REST request
    | SetTime(sec: int)         // the task beat thread reads the clock
    | Beat | Proceed            // rtspTaskBeat: its first access, and each further access or call
    | ProcBeat | ProcProceed    // rtspProcBeat
    | Frame | CallbackProceed   // rtsp_callback
    | Manage(now: int) | ManageProceed(put: bool) // objManager; `put` says that getEmptyProc has placed the object

  function Init(joins: bool, sec: int): State {
    State(joins, sec, 0, 0, 0, false, [], Idle, Away, ProcIdle, ManIdle)
  }

  predicate Started(st: State) {
    st.calls != [] && st.calls[|st.calls| - 1] == Start
  }

  predicate Expired(st: State) {
    st.tv - st.liveTaskBeat > TASK_BEAT_TIMEOUT
  }

  /** The lock of the queue is free. */
  predicate Unlocked(st: State) {
    st.pc == Idle && st.proc == ProcIdle
  }

  /** The beat loops exclude each other by the lock of the queue and visit only what is in it. A frame arrives only
      while a player is started. */
  predicate Enabled(st: State, a: Action) {
    match a
    case SetFlag(_) => true
    case SetTime(sec) => st.pc == Idle && sec >= st.tv
    case Beat => st.queued && Unlocked(st)
    case Proceed => st.pc != Idle && (st.joins && (st.pc == ToStop || st.pc == ToRestart) ==> st.cb == Away)
    case ProcBeat => st.queued && Unlocked(st)
    case ProcProceed => st.proc != ProcIdle
    case Frame => Started(st) && st.cb == Away
    case CallbackProceed => st.cb != Away
    case Manage(_) => st.man == ManIdle
    case ManageProceed(_) => st.man != ManIdle && (st.man.Putting? ==> Unlocked(st))
  }

  function BeatStep(st: State): State {
    match st.pc
    case Idle => st
    case Wanted => st.(pc := if st.liveTaskBeat == 0 then ToStart else Aging)
    case Aging => st.(pc := if Expired(st) then ToRestart else Idle)
    case Unwanted => st.(pc := if st.liveTaskBeat > 0 then ToStop else Idle)
    case ToStart => st.(calls := st.calls + [Start], pc := Starting)
    case ToRestart => st.(calls := st.calls + [Stop], pc := Restarting)
    case ToStop => st.(calls := st.calls + [Stop], pc := Stopping)
    case Restarting => st.(calls := st.calls + [Start], pc := Starting)
    case Starting => st.(liveTaskBeat := st.tv, pc := Idle)
    case Stopping => st.(liveTaskBeat := 0, pc := Idle)
  }

  function ProcStep(st: State): State {
    match st.proc
    case ProcIdle => st
    case Renewing => st.(liveBeat := st.tv, proc := ProcIdle)
    case Rechecking => st.(proc := if st.livestream == 0 then Checking else ProcIdle)
    case Checking => st.(proc := if st.liveTaskBeat == 0 then Leaving else ProcIdle)
    case Leaving => st.(queued := false, proc := Clearing)
    case Clearing => st.(liveBeat := 0, proc := ProcIdle)
  }

  function CallbackStep(st: State): State {
    match st.cb
    case Away => st
    case Entered(sec) => st.(cb := if st.liveTaskBeat != sec then Compared(sec) else Away)
    case Compared(sec) => st.(cb := if st.liveTaskBeat > 0 then Storing(sec) else Away)
    case Storing(sec) => st.(liveTaskBeat := sec, cb := Away)
  }

  function ManagerStep(st: State, put: bool): State {
    match st.man
    case ManIdle => st
    case Dating(now) => st.(man := if now - st.liveBeat > PROC_BEAT_TIMEOUT then Putting(now) else ManIdle)
    case Putting(now) => st.(queued := st.queued || put, man := Setting(now))
    case Setting(now) => st.(liveBeat := now, man := ManIdle)
  }

  function Step(st: State, a: Action): State
    requires Enabled(st, a)
  {
    match a
    case SetFlag(live) => st.(livestream := live)
    case SetTime(sec) => st.(tv := sec)
    case Beat => st.(pc := if st.livestream != 0 then Wanted else Unwanted)
    case Proceed => BeatStep(st)
    case ProcBeat => st.(proc := if st.livestream != 0 then Renewing else Rechecking)
    case ProcProceed => ProcStep(st)
    case Frame => st.(cb := Entered(st.tv))
    case CallbackProceed => CallbackStep(st)
    case Manage(now) => st.(man := if st.livestream != 0 then Dating(now) else ManIdle)
    case ManageProceed(put) => ManagerStep(st, put)
  }

  // ---------------------------------------------------------------- start and stop

  /** Start, stop, start, ... */
  ghost predicate Alternates(calls: seq<Call>) {
    forall i :: 0 <= i < |calls| ==> calls[i] == if i % 2 == 0 then Start else Stop
  }

  /** Outside the calls and writes of the task beat the second is set exactly while the stream is started. */
  ghost predicate BeatInv(st: State) {
    match st.pc
    case Idle => st.liveTaskBeat > 0 <==> Started(st)
    case Wanted => st.liveTaskBeat > 0 <==> Started(st)
    case Unwanted => st.liveTaskBeat > 0 <==> Started(st)
    case Aging => st.liveTaskBeat > 0 && Started(st)
    case ToStart => st.liveTaskBeat == 0 && !Started(st)
    case ToStop => st.liveTaskBeat > 0 && Started(st)
    case ToRestart => st.liveTaskBeat > 0 && Started(st)
    case Starting => Started(st)
    case Stopping => st.liveTaskBeat > 0 && !Started(st)
    case Restarting => st.liveTaskBeat > 0 && !Started(st)
  }

  ghost predicate Inv(st: State) {
    st.joins && st.tv > 0 && st.liveTaskBeat >= 0 && Alternates(st.calls) && BeatInv(st)
    && (st.cb != Away ==> Started(st) && st.cb.sec > 0) && (st.cb.Storing? ==> st.liveTaskBeat > 0)
    && (st.proc != ProcIdle ==> st.pc == Idle) && (st.proc == Leaving ==> st.liveTaskBeat == 0)
  }

  lemma {:induction false} BeatKeepsInv(st: State)
    requires Inv(st) && Enabled(st, Proceed)
    ensures Inv(Step(st, Proceed))
  {
    if st.pc == ToStart || st.pc == Restarting {
      OneMoreCall(st, Start);
    } else if st.pc == ToStop || st.pc == ToRestart {
      OneMoreCall(st, Stop);
    }
  }

  lemma OneMoreCall(st: State, c: Call)
    requires Alternates(st.calls) && (c == Start <==> !Started(st))
    ensures Alternates(st.calls + [c])
  {
    ParityOfCalls(st);
  }

  lemma ProcKeepsInv(st: State)
    requires Inv(st) && Enabled(st, ProcProceed)
    ensures Inv(Step(st, ProcProceed))
  {
  }

  lemma CallbackKeepsInv(st: State)
    requires Inv(st) && Enabled(st, CallbackProceed)
    ensures Inv(Step(st, CallbackProceed))
  {
  }

  lemma OtherKeepsInv(st: State, a: Action)
    requires Inv(st) && Enabled(st, a) && a != ProcProceed && a != CallbackProceed && a != Proceed
    ensures Inv(Step(st, a))
  {
  }

  lemma {:induction false} StepKeepsInv(st: State, a: Action)
    requires Inv(st) && Enabled(st, a)
    ensures Inv(Step(st, a))
  {
    match a
    case Proceed => BeatKeepsInv(st);
    case ProcProceed => ProcKeepsInv(st);
    case CallbackProceed => CallbackKeepsInv(st);
    case _ => OtherKeepsInv(st, a);
  }

  lemma ParityOfCalls(st: State)
    requires Alternates(st.calls)
    ensures Started(st) <==> |st.calls| % 2 == 1
  {
  }

  ghost predicate IsRun(run: seq<State>, acts: seq<Action>, joins: bool, sec: int) {
    |run| == |acts| + 1 && run[0] == Init(joins, sec)
    && forall i {:trigger Enabled(run[i], acts[i])} :: 0 <= i < |acts| ==>
         Enabled(run[i], acts[i]) && run[i + 1] == Step(run[i], acts[i])
  }

  /** The protocol over every interleaving, provided that stopping waits for the callback: the calls alternate
      beginning with start, the second is set exactly while started, and an object leaves the queue only while
      stopped. */
  lemma {:induction false} AlwaysAlternates(run: seq<State>, acts: seq<Action>, sec: int, i: nat)
    requires IsRun(run, acts, true, sec) && sec > 0 && i < |run|
    ensures Inv(run[i])
    ensures i < |acts| && run[i].queued && !run[i + 1].queued ==> !Started(run[i]) && !Started(run[i + 1])
  {
    RunKeepsInv(run, acts, sec, i);
    if i < |acts| && run[i].queued && !run[i + 1].queued {
      LeavesWhileStopped(run[i], acts[i]);
    }
  }

  lemma {:induction false} RunKeepsInv(run: seq<State>, acts: seq<Action>, sec: int, i: nat)
    requires IsRun(run, acts, true, sec) && sec > 0 && i < |run|
    ensures Inv(run[i])
  {
    if i > 0 {
      RunKeepsInv(run, acts, sec, i - 1);
      StepKeepsInv(run[i - 1], acts[i - 1]);
    }
  }

  lemma LeavesWhileStopped(st: State, a: Action)
    requires Inv(st) && Enabled(st, a) && st.queued && !Step(st, a).queued
    ensures !Started(st) && !Started(Step(st, a))
  {
  }

  // ---------------------------------------------------------------- restarts

  /** The second that a step stores: that of a frame, or that of a completed start. */
  function Stored(st: State, a: Action): Option<int> {
    if a == Proceed && st.pc == Starting then Some(st.tv)
    else if a == CallbackProceed && st.cb.Storing? then Some(st.cb.sec)
    else None
  }

  /** Every frame that has been stored before state `q`, and every start that has been completed, is more than 30 s
      old. */
  ghost predicate Silent(run: seq<State>, acts: seq<Action>, q: nat)
    requires q < |run| && q <= |acts|
  {
    forall j :: 0 <= j < q && Stored(run[j], acts[j]).Some? ==>
      run[q].tv - Stored(run[j], acts[j]).value > 30
  }

  /** The task beat has found the stream wanted and running, and decides whether to restart it. */
  predicate Decides(st: State, a: Action) {
    st.pc == Aging && a == Proceed
  }

  predicate OfTaskBeat(a: Action) {
    a == Beat || a == Proceed
  }

  /** `m` is the next step of the task beat after `q`. */
  ghost predicate NextStep(acts: seq<Action>, q: nat, m: nat) {
    q < m < |acts| && OfTaskBeat(acts[m]) && forall j :: q < j < m ==> !OfTaskBeat(acts[j])
  }

  /** Over whole runs: a decision stops the stream with the next step of the task beat, exactly when everything that
      has been stored is more than 30 s old. */
  lemma {:induction false} RestartsOnlyAfterSilence(run: seq<State>, acts: seq<Action>, sec: int, q: nat, m: nat)
    requires IsRun(run, acts, true, sec) && sec > 0 && NextStep(acts, q, m) && Decides(run[q], acts[q])
    ensures run[m + 1].calls == run[m].calls + [Stop] <==> Silent(run, acts, q)
  {
    DecidesBySilence(run, acts, sec, q);
    PcStays(run, acts, true, sec, q + 1, m);
    assert Enabled(run[m], acts[m]) && run[m + 1] == Step(run[m], acts[m]);
  }

  lemma {:induction false} DecidesBySilence(run: seq<State>, acts: seq<Action>, sec: int, q: nat)
    requires IsRun(run, acts, true, sec) && sec > 0 && q < |acts| && Decides(run[q], acts[q])
    ensures run[q + 1].pc == if Silent(run, acts, q) then ToRestart else Idle
  {
    RunKeepsInv(run, acts, sec, q);
    LastStored(run, acts, sec, q);
    forall j | 0 <= j < q && Stored(run[j], acts[j]).Some? ensures Heeded(run[q], Stored(run[j], acts[j]).value) {
      StaysHeeded(run, acts, sec, j, q);
    }
    assert Enabled(run[q], acts[q]) && run[q + 1] == Step(run[q], acts[q]);
  }

  lemma {:induction false} PcStays(run: seq<State>, acts: seq<Action>, joins: bool, sec: int, i: nat, m: nat)
    requires IsRun(run, acts, joins, sec) && i <= m < |run| && forall j :: i <= j < m ==> !OfTaskBeat(acts[j])
    ensures run[m].pc == run[i].pc
    decreases m - i
  {
    if i < m {
      PcKept(run[i], acts[i]);
      PcStays(run, acts, joins, sec, i + 1, m);
    }
  }

  lemma PcKept(st: State, a: Action)
    requires Enabled(st, a) && !OfTaskBeat(a)
    ensures Step(st, a).pc == st.pc
  {
  }

  /** Nothing else stops a wanted stream: behind every stop of a restart there is a beat that has read the flag as
      set, and its decision, after which it did nothing and the clock of the process stood still. */
  lemma {:induction false} StopsByDecision(run: seq<State>, acts: seq<Action>, sec: int, m: nat)
      returns (l: nat, q: nat)
    requires IsRun(run, acts, true, sec) && sec > 0 && m < |run| && run[m].pc == ToRestart
    ensures l < q < m && acts[l] == Beat && run[l].livestream != 0
    ensures Decides(run[q], acts[q]) && Silent(run, acts, q)
    ensures forall j :: q < j <= m ==> run[j].pc == ToRestart && run[j].tv == run[q].tv
  {
    q := EntryOf(run, acts, true, sec, m);
    Entering(run, acts, true, sec, q);
    DecidesBySilence(run, acts, sec, q);
    var w := EntryOf(run, acts, true, sec, q);
    Entering(run, acts, true, sec, w);
    l := EntryOf(run, acts, true, sec, w);
    Entering(run, acts, true, sec, l);
  }

  /** The last step that brought the task beat to where it is in state `m`. */
  lemma {:induction false} EntryOf(run: seq<State>, acts: seq<Action>, joins: bool, sec: int, m: nat) returns (q: nat)
    requires IsRun(run, acts, joins, sec) && m < |run| && run[m].pc != Idle
    ensures q < m && run[q].pc != run[m].pc
    ensures forall j :: q < j <= m ==> run[j].pc == run[m].pc && run[j].tv == run[q].tv
  {
    TimeStands(run[m - 1], acts[m - 1]);
    if run[m - 1].pc != run[m].pc {
      q := m - 1;
    } else {
      q := EntryOf(run, acts, joins, sec, m - 1);
    }
  }

  lemma TimeStands(st: State, a: Action)
    requires Enabled(st, a) && Step(st, a).pc != Idle
    ensures Step(st, a).tv == st.tv
  {
  }

  /** How the task beat gets to a place where it reads the age, and to a restart. */
  lemma Entering(run: seq<State>, acts: seq<Action>, joins: bool, sec: int, q: nat)
    requires IsRun(run, acts, joins, sec) && q < |acts| && run[q].pc != run[q + 1].pc
    ensures run[q + 1].pc == ToRestart ==> Decides(run[q], acts[q])
    ensures run[q + 1].pc == Aging ==> run[q].pc == Wanted
    ensures run[q + 1].pc == Wanted ==> acts[q] == Beat && run[q].livestream != 0
  {
    assert Enabled(run[q], acts[q]) && run[q + 1] == Step(run[q], acts[q]);
  }

  // ---------------------------------------------------------------- what has been stored

  /** The seconds that are stored, or are about to be, never run backwards. */
  ghost predicate InOrder(st: State) {
    st.liveTaskBeat <= st.tv && (st.cb != Away ==> st.liveTaskBeat <= st.cb.sec <= st.tv)
    && (st.pc == Starting && st.cb != Away ==> st.cb.sec == st.tv)
  }

  lemma StepKeepsOrder(st: State, a: Action)
    requires Inv(st) && InOrder(st) && Enabled(st, a)
    ensures InOrder(Step(st, a))
  {
  }

  lemma {:induction false} AlwaysInOrder(run: seq<State>, acts: seq<Action>, sec: int, i: nat)
    requires IsRun(run, acts, true, sec) && sec > 0 && i < |run|
    ensures Inv(run[i]) && InOrder(run[i])
  {
    if i > 0 {
      AlwaysInOrder(run, acts, sec, i - 1);
      StepKeepsInv(run[i - 1], acts[i - 1]);
      StepKeepsOrder(run[i - 1], acts[i - 1]);
    }
  }

  /** What was stored at second `t` has not been replaced by something older, unless the stream has been stopped. */
  ghost predicate Heeded(st: State, t: int) {
    st.tv >= t && (st.pc == Starting || !Started(st) || st.liveTaskBeat >= t)
  }

  lemma StepKeepsHeeded(st: State, a: Action, t: int)
    requires Inv(st) && InOrder(st) && Enabled(st, a)
    ensures Stored(st, a).Some? ==> Heeded(Step(st, a), Stored(st, a).value)
    ensures Heeded(st, t) ==> Heeded(Step(st, a), t)
  {
  }

  lemma {:induction false} StaysHeeded(run: seq<State>, acts: seq<Action>, sec: int, j: nat, i: nat)
    requires IsRun(run, acts, true, sec) && sec > 0 && j < i < |run| && Stored(run[j], acts[j]).Some?
    ensures Heeded(run[i], Stored(run[j], acts[j]).value)
  {
    if j < i - 1 {
      StaysHeeded(run, acts, sec, j, i - 1);
    }
    RunKeepsHeeded(run, acts, sec, i - 1, Stored(run[j], acts[j]).value);
  }

  lemma RunKeepsHeeded(run: seq<State>, acts: seq<Action>, sec: int, i: nat, t: int)
    requires IsRun(run, acts, true, sec) && sec > 0 && i < |acts|
    ensures Stored(run[i], acts[i]).Some? ==> Heeded(run[i + 1], Stored(run[i], acts[i]).value)
    ensures Heeded(run[i], t) ==> Heeded(run[i + 1], t)
  {
    AlwaysInOrder(run, acts, sec, i);
    StepKeepsHeeded(run[i], acts[i], t);
  }

  /** Second `t` was stored before state `i`. */
  ghost predicate StoredBefore(run: seq<State>, acts: seq<Action>, i: nat, t: int) {
    exists j :: 0 <= j < i && j < |run| && j < |acts| && Stored(run[j], acts[j]) == Some(t)
  }

  /** What is in the record has been stored there. */
  lemma {:induction false} LastStored(run: seq<State>, acts: seq<Action>, sec: int, i: nat)
    requires IsRun(run, acts, true, sec) && sec > 0 && i < |run|
    ensures run[i].liveTaskBeat > 0 ==> StoredBefore(run, acts, i, run[i].liveTaskBeat)
  {
    if i > 0 {
      LastStored(run, acts, sec, i - 1);
      StoredFrom(run[i - 1], acts[i - 1]);
      StoredStays(run, acts, i);
    }
  }

  lemma StoredFrom(st: State, a: Action)
    requires Enabled(st, a)
    ensures var t := Step(st, a).liveTaskBeat; t == 0 || t == st.liveTaskBeat || Stored(st, a) == Some(t)
  {
  }

  lemma StoredStays(run: seq<State>, acts: seq<Action>, i: nat)
    requires 0 < i < |run| && i <= |acts|
    ensures forall t :: StoredBefore(run, acts, i - 1, t) ==> StoredBefore(run, acts, i, t)
    ensures forall t :: Stored(run[i - 1], acts[i - 1]) == Some(t) ==> StoredBefore(run, acts, i, t)
  {
  }

  // ---------------------------------------------------------------- frames that are on their way

  /** The second of the frame that is being handled, if there is one, is more than 30 s old. */
  predicate NothingFresh(st: State) {
    st.cb == Away || st.tv - st.cb.sec > 30
  }

  /** The frame of second `t` has been stored, will be, or no longer matters. */
  ghost predicate Seen(st: State, t: int) {
    Heeded(st, t) || (st.tv >= t && st.cb != Away && st.cb.sec >= t)
  }

  lemma StepKeepsSeen(st: State, a: Action, t: int)
    requires Inv(st) && InOrder(st) && Enabled(st, a)
    ensures a == Frame ==> Seen(Step(st, a), st.tv)
    ensures Seen(st, t) ==> Seen(Step(st, a), t)
  {
  }

  lemma RunKeepsSeen(run: seq<State>, acts: seq<Action>, sec: int, i: nat, t: int)
    requires IsRun(run, acts, true, sec) && sec > 0 && i < |acts|
    ensures acts[i] == Frame ==> Seen(run[i + 1], run[i].tv)
    ensures Seen(run[i], t) ==> Seen(run[i + 1], t)
  {
    AlwaysInOrder(run, acts, sec, i);
    StepKeepsSeen(run[i], acts[i], t);
  }

  lemma {:induction false} StaysSeen(run: seq<State>, acts: seq<Action>, sec: int, j: nat, i: nat)
    requires IsRun(run, acts, true, sec) && sec > 0 && j < i < |run| && acts[j] == Frame
    ensures Seen(run[i], run[j].tv)
  {
    if j < i - 1 {
      StaysSeen(run, acts, sec, j, i - 1);
    }
    RunKeepsSeen(run, acts, sec, i - 1, run[j].tv);
  }

  /** A frame arrived at second `t` before state `i`. */
  ghost predicate Arrived(run: seq<State>, acts: seq<Action>, i: nat, t: int) {
    exists j :: 0 <= j < i && j < |run| && j < |acts| && acts[j] == Frame && run[j].tv == t
  }

  lemma {:induction false} InFlightArrived(run: seq<State>, acts: seq<Action>, joins: bool, sec: int, i: nat)
    requires IsRun(run, acts, joins, sec) && i < |run|
    ensures run[i].cb != Away ==> Arrived(run, acts, i, run[i].cb.sec)
  {
    if i > 0 {
      InFlightArrived(run, acts, joins, sec, i - 1);
      CallbackFrom(run[i - 1], acts[i - 1]);
      ArrivedStays(run, acts, i);
    }
  }

  lemma CallbackFrom(st: State, a: Action)
    requires Enabled(st, a)
    ensures var cb := Step(st, a).cb;
            cb == Away || (st.cb != Away && cb.sec == st.cb.sec) || (a == Frame && cb.sec == st.tv)
  {
  }

  lemma ArrivedStays(run: seq<State>, acts: seq<Action>, i: nat)
    requires 0 < i < |run| && i <= |acts|
    ensures forall t :: Arrived(run, acts, i - 1, t) ==> Arrived(run, acts, i, t)
    ensures acts[i - 1] == Frame ==> Arrived(run, acts, i, run[i - 1].tv)
  {
  }

  /** A decision to restart is right about the frames that have arrived, too, exactly when no fresh frame is being
      handled at that moment. */
  lemma {:induction false} RightAboutArrivals(run: seq<State>, acts: seq<Action>, sec: int, q: nat)
    requires IsRun(run, acts, true, sec) && sec > 0 && q < |acts| && Decides(run[q], acts[q]) && Silent(run, acts, q)
    ensures (forall j :: 0 <= j < q && acts[j] == Frame ==> run[q].tv - run[j].tv > 30)
            <==> NothingFresh(run[q])
  {
    RunKeepsInv(run, acts, sec, q);
    InFlightArrived(run, acts, true, sec, q);
    DecidesBySilence(run, acts, sec, q);
    assert Enabled(run[q], acts[q]) && run[q + 1] == Step(run[q], acts[q]);
    forall j | 0 <= j < q && acts[j] == Frame ensures Seen(run[q], run[j].tv) {
      StaysSeen(run, acts, sec, j, q);
    }
  }

  // ---------------------------------------------------------------- two runs

  lemma Extend(run: seq<State>, acts: seq<Action>, joins: bool, a: Action, st: State)
      returns (run': seq<State>, acts': seq<Action>)
    requires IsRun(run, acts, joins, 100) && Enabled(run[|acts|], a) && Step(run[|acts|], a) == st
    ensures run' == run + [st] && acts' == acts + [a] && IsRun(run', acts', joins, 100) && run'[|acts'|] == st
    ensures run'[|acts|] == run[|acts|] && acts'[|acts|] == a
  {
    run', acts' := run + [st], acts + [a];
    forall i | 0 <= i < |acts'| ensures Enabled(run'[i], acts'[i]) && run'[i + 1] == Step(run'[i], acts'[i]) {
      if i < |acts| {
        assert Enabled(run[i], acts[i]) && run[i + 1] == Step(run[i], acts[i]);
      }
    }
  }

  /** A stream that was started in second 100 and has seen no frame. */
  function Running(joins: bool): State {
    State(joins, 100, 1, 100, 100, true, [Start], Idle, Away, ProcIdle, ManIdle)
  }

  lemma {:induction false} ReachesPlaced(joins: bool) returns (run: seq<State>, acts: seq<Action>)
    ensures IsRun(run, acts, joins, 100)
    ensures run[|acts|] == State(joins, 100, 1, 100, 0, true, [], Idle, Away, ProcIdle, ManIdle)
  {
    run, acts := [Init(joins, 100)], [];
    var st := Init(joins, 100).(livestream := 1);
    run, acts := Extend(run, acts, joins, SetFlag(1), st);
    run, acts := Extend(run, acts, joins, Manage(100), st.(man := Dating(100)));
    run, acts := Extend(run, acts, joins, ManageProceed(true), st.(man := Putting(100)));
    run, acts := Extend(run, acts, joins, ManageProceed(true), st.(queued := true, man := Setting(100)));
    run, acts := Extend(run, acts, joins, ManageProceed(true), st.(queued := true, liveBeat := 100));
  }

  lemma {:induction false} ReachesRunning(joins: bool) returns (run: seq<State>, acts: seq<Action>)
    ensures IsRun(run, acts, joins, 100) && run[|acts|] == Running(joins)
  {
    run, acts := ReachesPlaced(joins);
    var st := run[|acts|];
    run, acts := Extend(run, acts, joins, Beat, st.(pc := Wanted));
    run, acts := Extend(run, acts, joins, Proceed, st.(pc := ToStart));
    run, acts := Extend(run, acts, joins, Proceed, st.(calls := [Start], pc := Starting));
    run, acts := Extend(run, acts, joins, Proceed, Running(joins));
  }

  lemma {:induction false} DecidedWithFreshFrame() returns (run: seq<State>, acts: seq<Action>)
    ensures IsRun(run, acts, true, 100)
    ensures run[|acts|] == Running(true).(tv := 140, cb := Storing(140), pc := ToRestart)
  {
    run, acts := ReachesRunning(true);
    var st := Running(true).(tv := 140);
    run, acts := Extend(run, acts, true, SetTime(140), st);
    run, acts := Extend(run, acts, true, Frame, st.(cb := Entered(140)));
    run, acts := Extend(run, acts, true, CallbackProceed, st.(cb := Compared(140)));
    run, acts := Extend(run, acts, true, CallbackProceed, st.(cb := Storing(140)));
    run, acts := Extend(run, acts, true, Beat, st.(cb := Storing(140), pc := Wanted));
    run, acts := Extend(run, acts, true, Proceed, st.(cb := Storing(140), pc := Aging));
    run, acts := Extend(run, acts, true, Proceed, st.(cb := Storing(140), pc := ToRestart));
  }

  /** The decision can be overtaken by a frame: it arrives before the task beat reads the age of the last one and is
      stored after that, and the stream is stopped in the same second. */
  lemma {:induction false} StoppedWithFreshFrame()
    ensures exists run: seq<State>, acts: seq<Action>, m: nat, j: nat ::
              IsRun(run, acts, true, 100) && j < m < |acts| && FreshlyStopped(run, acts, m, j)
  {
    var run, acts := DecidedWithFreshFrame();
    var st := run[|acts|].(liveTaskBeat := 140, cb := Away);
    var j := |acts|;
    run, acts := Extend(run, acts, true, CallbackProceed, st);
    run, acts := Extend(run, acts, true, Proceed, st.(calls := [Start, Stop], pc := Restarting));
    assert run[j + 1] == st && FreshlyStopped(run, acts, j + 1, j);
  }

  /** Step `m` stops a wanted stream in the second of the frame that step `j` has stored. */
  ghost predicate FreshlyStopped(run: seq<State>, acts: seq<Action>, m: nat, j: nat)
    requires j < m < |acts| && |run| == |acts| + 1
  {
    run[m].livestream != 0 && run[m + 1].calls == run[m].calls + [Stop]
    && acts[j] == CallbackProceed && Stored(run[j], acts[j]) == Some(run[m].tv)
  }

  /** Without waiting for the callback the protocol breaks: a callback that had read the flags before the stop sets
      the second of a stopped stream, and the next beat stops it once more. */
  lemma {:induction false} WithoutJoining()
    ensures exists run: seq<State>, acts: seq<Action> :: IsRun(run, acts, false, 100) && !Alternates(run[|acts|].calls)
  {
    var run, acts := StoppedTooEarly();
    var st := Running(false).(tv := 101, livestream := 0, liveTaskBeat := 101, calls := [Start, Stop]);
    run, acts := Extend(run, acts, false, CallbackProceed, st);
    run, acts := Extend(run, acts, false, Beat, st.(pc := Unwanted));
    run, acts := Extend(run, acts, false, Proceed, st.(pc := ToStop));
    run, acts := Extend(run, acts, false, Proceed, st.(calls := [Start, Stop, Stop], pc := Stopping));
    assert run[|acts|].calls[2] == Stop;
    assert IsRun(run, acts, false, 100) && !Alternates(run[|acts|].calls);
  }

  lemma {:induction false} StoppedTooEarly() returns (run: seq<State>, acts: seq<Action>)
    ensures IsRun(run, acts, false, 100)
    ensures run[|acts|] == Running(false).(tv := 101, livestream := 0, liveTaskBeat := 0, calls := [Start, Stop],
                                           cb := Storing(101))
  {
    run, acts := ReachesRunning(false);
    var st := Running(false).(tv := 101);
    run, acts := Extend(run, acts, false, SetTime(101), st);
    run, acts := Extend(run, acts, false, Frame, st.(cb := Entered(101)));
    run, acts := Extend(run, acts, false, CallbackProceed, st.(cb := Compared(101)));
    run, acts := Extend(run, acts, false, CallbackProceed, st.(cb := Storing(101)));
    var st' := st.(cb := Storing(101), livestream := 0);
    run, acts := Extend(run, acts, false, SetFlag(0), st');
    run, acts := Extend(run, acts, false, Beat, st'.(pc := Unwanted));
    run, acts := Extend(run, acts, false, Proceed, st'.(pc := ToStop));
    run, acts := Extend(run, acts, false, Proceed, st'.(calls := [Start, Stop], pc := Stopping));
    run, acts := Extend(run, acts, false, Proceed, st'.(liveTaskBeat := 0, calls := [Start, Stop]));
  }

  // ---------------------------------------------------------------- the functions without interruption

  /** How many steps of the task beat are left at most. */
  function Left(pc: Pc): nat {
    match pc
    case Idle => 0
    case Starting => 1
    case Stopping => 1
    case ToStart => 2
    case Restarting => 2
    case ToStop => 2
    case ToRestart => 3
    case Unwanted => 3
    case Aging => 4
    case Wanted => 5
  }

  /** The task beat runs on to its end. */
  function FinishBeat(st: State): State
    decreases Left(st.pc)
  {
    if st.pc == Idle then st else FinishBeat(BeatStep(st))
  }

  function FinishProcBeat(st: State): State
    decreases match st.proc case ProcIdle => 0 case Clearing => 1 case Renewing => 1 case Leaving => 2
                            case Checking => 3 case Rechecking => 4
  {
    if st.proc == ProcIdle then st else FinishProcBeat(ProcStep(st))
  }

  function FinishCallback(st: State): State
    decreases match st.cb case Away => 0 case Storing(_) => 1 case Compared(_) => 2 case Entered(_) => 3
  {
    if st.cb == Away then st else FinishCallback(CallbackStep(st))
  }

  function FinishManager(st: State, put: bool): State
    decreases match st.man case ManIdle => 0 case Setting(_) => 1 case Putting(_) => 2 case Dating(_) => 3
  {
    if st.man == ManIdle then st else FinishManager(ManagerStep(st, put), put)
  }

  /** rtspTaskBeat as a whole. */
  function Beaten(st: State): State {
    if st.livestream != 0 then
      if st.liveTaskBeat == 0 then st.(calls := st.calls + [Start], liveTaskBeat := st.tv)
      else if Expired(st) then st.(calls := st.calls + [Stop, Start], liveTaskBeat := st.tv)
      else st
    else if st.liveTaskBeat > 0 then st.(calls := st.calls + [Stop], liveTaskBeat := 0)
    else st
  }

  /** The steps of the task beat add up to it. */
  lemma {:induction false} UninterruptedBeat(st: State)
    requires Enabled(st, Beat)
    ensures FinishBeat(Step(st, Beat)) == Beaten(st)
  {
    var st1 := Step(st, Beat);
    assert FinishBeat(st1) == FinishBeat(BeatStep(st1));
    if st.livestream == 0 {
      if st.liveTaskBeat > 0 {
        FinishStop(st.(pc := ToStop));
      }
    } else if st.liveTaskBeat == 0 {
      FinishStart(st.(pc := ToStart));
    } else {
      assert FinishBeat(st.(pc := Aging)) == FinishBeat(BeatStep(st.(pc := Aging)));
      if Expired(st) {
        FinishRestart(st.(pc := ToRestart));
      }
    }
  }

  lemma {:induction false} FinishStop(st: State)
    requires st.pc == ToStop
    ensures FinishBeat(st) == st.(calls := st.calls + [Stop], liveTaskBeat := 0, pc := Idle)
  {
    assert FinishBeat(st) == FinishBeat(BeatStep(st)) == BeatStep(BeatStep(st));
  }

  lemma {:induction false} FinishStart(st: State)
    requires st.pc == ToStart || st.pc == Restarting
    ensures FinishBeat(st) == st.(calls := st.calls + [Start], liveTaskBeat := st.tv, pc := Idle)
  {
    assert FinishBeat(st) == FinishBeat(BeatStep(st)) == BeatStep(BeatStep(st));
  }

  lemma {:induction false} FinishRestart(st: State)
    requires st.pc == ToRestart
    ensures FinishBeat(st) == st.(calls := st.calls + [Stop, Start], liveTaskBeat := st.tv, pc := Idle)
  {
    FinishStart(BeatStep(st));
    assert FinishBeat(st) == FinishBeat(BeatStep(st));
    assert st.calls + [Stop] + [Start] == st.calls + [Stop, Start];
  }

  /** rtspProcBeat, rtsp_callback and objManager as a whole. */
  function ProcBeaten(st: State): State {
    if st.livestream != 0 then st.(liveBeat := st.tv)
    else if st.liveTaskBeat == 0 then st.(queued := false, liveBeat := 0)
    else st
  }

  function CalledBack(st: State): State {
    if st.liveTaskBeat != st.tv && st.liveTaskBeat > 0 then st.(liveTaskBeat := st.tv) else st
  }

  function Managed(st: State, now: int, put: bool): State {
    if st.livestream != 0 && now - st.liveBeat > PROC_BEAT_TIMEOUT then st.(queued := st.queued || put, liveBeat := now)
    else st
  }

  lemma {:induction false} UninterruptedProcBeat(st: State)
    requires Enabled(st, ProcBeat)
    ensures FinishProcBeat(Step(st, ProcBeat)) == ProcBeaten(st)
  {
    var st1 := Step(st, ProcBeat);
    var st2 := ProcStep(st1);
    var st3 := ProcStep(st2);
    var st4 := ProcStep(st3);
    var st5 := ProcStep(st4);
    assert st5 == ProcBeaten(st);
    assert FinishProcBeat(st3) == FinishProcBeat(st4) == FinishProcBeat(st5) == st5;
    assert FinishProcBeat(st1) == FinishProcBeat(st2) == FinishProcBeat(st3);
  }

  lemma {:induction false} UninterruptedCallback(st: State)
    requires Enabled(st, Frame)
    ensures FinishCallback(Step(st, Frame)) == CalledBack(st)
  {
    var st1 := Step(st, Frame);
    var st2 := CallbackStep(st1);
    var st3 := CallbackStep(st2);
    var st4 := CallbackStep(st3);
    assert st4 == CalledBack(st);
    assert FinishCallback(st2) == FinishCallback(st3) == FinishCallback(st4) == st4;
    assert FinishCallback(st1) == FinishCallback(st2);
  }

  lemma {:induction false} UninterruptedManager(st: State, now: int, put: bool)
    requires Enabled(st, Manage(now))
    ensures FinishManager(Step(st, Manage(now)), put) == Managed(st, now, put)
  {
    var st1 := Step(st, Manage(now));
    var st2 := ManagerStep(st1, put);
    var st3 := ManagerStep(st2, put);
    var st4 := ManagerStep(st3, put);
    assert st4 == Managed(st, now, put);
    assert FinishManager(st2, put) == FinishManager(st3, put) == FinishManager(st4, put) == st4;
    assert FinishManager(st1, put) == FinishManager(st2, put);
  }
}

/** The beat functions on the shared record. */
module Rtsp {
  import opened LiveTask

  class TaskParams {
    var livestream: int
    var liveBeat: int
    var liveTaskBeat: int
    var liveRestart: int
    var calls: seq<Call>

    constructor ()
      ensures livestream == 0 && liveBeat == 0 && liveTaskBeat == 0 && calls == []
    {
      livestream, liveBeat, liveTaskBeat, liveRestart, calls := 0, 0, 0, 0, [];
    }

    /** The record, seen by a process at second `tv` that has the object in its queue or not. */
    ghost function View(tv: int, queued: bool): State
      reads this
    {
      State(true, tv, livestream, liveBeat, liveTaskBeat, queued, calls, Idle, Away, ProcIdle, ManIdle)
    }

    /** The start function of the task; what it does with the player is not modelled. */
    method StartLive()
      modifies this`calls
      ensures calls == old(calls) + [Start]
    {
      calls := calls + [Start];
    }

    method StopLive()
      modifies this`calls
      ensures calls == old(calls) + [Stop]
    {
      calls := calls + [Stop];
    }

    /** rtspTaskBeat: its steps, one after the other. */
    method RtspTaskBeat(nowSec: int)
      modifies this
      ensures View(nowSec, true) == FinishBeat(Step(old(View(nowSec, true)), Beat))
      ensures livestream == old(livestream) && liveBeat == old(liveBeat)
      ensures livestream != 0 && old(liveTaskBeat) == 0 ==> calls == old(calls) + [Start] && liveTaskBeat == nowSec
      ensures livestream != 0 && old(liveTaskBeat) != 0 && nowSec - old(liveTaskBeat) > 30 ==>
                calls == old(calls) + [Stop, Start] && liveTaskBeat == nowSec && liveRestart == old(liveRestart) + 1
      ensures livestream == 0 && old(liveTaskBeat) > 0 ==> calls == old(calls) + [Stop] && liveTaskBeat == 0
      ensures (if livestream != 0 then old(liveTaskBeat) != 0 && nowSec - old(liveTaskBeat) <= 30
               else old(liveTaskBeat) <= 0) ==>
                calls == old(calls) && liveTaskBeat == old(liveTaskBeat) && liveRestart == old(liveRestart)
    {
      ghost var before := calls;
      UninterruptedBeat(View(nowSec, true));
      if livestream != 0 {
        if liveTaskBeat == 0 {
          StartLive();
          liveTaskBeat := nowSec;
        } else if nowSec - liveTaskBeat > TASK_BEAT_TIMEOUT {
          liveRestart := liveRestart + 1;
          StopLive();
          StartLive();
          liveTaskBeat := nowSec;
          assert calls == before + [Stop, Start];
        }
      } else if liveTaskBeat > 0 {
        StopLive();
        liveTaskBeat := 0;
      }
    }

    /** rtspProcBeat: its steps; `queued` says whether the object is still in the queue of the process afterwards. */
    method RtspProcBeat(nowSec: int) returns (queued: bool)
      modifies this
      ensures View(nowSec, queued) == FinishProcBeat(Step(old(View(nowSec, true)), ProcBeat))
      ensures queued <==> old(livestream) != 0 || old(liveTaskBeat) != 0
      ensures liveBeat == if old(livestream) != 0 then nowSec else if queued then old(liveBeat) else 0
      ensures livestream == old(livestream) && liveTaskBeat == old(liveTaskBeat) && calls == old(calls)
    {
      UninterruptedProcBeat(View(nowSec, true));
      queued := true;
      if livestream != 0 {
        liveBeat := nowSec;
      } else if livestream == 0 && liveTaskBeat == 0 {
        queued := false;
        liveBeat := 0;
      }
    }

    /** rtsp_callback, on the flags: while the stream is started, the steps of the callback. */
    method RtspCallback(nowSec: int)
      modifies this
      ensures View(nowSec, true) == old(View(nowSec, true)).(liveTaskBeat :=
                if old(liveTaskBeat) > 0 then nowSec else old(liveTaskBeat))
      ensures old(Started(View(nowSec, true))) ==>
                View(nowSec, true) == FinishCallback(Step(old(View(nowSec, true)), Frame))
    {
      if Started(View(nowSec, true)) {
        UninterruptedCallback(View(nowSec, true));
      }
      if liveTaskBeat != nowSec && liveTaskBeat > 0 {
        liveTaskBeat := nowSec;
      }
    }

    /** The live part of objManager: its steps, when the object is placed each time it is handed to getEmptyProc. */
    method ObjManager(nowSec: int, ghost tv: int, ghost queued: bool) returns (place: bool)
      modifies this
      ensures View(tv, queued || place) == FinishManager(Step(old(View(tv, queued)), Manage(nowSec)), true)
      ensures place <==> old(livestream) != 0 && nowSec - old(liveBeat) > 20
      ensures liveBeat == if place then nowSec else old(liveBeat)
      ensures livestream == old(livestream) && liveTaskBeat == old(liveTaskBeat) && calls == old(calls)
    {
      UninterruptedManager(View(tv, queued), nowSec, true);
      place := livestream != 0 && nowSec - liveBeat > PROC_BEAT_TIMEOUT;
      if place {
        liveBeat := nowSec;
      }
    }
  }
}
