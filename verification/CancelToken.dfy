/**
 * The cancel token of crates/red-ai/src/lib.rs: any number of tasks in `cancelled` and of
 * calls of `cancel`, interleaved at every access of the flag and of tokio's `Notify`.
 *
 * `Notify` is modelled by its contract: a `Notified` future receives every
 * `notify_waiters` issued after its creation; `notify_one` wakes one parked future or
 * leaves a permit that the next poll consumes.
 */
module CancelToken {
  import opened Wrappers

  /** Which statements of the protocol are in place; the source has all three. */
  datatype Protocol = Protocol(recheck: bool, wakeAll: bool, wakeOne: bool)

  const SOURCE := Protocol(true, true, true)

  /** Where a call of `cancelled` stands. */
  datatype Task =
    | Check // about to load the flag at the head of the loop
    | Create // about to create the waiter
    | Recheck(seen: nat) // about to load the flag again, its waiter created after `seen` broadcasts
    | Poll(seen: nat) // about to await the waiter
    | Parked // queued in the Notify
    | Woken(byOne: bool) // taken off the queue, not yet run
    | Returned
    | Dropped // abandoned by a `select!`

  /** Where a call of `cancel` stands. */
  datatype Caller = Store | WakeAll | WakeOne | Finished

  datatype State = State(flag: bool, permit: bool, broadcasts: nat, tasks: seq<Task>, callers: seq<Caller>)

  const INIT := State(false, false, 0, [], [])

  datatype Step =
    | StartTask
    | StartCancel
    | RunTask(i: nat)
    | DropTask(i: nat, woken: nat)
    | RunCancel(c: nat, woken: nat) // `woken` is the parked task `notify_one` picks, if any is parked

  /** One step of a task that is able to run. */
  function TaskStep(p: Protocol, s: State, i: nat): Option<State>
    requires i < |s.tasks|
  {
    match s.tasks[i]
    case Check => Some(s.(tasks := s.tasks[i := if s.flag then Returned else Create]))
    case Create => Some(s.(tasks := s.tasks[i := Recheck(s.broadcasts)]))
    case Recheck(seen) => Some(s.(tasks := s.tasks[i := if p.recheck && s.flag then Returned else Poll(seen)]))
    case Poll(seen) =>
      if seen != s.broadcasts then Some(s.(tasks := s.tasks[i := Check]))
      else if s.permit then Some(s.(permit := false, tasks := s.tasks[i := Check]))
      else Some(s.(tasks := s.tasks[i := Parked]))
    case Woken(_) => Some(s.(tasks := s.tasks[i := Check]))
    case _ => None
  }

  function WakeTask(t: Task): Task {
    if t == Parked then Woken(false) else t
  }

  function WakeEvery(tasks: seq<Task>): (r: seq<Task>)
    ensures |r| == |tasks|
  {
    seq(|tasks|, i requires 0 <= i < |tasks| => WakeTask(tasks[i]))
  }

  predicate AnyParked(tasks: seq<Task>) {
    exists i :: 0 <= i < |tasks| && tasks[i] == Parked
  }

  /** `notify_one`: some parked task, or a permit when none is. */
  function NotifyOne(s: State, woken: nat): Option<State> {
    if !AnyParked(s.tasks) then Some(s.(permit := true))
    else if woken < |s.tasks| && s.tasks[woken] == Parked then Some(s.(tasks := s.tasks[woken := Woken(true)]))
    else None
  }

  function CancelStep(p: Protocol, s: State, c: nat, woken: nat): Option<State>
    requires c < |s.callers|
  {
    match s.callers[c]
    case Store => Some(s.(flag := true, callers := s.callers[c := WakeAll]))
    case WakeAll =>
      var t := s.(callers := s.callers[c := WakeOne]);
      Some(if p.wakeAll then t.(broadcasts := s.broadcasts + 1, tasks := WakeEvery(s.tasks)) else t)
    case WakeOne =>
      var t := s.(callers := s.callers[c := Finished]);
      if p.wakeOne then NotifyOne(t, woken) else Some(t)
    case Finished => None
  }

  /** A dropped waiter passes an unused `notify_one` on. */
  function DropStep(s: State, i: nat, woken: nat): Option<State>
    requires i < |s.tasks|
  {
    var t := s.(tasks := s.tasks[i := Dropped]);
    if s.tasks[i] == Woken(true) then NotifyOne(t, woken) else Some(t)
  }

  /** The state after a step, when the step is possible. */
  function Apply(p: Protocol, s: State, step: Step): Option<State> {
    match step
    case StartTask => Some(s.(tasks := s.tasks + [Check]))
    case StartCancel => Some(s.(callers := s.callers + [Store]))
    case RunTask(i) => if i < |s.tasks| then TaskStep(p, s, i) else None
    case DropTask(i, woken) => if i < |s.tasks| && s.tasks[i] != Returned then DropStep(s, i, woken) else None
    case RunCancel(c, woken) => if c < |s.callers| then CancelStep(p, s, c, woken) else None
  }

  function Run(p: Protocol, s: State, steps: seq<Step>): Option<State>
    decreases |steps|
  {
    if steps == [] then Some(s)
    else
      match Apply(p, s, steps[0])
      case Some(t) => Run(p, t, steps[1..])
      case None => None
  }

  // ----- the invariant -----

  /** A call of `cancel` past its broadcast. */
  predicate Broadcast(c: Caller) {
    c == WakeOne || c == Finished
  }

  predicate TaskOk(s: State, t: Task) {
    match t
    case Recheck(seen) => seen <= s.broadcasts
    case Poll(seen) => seen == 0 // the flag was down after the waiter was made
    case Parked => s.broadcasts == 0
    case Returned => s.flag
    case _ => true
  }

  predicate CallerOk(s: State, c: Caller) {
    (c != Store ==> s.flag) && (Broadcast(c) ==> s.broadcasts > 0)
  }

  predicate Inv(s: State) {
    && (s.broadcasts > 0 ==> s.flag)
    && (s.flag ==> exists c :: 0 <= c < |s.callers| && s.callers[c] != Store)
    && (forall i :: 0 <= i < |s.tasks| ==> TaskOk(s, s.tasks[i]))
    && (forall c :: 0 <= c < |s.callers| ==> CallerOk(s, s.callers[c]))
  }

  /** The flag once up stays up, and calls of `cancel` never go back. */
  predicate Onward(s: State, t: State) {
    && (s.flag ==> t.flag) && s.broadcasts <= t.broadcasts
    && |s.tasks| <= |t.tasks| && |s.callers| <= |t.callers|
    && (forall c :: 0 <= c < |s.callers| && s.callers[c] != Store ==> t.callers[c] != Store)
    && (forall c :: 0 <= c < |s.callers| && s.callers[c] == Finished ==> t.callers[c] == Finished)
  }

  lemma TaskKeeps(p: Protocol, s: State, i: nat)
    requires p.recheck && Inv(s) && i < |s.tasks| && TaskStep(p, s, i).Some?
    ensures Inv(TaskStep(p, s, i).value) && Onward(s, TaskStep(p, s, i).value)
  {
    var t := TaskStep(p, s, i).value;
    forall k | 0 <= k < |t.tasks| ensures TaskOk(t, t.tasks[k]) {
      assert TaskOk(s, s.tasks[k]);
    }
    forall c | 0 <= c < |t.callers| ensures CallerOk(t, t.callers[c]) {
      assert CallerOk(s, s.callers[c]);
    }
  }

  lemma CancelKeeps(p: Protocol, s: State, c: nat, woken: nat)
    requires p.wakeAll && Inv(s) && c < |s.callers| && CancelStep(p, s, c, woken).Some?
    ensures Inv(CancelStep(p, s, c, woken).value) && Onward(s, CancelStep(p, s, c, woken).value)
  {
    var t := CancelStep(p, s, c, woken).value;
    assert CallerOk(s, s.callers[c]);
    assert t.callers[c] != Store;
    forall k | 0 <= k < |t.tasks| ensures TaskOk(t, t.tasks[k]) {
      assert TaskOk(s, s.tasks[k]);
    }
    forall k | 0 <= k < |t.callers| ensures CallerOk(t, t.callers[k]) {
      assert CallerOk(s, s.callers[k]);
    }
  }

  lemma DropKeeps(s: State, i: nat, woken: nat)
    requires Inv(s) && i < |s.tasks| && DropStep(s, i, woken).Some?
    ensures Inv(DropStep(s, i, woken).value) && Onward(s, DropStep(s, i, woken).value)
  {
    var t := DropStep(s, i, woken).value;
    forall k | 0 <= k < |t.tasks| ensures TaskOk(t, t.tasks[k]) {
      assert TaskOk(s, s.tasks[k]);
    }
    forall c | 0 <= c < |t.callers| ensures CallerOk(t, t.callers[c]) {
      assert CallerOk(s, s.callers[c]);
    }
  }

  lemma StartKeeps(s: State)
    requires Inv(s)
    ensures Inv(s.(tasks := s.tasks + [Check])) && Onward(s, s.(tasks := s.tasks + [Check]))
    ensures Inv(s.(callers := s.callers + [Store])) && Onward(s, s.(callers := s.callers + [Store]))
  {
    var t := s.(callers := s.callers + [Store]);
    if s.flag {
      var c :| 0 <= c < |s.callers| && s.callers[c] != Store;
      assert t.callers[c] != Store;
    }
  }

  lemma StepKeeps(p: Protocol, s: State, step: Step)
    requires p.recheck && p.wakeAll && Inv(s) && Apply(p, s, step).Some?
    ensures Inv(Apply(p, s, step).value) && Onward(s, Apply(p, s, step).value)
  {
    hide Inv, Onward, TaskStep, CancelStep, DropStep;
    match step
    case RunTask(i) => TaskKeeps(p, s, i);
    case RunCancel(c, woken) => CancelKeeps(p, s, c, woken);
    case DropTask(i, woken) => DropKeeps(s, i, woken);
    case StartTask => StartKeeps(s);
    case StartCancel => StartKeeps(s);
  }

  lemma OnwardTrans(s: State, t: State, u: State)
    requires Onward(s, t) && Onward(t, u)
    ensures Onward(s, u)
  {
  }

  lemma {:induction false} RunKeeps(p: Protocol, s: State, steps: seq<Step>)
    requires p.recheck && p.wakeAll && Inv(s) && Run(p, s, steps).Some?
    ensures Inv(Run(p, s, steps).value) && Onward(s, Run(p, s, steps).value)
    decreases |steps|
  {
    hide Inv, Onward, Apply;
    if steps == [] {
      OnwardSelf(s);
    } else {
      var t := Apply(p, s, steps[0]).value;
      StepKeeps(p, s, steps[0]);
      RunKeeps(p, t, steps[1..]);
      OnwardTrans(s, t, Run(p, s, steps).value);
    }
  }

  lemma OnwardSelf(s: State)
    ensures Onward(s, s)
  {
  }

  // ----- no wakeup is lost -----

  /** A finished `cancel` and a task still parked. */
  predicate LostWakeup(s: State) {
    (exists c :: 0 <= c < |s.callers| && s.callers[c] == Finished) && AnyParked(s.tasks)
  }

  ghost predicate Reachable(p: Protocol, s: State) {
    exists steps :: Run(p, INIT, steps) == Some(s)
  }

  lemma ReachableInv(p: Protocol, s: State)
    requires p.recheck && p.wakeAll && Reachable(p, s)
    ensures Inv(s)
  {
    var steps :| Run(p, INIT, steps) == Some(s);
    RunKeeps(p, INIT, steps);
  }

  lemma {:induction false} RunConcat(p: Protocol, s: State, x: seq<Step>, y: seq<Step>)
    requires Run(p, s, x).Some?
    ensures Run(p, s, x + y) == Run(p, Run(p, s, x).value, y)
    decreases |x|
  {
    hide Apply;
    if x == [] {
      assert x + y == y;
    } else {
      assert (x + y)[1..] == x[1..] + y;
      RunConcat(p, Apply(p, s, x[0]).value, x[1..], y);
    }
  }

  lemma RunOne(p: Protocol, s: State, steps: seq<Step>, t: State, step: Step, u: State)
    requires Run(p, s, steps) == Some(t) && Apply(p, t, step) == Some(u)
    ensures Run(p, s, steps + [step]) == Some(u)
  {
    hide Apply;
    RunConcat(p, s, steps, [step]);
    assert [step][1..] == [];
    assert Run(p, u, []) == Some(u);
  }

  lemma ReachOne(p: Protocol, s: State, step: Step, t: State)
    requires Reachable(p, s) && Apply(p, s, step).Some?
    requires var u := Apply(p, s, step).value; u.flag == t.flag && u.permit == t.permit && u.broadcasts == t.broadcasts
    requires Apply(p, s, step).value.tasks == t.tasks
    requires Apply(p, s, step).value.callers == t.callers
    ensures Reachable(p, t)
  {
    hide Run, Apply;
    var steps :| Run(p, INIT, steps) == Some(s);
    RunOne(p, INIT, steps, s, step, t);
  }

  lemma ReachInit(p: Protocol)
    ensures Reachable(p, INIT)
  {
    assert Run(p, INIT, []) == Some(INIT);
  }

  /** A task that finds everything quiet parks. */
  lemma ReachParked(p: Protocol, s: State, i: nat)
    requires Reachable(p, s) && !s.flag && !s.permit && i < |s.tasks| && s.tasks[i] == Check
    ensures Reachable(p, s.(tasks := s.tasks[i := Parked]))
  {
    hide Reachable;
    var a := s.(tasks := s.tasks[i := Create]);
    ReachOne(p, s, RunTask(i), a);
    var b := a.(tasks := a.tasks[i := Recheck(s.broadcasts)]);
    ReachOne(p, a, RunTask(i), b);
    var c := b.(tasks := b.tasks[i := Poll(s.broadcasts)]);
    ReachOne(p, b, RunTask(i), c);
    var d := c.(tasks := c.tasks[i := Parked]);
    ReachOne(p, c, RunTask(i), d);
    assert d.tasks == s.tasks[i := Parked];
  }

  /** Without the re-check, a waiter made after the broadcast parks although the flag is up. */
  lemma ReachSlipped(p: Protocol, s: State, i: nat)
    requires !p.recheck && Reachable(p, s) && !s.permit && i < |s.tasks| && s.tasks[i] == Create
    ensures Reachable(p, s.(tasks := s.tasks[i := Parked]))
  {
    hide Reachable;
    var b := s.(tasks := s.tasks[i := Recheck(s.broadcasts)]);
    ReachOne(p, s, RunTask(i), b);
    var c := b.(tasks := b.tasks[i := Poll(s.broadcasts)]);
    ReachOne(p, b, RunTask(i), c);
    var d := c.(tasks := c.tasks[i := Parked]);
    ReachOne(p, c, RunTask(i), d);
    assert d.tasks == s.tasks[i := Parked];
  }

  lemma ReachTwoTasks(p: Protocol)
    ensures Reachable(p, State(false, false, 0, [Check, Check], []))
  {
    hide Reachable;
    ReachInit(p);
    ReachOne(p, INIT, StartTask, State(false, false, 0, [Check], []));
    ReachOne(p, State(false, false, 0, [Check], []), StartTask, State(false, false, 0, [Check, Check], []));
  }

  /** The last statement of a cancel that finds two tasks parked leaves one of them so. */
  lemma LastWakeLoses(p: Protocol, s: State)
    requires Reachable(p, s) && s.tasks == [Parked, Parked] && s.callers == [WakeOne]
    ensures exists t :: Reachable(p, t) && LostWakeup(t)
  {
    hide Reachable;
    assert s.tasks[0] == Parked && s.tasks[1] == Parked;
    var t := if p.wakeOne then s.(tasks := [Woken(true), Parked], callers := [Finished]) else s.(callers := [Finished]);
    ReachOne(p, s, RunCancel(0, 0), t);
    assert t.tasks[1] == Parked && t.callers[0] == Finished;
  }

  lemma LosesWithoutBroadcast(p: Protocol)
    requires !p.wakeAll
    ensures exists t :: Reachable(p, t) && LostWakeup(t)
  {
    hide Reachable, LostWakeup;
    var a := State(false, false, 0, [Check, Check], []);
    ReachTwoTasks(p);
    ReachParked(p, a, 0);
    var b := a.(tasks := [Parked, Check]);
    assert a.tasks[0 := Parked] == b.tasks;
    ReachParked(p, b, 1);
    var c := a.(tasks := [Parked, Parked]);
    assert b.tasks[1 := Parked] == c.tasks;
    var d := c.(callers := [Store]);
    ReachOne(p, c, StartCancel, d);
    var e := d.(flag := true, callers := [WakeAll]);
    ReachOne(p, d, RunCancel(0, 0), e);
    var f := e.(callers := [WakeOne]);
    ReachOne(p, e, RunCancel(0, 0), f);
    LastWakeLoses(p, f);
  }

  /** Two tasks past their first check when a cancel raises the flag and broadcasts. */
  lemma ReachBroadcast(p: Protocol)
    requires p.wakeAll
    ensures Reachable(p, State(true, false, 1, [Create, Create], [WakeOne]))
  {
    hide Reachable;
    var a := State(false, false, 0, [Check, Check], []);
    ReachTwoTasks(p);
    var b := a.(tasks := [Create, Check]);
    ReachOne(p, a, RunTask(0), b);
    var c := a.(tasks := [Create, Create]);
    ReachOne(p, b, RunTask(1), c);
    var d := c.(callers := [Store]);
    ReachOne(p, c, StartCancel, d);
    var e := d.(flag := true, callers := [WakeAll]);
    ReachOne(p, d, RunCancel(0, 0), e);
    var f := e.(broadcasts := 1, callers := [WakeOne]);
    assert WakeEvery(e.tasks) == e.tasks;
    ReachOne(p, e, RunCancel(0, 0), f);
  }

  lemma LosesWithoutRecheck(p: Protocol)
    requires p.wakeAll && !p.recheck
    ensures exists t :: Reachable(p, t) && LostWakeup(t)
  {
    hide Reachable, LostWakeup;
    ReachBroadcast(p);
    var a := State(true, false, 1, [Create, Create], [WakeOne]);
    ReachSlipped(p, a, 0);
    var b := a.(tasks := [Parked, Create]);
    assert a.tasks[0 := Parked] == b.tasks;
    ReachSlipped(p, b, 1);
    var c := a.(tasks := [Parked, Parked]);
    assert b.tasks[1 := Parked] == c.tasks;
    LastWakeLoses(p, c);
  }

  /**
   * No run loses a wakeup exactly when the re-check and the broadcast are both there. The
   * single notification that `cancel` adds changes nothing.
   */
  lemma NoLostWakeup(p: Protocol)
    ensures (forall s :: Reachable(p, s) ==> !LostWakeup(s)) <==> p.recheck && p.wakeAll
  {
    hide Reachable, LostWakeup;
    if !p.wakeAll {
      LosesWithoutBroadcast(p);
    } else if !p.recheck {
      LosesWithoutRecheck(p);
    } else {
      forall s | Reachable(p, s) ensures !LostWakeup(s) {
        ReachableInv(p, s);
        InvKeepsWakeups(s);
      }
    }
  }

  lemma InvKeepsWakeups(s: State)
    requires Inv(s)
    ensures !LostWakeup(s)
  {
    if c :| 0 <= c < |s.callers| && s.callers[c] == Finished {
      assert CallerOk(s, s.callers[c]);
      forall i | 0 <= i < |s.tasks| ensures s.tasks[i] != Parked {
        assert TaskOk(s, s.tasks[i]);
      }
    }
  }

  /** `cancelled` returns only after some `cancel` has raised the flag. */
  lemma ReturnsOnlyWhenCancelled(s: State, i: nat)
    requires Reachable(SOURCE, s) && i < |s.tasks| && s.tasks[i] == Returned
    ensures s.flag && exists c :: 0 <= c < |s.callers| && s.callers[c] != Store
  {
    ReachableInv(SOURCE, s);
    assert TaskOk(s, s.tasks[i]);
  }

  // ----- every task gets out -----

  /** Once a cancel has finished: how many of its own steps a task may still take. */
  function StepsLeft(t: Task): nat {
    match t
    case Check => 1
    case Create => 2
    case Recheck(_) => 1
    case Poll(_) => 3
    case Woken(_) => 2
    case Parked => 3
    case Returned => 0
    case Dropped => 0
  }

  function MovesOf(steps: seq<Step>, i: nat): nat {
    if steps == [] then 0 else (if steps[0] == RunTask(i) then 1 else 0) + MovesOf(steps[1..], i)
  }

  predicate Cancelled(s: State) {
    exists c :: 0 <= c < |s.callers| && s.callers[c] == Finished
  }

  lemma CancelledNow(s: State)
    requires Inv(s) && Cancelled(s)
    ensures s.flag && s.broadcasts > 0
  {
    var c :| 0 <= c < |s.callers| && s.callers[c] == Finished;
    assert CallerOk(s, s.callers[c]);
  }

  lemma CancelledStays(s: State, t: State)
    requires Cancelled(s) && Onward(s, t)
    ensures Cancelled(t)
  {
    var c :| 0 <= c < |s.callers| && s.callers[c] == Finished;
    assert t.callers[c] == Finished;
  }

  lemma OwnStepCounts(s: State, i: nat)
    requires Inv(s) && s.flag && s.broadcasts > 0 && i < |s.tasks|
    ensures StepsLeft(s.tasks[i]) > 0 ==> TaskStep(SOURCE, s, i).Some?
    ensures TaskStep(SOURCE, s, i).Some? ==> StepsLeft(TaskStep(SOURCE, s, i).value.tasks[i]) < StepsLeft(s.tasks[i])
  {
    assert TaskOk(s, s.tasks[i]);
  }

  lemma OtherStepKeeps(s: State, step: Step, i: nat)
    requires Inv(s) && s.broadcasts > 0 && i < |s.tasks| && Apply(SOURCE, s, step).Some? && step != RunTask(i)
    ensures i < |Apply(SOURCE, s, step).value.tasks|
    ensures StepsLeft(Apply(SOURCE, s, step).value.tasks[i]) <= StepsLeft(s.tasks[i])
  {
    assert TaskOk(s, s.tasks[i]);
  }

  /** After a finished cancel no task is ever stuck, and each gets out within three steps of its own. */
  lemma {:induction false} EveryTaskGetsOut(s: State, steps: seq<Step>, i: nat)
    requires Inv(s) && Cancelled(s) && i < |s.tasks| && Run(SOURCE, s, steps).Some?
    ensures var t := Run(SOURCE, s, steps).value;
            && i < |t.tasks| && StepsLeft(t.tasks[i]) + MovesOf(steps, i) <= StepsLeft(s.tasks[i]) <= 3
            && (StepsLeft(t.tasks[i]) > 0 ==> Apply(SOURCE, t, RunTask(i)).Some?)
    decreases |steps|
  {
    hide Inv, Onward, Apply, Cancelled;
    CancelledNow(s);
    if steps == [] {
      OwnMove(s, i);
    } else {
      var t := Apply(SOURCE, s, steps[0]).value;
      StepKeeps(SOURCE, s, steps[0]);
      CancelledStays(s, t);
      if steps[0] == RunTask(i) {
        OwnMove(s, i);
      } else {
        OtherStepKeeps(s, steps[0], i);
      }
      EveryTaskGetsOut(t, steps[1..], i);
    }
  }

  lemma OwnMove(s: State, i: nat)
    requires Inv(s) && s.flag && s.broadcasts > 0 && i < |s.tasks|
    ensures StepsLeft(s.tasks[i]) > 0 ==> Apply(SOURCE, s, RunTask(i)).Some?
    ensures Apply(SOURCE, s, RunTask(i)).Some? ==>
              var t := Apply(SOURCE, s, RunTask(i)).value;
              |t.tasks| == |s.tasks| && StepsLeft(t.tasks[i]) < StepsLeft(s.tasks[i])
  {
    hide Inv, StepsLeft;
    OwnStepCounts(s, i);
  }

  /** In every run: once some cancel has finished, every task that keeps being run returns within three steps. */
  lemma CancelReleasesTasks(s: State, steps: seq<Step>, i: nat)
    requires Reachable(SOURCE, s) && Cancelled(s) && i < |s.tasks| && Run(SOURCE, s, steps).Some?
    ensures MovesOf(steps, i) <= 3
    ensures var t := Run(SOURCE, s, steps).value;
            i < |t.tasks| && (t.tasks[i] == Returned || t.tasks[i] == Dropped || Apply(SOURCE, t, RunTask(i)).Some?)
  {
    hide Reachable, Inv, Cancelled, Apply, Run, MovesOf;
    ReachableInv(SOURCE, s);
    EveryTaskGetsOut(s, steps, i);
  }
}
