/**
 * The agent turn loop of crates/red-acp/src/conversation.rs (`run_turns`), interleaved
 * with the client's command channel, the agent's responses and the notification handler
 * that writes the shared sink and usage cells.
 */
module TurnLoop {
  import opened Wrappers

  /** A command; the id stands for its reply sender and, for a prompt, its sink. */
  datatype Cmd = Prompt(id: nat) | SetConfig(id: nat) | Cancel

  datatype Reply = Busy | ConfigDone | TurnDone(usage: int) | Failed

  /** What happened, in order. */
  datatype Event =
    | Took(id: nat) // a Prompt or SetConfig came off the channel
    | Answered(id: nat, reply: Reply)
    | Sent(id: nat) // a PromptRequest went out
    | Ended(id: nat) // its response was consumed
    | GotCancel(id: nat) // a Cancel came off the channel during turn `id`
    | GotClosed(id: nat) // the channel was found closed during turn `id`
    | Notified(id: nat) // a CancelNotification went out during turn `id`
    | Delta(id: nat, content: int) // the handler wrote to the sink of `id`
    | Zeroed(id: nat) // the usage cell was reset for turn `id`
    | Metered(usage: int) // the handler wrote the usage cell
    | Said(ok: bool) // the agent answered the outstanding request

  datatype Pc =
    | Recv // at the head of the outer loop
    | Config(id: nat) // awaiting the reply to a config request
    | Install(id: nat) // about to install the sink
    | Reset(id: nat) // about to reset the usage cell
    | Send(id: nat) // about to send the prompt
    | Await(id: nat, closed: bool) // in the inner select loop
    | Clear(id: nat, ok: bool) // about to take the sink away
    | Read(id: nat, ok: bool) // about to read the usage cell
    | Finish(id: nat, ok: bool, usage: int) // about to answer
    | Done

  datatype Request = Idle | Waiting | Responded(ok: bool)

  datatype State = State(
    queue: seq<Cmd>, open: bool, nextId: nat, pc: Pc, request: Request, sink: Option<nat>, usage: int, log: seq<Event>)

  const INIT := State([], true, 0, Recv, Idle, None, 0, [])

  datatype Step =
    | Push(cmd: Cmd) // the client sends; a request carries a fresh id
    | Close // the last sender goes away
    | Respond(ok: bool) // the agent answers the outstanding request
    | Stream(content: int) // the handler sees a streamed update
    | Usage(usage: int) // the handler sees a usage update
    | Advance(control: bool) // the loop runs; `control` is the select arm taken when both are ready

  // ----- steps -----

  function Note(s: State, e: Event): State {
    s.(log := s.log + [e])
  }

  function Pop(s: State): State
    requires s.queue != []
  {
    s.(queue := s.queue[1..])
  }

  function RecvStep(s: State): Option<State> {
    if s.queue == [] then (if s.open then None else Some(s.(pc := Done)))
    else
      match s.queue[0]
      case Cancel => Some(Pop(s))
      case Prompt(id) => Some(Note(Pop(s), Took(id)).(pc := Install(id)))
      case SetConfig(id) => Some(Note(Pop(s), Took(id)).(pc := Config(id), request := Waiting))
  }

  /** The control arm of the select: a command, or the closed channel. */
  function ControlStep(s: State, id: nat): Option<State> {
    if s.queue == [] then
      if s.open then None
      else Some(Note(Note(s, GotClosed(id)), Notified(id)).(pc := Await(id, true)))
    else
      match s.queue[0]
      case Cancel => Some(Note(Note(Pop(s), GotCancel(id)), Notified(id)))
      case Prompt(other) => Some(Note(Note(Pop(s), Took(other)), Answered(other, Busy)))
      case SetConfig(other) => Some(Note(Note(Pop(s), Took(other)), Answered(other, Busy)))
  }

  predicate ControlReady(s: State, closed: bool) {
    !closed && (s.queue != [] || !s.open)
  }

  function AwaitStep(s: State, id: nat, closed: bool, control: bool): Option<State> {
    if s.request.Responded? && !(control && ControlReady(s, closed)) then
      Some(Note(s, Ended(id)).(request := Idle, pc := Clear(id, s.request.ok)))
    else if ControlReady(s, closed) then ControlStep(s, id)
    else None
  }

  /** One step of `run_turns`. */
  function LoopStep(s: State, control: bool): Option<State> {
    match s.pc
    case Recv => RecvStep(s)
    case Config(id) =>
      if s.request.Responded? then
        Some(Note(s, Answered(id, if s.request.ok then ConfigDone else Failed)).(request := Idle, pc := Recv))
      else None
    case Install(id) => Some(s.(sink := Some(id), pc := Reset(id)))
    case Reset(id) => Some(Note(s, Zeroed(id)).(usage := 0, pc := Send(id)))
    case Send(id) => Some(Note(s, Sent(id)).(request := Waiting, pc := Await(id, false)))
    case Await(id, closed) => AwaitStep(s, id, closed, control)
    case Clear(id, ok) => Some(s.(sink := None, pc := Read(id, ok)))
    case Read(id, ok) => Some(s.(pc := Finish(id, ok, s.usage)))
    case Finish(id, ok, usage) => Some(Note(s, Answered(id, if ok then TurnDone(usage) else Failed)).(pc := Recv))
    case Done => None
  }

  function PushStep(s: State, cmd: Cmd): Option<State> {
    if !s.open then None
    else if cmd == Cancel then Some(s.(queue := s.queue + [cmd]))
    else if cmd.id == s.nextId then Some(s.(queue := s.queue + [cmd], nextId := s.nextId + 1))
    else None
  }

  function Apply(s: State, step: Step): Option<State> {
    match step
    case Push(cmd) => PushStep(s, cmd)
    case Close => Some(s.(open := false))
    case Respond(ok) => if s.request == Waiting then Some(Note(s, Said(ok)).(request := Responded(ok))) else None
    case Stream(content) => Some(if s.sink.Some? then Note(s, Delta(s.sink.value, content)) else s)
    case Usage(usage) => Some(Note(s, Metered(usage)).(usage := usage))
    case Advance(control) => LoopStep(s, control)
  }

  function Run(s: State, steps: seq<Step>): Option<State>
    decreases |steps|
  {
    if steps == [] then Some(s)
    else
      match Apply(s, steps[0])
      case Some(t) => Run(t, steps[1..])
      case None => None
  }

  // ----- counting -----

  datatype What = Takes | Answers | Sends | Ends | Cancels | Closes | Notices

  function Amount(e: Event, w: What, id: nat): nat {
    if Kind(e) == Some(w) && e.id == id then 1 else 0
  }

  function Kind(e: Event): Option<What> {
    match e
    case Took(_) => Some(Takes)
    case Answered(_, _) => Some(Answers)
    case Sent(_) => Some(Sends)
    case Ended(_) => Some(Ends)
    case GotCancel(_) => Some(Cancels)
    case GotClosed(_) => Some(Closes)
    case Notified(_) => Some(Notices)
    case _ => None
  }

  /** How often `w` happened for `id`. */
  function Count(log: seq<Event>, w: What, id: nat): nat {
    if log == [] then 0 else Count(log[..|log| - 1], w, id) + Amount(log[|log| - 1], w, id)
  }

  lemma CountNote(s: State, e: Event, w: What, id: nat)
    ensures Count(Note(s, e).log, w, id) == Count(s.log, w, id) + Amount(e, w, id)
  {
    hide Amount;
    assert (s.log + [e])[..|s.log|] == s.log;
  }

  function AmountQueued(cmd: Cmd, id: nat): nat {
    if cmd == Prompt(id) || cmd == SetConfig(id) then 1 else 0
  }

  function Queued(queue: seq<Cmd>, id: nat): nat {
    if queue == [] then 0 else AmountQueued(queue[0], id) + Queued(queue[1..], id)
  }

  lemma {:induction false} QueuedSnoc(queue: seq<Cmd>, cmd: Cmd, id: nat)
    ensures Queued(queue + [cmd], id) == Queued(queue, id) + AmountQueued(cmd, id)
    decreases |queue|
  {
    hide AmountQueued;
    var q := queue + [cmd];
    if queue == [] {
      assert q[1..] == [];
      assert Queued([], id) == 0;
    } else {
      assert q[1..] == queue[1..] + [cmd];
      QueuedSnoc(queue[1..], cmd, id);
    }
  }

  // ----- the invariant -----

  /** The request the loop is working on. */
  function Pending(pc: Pc): Option<nat> {
    match pc
    case Recv => None
    case Done => None
    case Config(id) => Some(id)
    case Install(id) => Some(id)
    case Reset(id) => Some(id)
    case Send(id) => Some(id)
    case Await(id, _) => Some(id)
    case Clear(id, _) => Some(id)
    case Read(id, _) => Some(id)
    case Finish(id, _, _) => Some(id)
  }

  function One(b: bool): nat {
    if b then 1 else 0
  }

  /** The turn whose sink is in place. */
  function SinkTurn(pc: Pc): Option<nat> {
    if pc.Reset? || pc.Send? || pc.Await? || pc.Clear? then Some(pc.id) else None
  }

  predicate Shape(s: State) {
    && s.sink == SinkTurn(s.pc)
    && (s.request == Idle <==> !(s.pc.Config? || s.pc.Await?))
    && (s.pc == Done ==> !s.open && s.queue == [])
    && (s.pc.Await? && s.pc.closed ==> !s.open && s.queue == [])
  }

  /** Everything the log says about one request. */
  predicate IdOk(s: State, id: nat) {
    && Count(s.log, Takes, id) == Count(s.log, Answers, id) + One(Pending(s.pc) == Some(id))
    && Count(s.log, Takes, id) + Queued(s.queue, id) <= One(id < s.nextId)
    && Count(s.log, Sends, id) == Count(s.log, Ends, id) + One(s.pc.Await? && s.pc.id == id)
    && Count(s.log, Notices, id) == Count(s.log, Cancels, id) + Count(s.log, Closes, id)
  }

  /** How often the channel was found closed, over all turns. */
  function AllCloses(log: seq<Event>): nat {
    if log == [] then 0 else AllCloses(log[..|log| - 1]) + One(log[|log| - 1].GotClosed?)
  }

  lemma ClosesNote(s: State, e: Event)
    ensures AllCloses(Note(s, e).log) == AllCloses(s.log) + One(e.GotClosed?)
  {
    assert (s.log + [e])[..|s.log|] == s.log;
  }

  predicate ClosedOnce(s: State) {
    && AllCloses(s.log) <= 1
    && (AllCloses(s.log) == 1 ==> !s.open && s.queue == [] && !(s.pc.Await? && !s.pc.closed))
    && (AllCloses(s.log) == 1 ==> !(s.pc.Config? || s.pc.Install? || s.pc.Reset? || s.pc.Send?))
  }

  /** Streamed content reaches a sink only between its request's taking and its answer. */
  predicate DeltasOk(log: seq<Event>) {
    forall k :: 0 <= k < |log| && log[k].Delta? ==>
      Count(log[..k], Takes, log[k].id) == 1 && Count(log[..k], Answers, log[k].id) == 0
  }

  ghost predicate Inv(s: State) {
    Shape(s) && ClosedOnce(s) && DeltasOk(s.log) && forall id: nat :: IdOk(s, id)
  }

  // ----- every step keeps it -----

  lemma NoteCounts(s: State, e: Event, id: nat)
    ensures forall w :: Count(Note(s, e).log, w, id) == Count(s.log, w, id) + Amount(e, w, id)
  {
    hide Count, Note, Amount;
    forall w ensures Count(Note(s, e).log, w, id) == Count(s.log, w, id) + Amount(e, w, id) {
      CountNote(s, e, w, id);
    }
  }

  lemma RecvIdKeeps(s: State, id: nat)
    requires s.pc == Recv && IdOk(s, id) && RecvStep(s).Some?
    ensures IdOk(RecvStep(s).value, id)
  {
    hide Count;
    if s.queue != [] && s.queue[0] != Cancel {
      NoteCounts(Pop(s), Took(s.queue[0].id), id);
    }
  }

  lemma ControlIdKeeps(s: State, turn: nat, id: nat)
    requires s.pc.Await? && s.pc.id == turn && IdOk(s, id) && ControlStep(s, turn).Some?
    ensures IdOk(ControlStep(s, turn).value, id)
  {
    hide Count;
    if s.queue == [] {
      NoteCounts(s, GotClosed(turn), id);
      NoteCounts(Note(s, GotClosed(turn)), Notified(turn), id);
    } else if s.queue[0] == Cancel {
      NoteCounts(Pop(s), GotCancel(turn), id);
      NoteCounts(Note(Pop(s), GotCancel(turn)), Notified(turn), id);
    } else {
      var other := s.queue[0].id;
      NoteCounts(Pop(s), Took(other), id);
      NoteCounts(Note(Pop(s), Took(other)), Answered(other, Busy), id);
    }
  }

  lemma AwaitIdKeeps(s: State, control: bool, id: nat)
    requires s.pc.Await? && IdOk(s, id) && LoopStep(s, control).Some?
    ensures IdOk(LoopStep(s, control).value, id)
  {
    hide Count, ControlStep, Queued;
    if s.request.Responded? && !(control && ControlReady(s, s.pc.closed)) {
      NoteCounts(s, Ended(s.pc.id), id);
    } else {
      ControlIdKeeps(s, s.pc.id, id);
    }
  }

  lemma AnswerIdKeeps(s: State, control: bool, id: nat)
    requires (s.pc.Config? || s.pc.Finish?) && IdOk(s, id) && LoopStep(s, control).Some?
    ensures IdOk(LoopStep(s, control).value, id)
  {
    hide Count, Queued;
    match s.pc
    case Config(x) => NoteCounts(s, Answered(x, if s.request.ok then ConfigDone else Failed), id);
    case Finish(x, ok, usage) => NoteCounts(s, Answered(x, if ok then TurnDone(usage) else Failed), id);
  }

  lemma LoopIdKeeps(s: State, control: bool, id: nat)
    requires IdOk(s, id) && LoopStep(s, control).Some?
    ensures IdOk(LoopStep(s, control).value, id)
  {
    hide Count, RecvStep, AwaitStep, Queued;
    match s.pc
    case Recv => RecvIdKeeps(s, id);
    case Reset(x) => NoteCounts(s, Zeroed(x), id);
    case Send(x) => NoteCounts(s, Sent(x), id);
    case Await(_, _) => AwaitIdKeeps(s, control, id);
    case Config(_) => AnswerIdKeeps(s, control, id);
    case Finish(_, _, _) => AnswerIdKeeps(s, control, id);
    case _ =>
  }

  lemma StepIdKeeps(s: State, step: Step, id: nat)
    requires IdOk(s, id) && Apply(s, step).Some?
    ensures IdOk(Apply(s, step).value, id)
  {
    hide Count, LoopStep, Queued;
    match step
    case Push(cmd) => QueuedSnoc(s.queue, cmd, id);
    case Stream(content) =>
      if s.sink.Some? {
        NoteCounts(s, Delta(s.sink.value, content), id);
      }
    case Usage(usage) => NoteCounts(s, Metered(usage), id);
    case Respond(ok) => NoteCounts(s, Said(ok), id);
    case Advance(control) => LoopIdKeeps(s, control, id);
    case _ =>
  }

  lemma StepShapeKeeps(s: State, step: Step)
    requires Shape(s) && Apply(s, step).Some?
    ensures Shape(Apply(s, step).value)
  {
  }

  lemma LoopClosedKeeps(s: State, control: bool)
    requires Shape(s) && ClosedOnce(s) && LoopStep(s, control).Some?
    ensures ClosedOnce(LoopStep(s, control).value)
  {
    hide AllCloses;
    forall t: State, e: Event ensures AllCloses(Note(t, e).log) == AllCloses(t.log) + One(e.GotClosed?) {
      ClosesNote(t, e);
    }
  }

  lemma StepClosedKeeps(s: State, step: Step)
    requires Shape(s) && ClosedOnce(s) && Apply(s, step).Some?
    ensures ClosedOnce(Apply(s, step).value)
  {
    hide AllCloses, LoopStep;
    match step
    case Advance(control) => LoopClosedKeeps(s, control);
    case Stream(content) =>
      if s.sink.Some? {
        ClosesNote(s, Delta(s.sink.value, content));
      }
    case Usage(usage) => ClosesNote(s, Metered(usage));
    case Respond(ok) => ClosesNote(s, Said(ok));
    case _ =>
  }

  lemma DeltasNote(s: State, e: Event)
    requires DeltasOk(s.log)
    requires e.Delta? ==> Count(s.log, Takes, e.id) == 1 && Count(s.log, Answers, e.id) == 0
    ensures DeltasOk(Note(s, e).log)
  {
    hide Count;
    var log := Note(s, e).log;
    forall k | 0 <= k < |log| && log[k].Delta?
      ensures Count(log[..k], Takes, log[k].id) == 1 && Count(log[..k], Answers, log[k].id) == 0
    {
      assert log[..k] == s.log[..k];
      assert s.log[..|s.log|] == s.log;
    }
  }

  lemma LoopDeltasKeep(s: State, control: bool)
    requires DeltasOk(s.log) && LoopStep(s, control).Some?
    ensures DeltasOk(LoopStep(s, control).value.log)
  {
    hide DeltasOk;
    forall t: State, e: Event | DeltasOk(t.log) && !e.Delta? ensures DeltasOk(Note(t, e).log) {
      DeltasNote(t, e);
    }
  }

  lemma StepDeltasKeep(s: State, step: Step)
    requires Inv(s) && Apply(s, step).Some?
    ensures DeltasOk(Apply(s, step).value.log)
  {
    hide DeltasOk, LoopStep, Count;
    match step
    case Advance(control) => LoopDeltasKeep(s, control);
    case Stream(content) =>
      if s.sink.Some? {
        assert IdOk(s, s.sink.value);
        DeltasNote(s, Delta(s.sink.value, content));
      }
    case Usage(usage) => DeltasNote(s, Metered(usage));
    case Respond(ok) => DeltasNote(s, Said(ok));
    case _ =>
  }

  lemma StepKeeps(s: State, step: Step)
    requires Inv(s) && Apply(s, step).Some?
    ensures Inv(Apply(s, step).value)
  {
    hide Apply, IdOk, Shape, ClosedOnce, DeltasOk;
    var t := Apply(s, step).value;
    StepShapeKeeps(s, step);
    StepClosedKeeps(s, step);
    StepDeltasKeep(s, step);
    forall id: nat ensures IdOk(t, id) {
      StepIdKeeps(s, step, id);
    }
  }

  lemma {:induction false} RunKeeps(s: State, steps: seq<Step>)
    requires Inv(s) && Run(s, steps).Some?
    ensures Inv(Run(s, steps).value)
    decreases |steps|
  {
    hide Inv, Apply;
    if steps != [] {
      StepKeeps(s, steps[0]);
      RunKeeps(Apply(s, steps[0]).value, steps[1..]);
    }
  }

  lemma RunInv(steps: seq<Step>)
    requires Run(INIT, steps).Some?
    ensures Inv(Run(INIT, steps).value)
  {
    RunKeeps(INIT, steps);
  }

  // ----- what holds in every run -----

  /** Every request taken off the channel is answered exactly once; only the one in hand is still owed. */
  lemma AnsweredExactlyOnce(steps: seq<Step>, id: nat)
    requires Run(INIT, steps).Some?
    ensures var s := Run(INIT, steps).value;
            && Count(s.log, Takes, id) <= 1
            && Count(s.log, Answers, id) == Count(s.log, Takes, id) - One(Pending(s.pc) == Some(id))
            && (Pending(s.pc) == Some(id) ==> Count(s.log, Takes, id) == 1)
  {
    hide Run, Count, Shape, ClosedOnce, DeltasOk;
    RunInv(steps);
    assert IdOk(Run(INIT, steps).value, id);
  }

  /** At most one turn is in flight: the one being awaited, sent once and not yet ended. */
  lemma OneTurnAtATime(steps: seq<Step>, id: nat)
    requires Run(INIT, steps).Some?
    ensures var s := Run(INIT, steps).value;
            && Count(s.log, Sends, id) - Count(s.log, Ends, id) == One(s.pc.Await? && s.pc.id == id)
            && (s.request != Idle <==> s.pc.Await? || s.pc.Config?)
  {
    hide Run, Count, ClosedOnce, DeltasOk;
    RunInv(steps);
    assert IdOk(Run(INIT, steps).value, id);
  }

  /** A sink is in place only during its own turn, and content reaches it only before its turn is answered. */
  lemma SinkOfItsOwnTurn(steps: seq<Step>)
    requires Run(INIT, steps).Some?
    ensures var s := Run(INIT, steps).value; (s.sink.Some? ==> s.sink == Pending(s.pc)) && DeltasOk(s.log)
  {
    hide Run, Count, ClosedOnce, DeltasOk, IdOk;
    RunInv(steps);
  }

  lemma {:induction false} ClosesWithin(log: seq<Event>, id: nat)
    ensures Count(log, Closes, id) <= AllCloses(log)
    decreases |log|
  {
    if log != [] {
      ClosesWithin(log[..|log| - 1], id);
    }
  }

  /** A turn sends one notification per Cancel it received and at most one more, for the closed channel. */
  lemma NotificationsBounded(steps: seq<Step>, id: nat)
    requires Run(INIT, steps).Some?
    ensures var s := Run(INIT, steps).value;
            Count(s.log, Cancels, id) <= Count(s.log, Notices, id) <= Count(s.log, Cancels, id) + 1
  {
    hide Run, Count, AllCloses, DeltasOk, Shape;
    RunInv(steps);
    var s := Run(INIT, steps).value;
    assert IdOk(s, id);
    ClosesWithin(s.log, id);
  }

  // ----- a closed channel winds the loop down -----

  /** Bounds the loop's own steps once the channel is closed. */
  function Rank(s: State): nat {
    10 * |s.queue| +
    match s.pc
    case Done => 0
    case Recv => 1
    case Finish(_, _, _) => 2
    case Read(_, _) => 3
    case Clear(_, _) => 4
    case Await(_, closed) => if closed then 5 else 6
    case Send(_) => 7
    case Reset(_) => 8
    case Install(_) => 9
    case Config(_) => 2
  }

  function Advances(steps: seq<Step>): nat {
    if steps == [] then 0 else One(steps[0].Advance?) + Advances(steps[1..])
  }

  lemma ClosedStep(s: State, step: Step)
    requires !s.open && Apply(s, step).Some?
    ensures var t := Apply(s, step).value;
            !t.open && Rank(t) + One(step.Advance?) <= Rank(s)
  {
  }

  /** No spin: after the channel closes the loop takes boundedly many steps, whatever the agent does. */
  lemma {:induction false} NoSpin(s: State, steps: seq<Step>)
    requires !s.open && Run(s, steps).Some?
    ensures Advances(steps) + Rank(Run(s, steps).value) <= Rank(s)
    decreases |steps|
  {
    hide Apply, Rank;
    if steps != [] {
      ClosedStep(s, steps[0]);
      NoSpin(Apply(s, steps[0]).value, steps[1..]);
    }
  }

  /** With the channel closed, the loop is held up only by an outstanding response. */
  lemma OnlyTheAgentBlocks(steps: seq<Step>, control: bool)
    requires Run(INIT, steps).Some? && !Run(INIT, steps).value.open
    ensures var s := Run(INIT, steps).value; LoopStep(s, control).None? ==> s.pc == Done || s.request == Waiting
  {
    hide Run, Count, ClosedOnce, DeltasOk, IdOk;
    RunInv(steps);
  }

  // ----- what the answers say -----

  /** The usage cell as the log tells it: the last update since the last reset, or 0. */
  function LastMeter(log: seq<Event>): int {
    if log == [] then 0
    else
      match log[|log| - 1]
      case Metered(usage) => usage
      case Zeroed(_) => 0
      case _ => LastMeter(log[..|log| - 1])
  }

  /** The agent's last answer. */
  function LastSaid(log: seq<Event>): Option<bool> {
    if log == [] then None
    else
      match log[|log| - 1]
      case Said(ok) => Some(ok)
      case _ => LastSaid(log[..|log| - 1])
  }

  /** The usage read after the turn's response was consumed. */
  ghost predicate UsageOf(log: seq<Event>, id: nat, usage: int) {
    exists r :: 0 <= r <= |log| && Ended(id) in log[..r] && usage == LastMeter(log[..r])
  }

  /** What an answer to `id` may be, after these events. */
  ghost predicate ReplyOk(log: seq<Event>, id: nat, reply: Reply) {
    match reply
    case Busy => log != [] && log[|log| - 1] == Took(id)
    case ConfigDone => LastSaid(log) == Some(true) && Sent(id) !in log
    case TurnDone(usage) => LastSaid(log) == Some(true) && UsageOf(log, id, usage)
    case Failed => LastSaid(log) == Some(false)
  }

  ghost predicate RepliesOk(log: seq<Event>) {
    forall k :: 0 <= k < |log| && log[k].Answered? ==> ReplyOk(log[..k], log[k].id, log[k].reply)
  }

  /** What the loop holds is what the log tells. */
  ghost predicate Told(s: State) {
    && s.usage == LastMeter(s.log)
    && (s.request.Responded? ==> LastSaid(s.log) == Some(s.request.ok))
    && (s.pc.Clear? || s.pc.Read? || s.pc.Finish? ==> LastSaid(s.log) == Some(s.pc.ok) && Ended(s.pc.id) in s.log)
    && (s.pc.Finish? ==> UsageOf(s.log, s.pc.id, s.pc.usage))
    && (s.pc.Config? ==> Sent(s.pc.id) !in s.log)
  }

  /** Only what was taken is sent. */
  ghost predicate SentTaken(log: seq<Event>) {
    forall id: nat :: Sent(id) in log ==> Count(log, Takes, id) > 0
  }

  lemma LastNote(s: State, e: Event)
    ensures LastMeter(Note(s, e).log) == match e case Metered(usage) => usage case Zeroed(_) => 0 case _ => LastMeter(s.log)
    ensures LastSaid(Note(s, e).log) == match e case Said(ok) => Some(ok) case _ => LastSaid(s.log)
  {
    assert (s.log + [e])[..|s.log|] == s.log;
  }

  lemma UsageStays(s: State, e: Event, id: nat, usage: int)
    requires UsageOf(s.log, id, usage)
    ensures UsageOf(Note(s, e).log, id, usage)
  {
    var r :| 0 <= r <= |s.log| && Ended(id) in s.log[..r] && usage == LastMeter(s.log[..r]);
    assert (s.log + [e])[..r] == s.log[..r];
  }

  lemma UsageNow(log: seq<Event>, id: nat)
    requires Ended(id) in log
    ensures UsageOf(log, id, LastMeter(log))
  {
    assert log[..|log|] == log;
  }

  lemma RepliesNote(s: State, e: Event)
    requires RepliesOk(s.log) && (e.Answered? ==> ReplyOk(s.log, e.id, e.reply))
    ensures RepliesOk(Note(s, e).log)
  {
    hide ReplyOk;
    var log := Note(s, e).log;
    forall k | 0 <= k < |log| && log[k].Answered? ensures ReplyOk(log[..k], log[k].id, log[k].reply) {
      assert log[..k] == s.log[..k];
      assert s.log[..|s.log|] == s.log;
    }
  }

  lemma SentNote(s: State, e: Event)
    requires SentTaken(s.log) && (e.Sent? ==> Count(s.log, Takes, e.id) > 0)
    ensures SentTaken(Note(s, e).log)
  {
    hide Count;
    forall id: nat | Sent(id) in Note(s, e).log ensures Count(Note(s, e).log, Takes, id) > 0 {
      CountNote(s, e, Takes, id);
    }
  }

  /** All that is kept about answers. */
  ghost predicate Talk(s: State) {
    Told(s) && RepliesOk(s.log) && SentTaken(s.log)
  }

  /** An event that is no answer and no prompt, with the cells it stands for. */
  lemma NoteTalks(s: State, e: Event)
    requires Talk(s) && !e.Answered? && !e.Sent? && !e.Said? && !e.Metered? && !e.Zeroed?
    ensures Talk(Note(s, e))
  {
    hide RepliesOk, SentTaken, LastMeter, LastSaid, UsageOf;
    LastNote(s, e);
    RepliesNote(s, e);
    SentNote(s, e);
    if s.pc.Finish? {
      UsageStays(s, e, s.pc.id, s.pc.usage);
    }
  }

  lemma AnswerTalks(s: State, id: nat, reply: Reply)
    requires Talk(s) && ReplyOk(s.log, id, reply)
    ensures Talk(Note(s, Answered(id, reply)))
  {
    hide RepliesOk, SentTaken, LastMeter, LastSaid, UsageOf, ReplyOk;
    var e := Answered(id, reply);
    LastNote(s, e);
    RepliesNote(s, e);
    SentNote(s, e);
    if s.pc.Finish? {
      UsageStays(s, e, s.pc.id, s.pc.usage);
    }
  }

  lemma RecvTalks(s: State)
    requires Talk(s) && s.pc == Recv && (forall id: nat :: IdOk(s, id)) && RecvStep(s).Some?
    ensures Talk(RecvStep(s).value)
  {
    hide RepliesOk, LastMeter, LastSaid, UsageOf, Count;
    if s.queue != [] && s.queue[0] != Cancel {
      var id := s.queue[0].id;
      assert IdOk(s, id);
      NoteTalks(Pop(s), Took(id));
      assert Queued(s.queue, id) >= 1;
      NeverSent(s, id);
    }
  }

  lemma NeverSent(s: State, id: nat)
    requires SentTaken(s.log) && Count(s.log, Takes, id) == 0
    ensures Sent(id) !in s.log
  {
  }

  lemma ControlTalks(s: State, turn: nat)
    requires Talk(s) && s.pc.Await? && s.pc.id == turn && ControlStep(s, turn).Some?
    ensures Talk(ControlStep(s, turn).value)
  {
    hide RepliesOk, SentTaken, LastMeter, LastSaid, UsageOf;
    if s.queue == [] {
      NoteTalks(s, GotClosed(turn));
      NoteTalks(Note(s, GotClosed(turn)), Notified(turn));
    } else if s.queue[0] == Cancel {
      NoteTalks(Pop(s), GotCancel(turn));
      NoteTalks(Note(Pop(s), GotCancel(turn)), Notified(turn));
    } else {
      var other := s.queue[0].id;
      NoteTalks(Pop(s), Took(other));
      AnswerTalks(Note(Pop(s), Took(other)), other, Busy);
    }
  }

  lemma SendTalks(s: State)
    requires Talk(s) && s.pc.Send? && IdOk(s, s.pc.id)
    ensures Talk(LoopStep(s, true).value)
  {
    hide RepliesOk, SentTaken, LastMeter, LastSaid, UsageOf, Count;
    var e := Sent(s.pc.id);
    LastNote(s, e);
    RepliesNote(s, e);
    SentNote(s, e);
  }

  lemma ResetTalks(s: State)
    requires Talk(s) && s.pc.Reset? && s.request == Idle
    ensures Talk(LoopStep(s, true).value)
  {
    hide RepliesOk, SentTaken, LastMeter, LastSaid, UsageOf;
    var e := Zeroed(s.pc.id);
    LastNote(s, e);
    RepliesNote(s, e);
    SentNote(s, e);
  }

  lemma EndTalks(s: State)
    requires Talk(s) && s.pc.Await? && s.request.Responded?
    ensures Talk(Note(s, Ended(s.pc.id)).(request := Idle, pc := Clear(s.pc.id, s.request.ok)))
  {
    hide RepliesOk, SentTaken, LastMeter, LastSaid, UsageOf;
    NoteTalks(s, Ended(s.pc.id));
    LastNote(s, Ended(s.pc.id));
  }

  lemma ReadTalks(s: State)
    requires Talk(s) && s.pc.Read? && s.request == Idle
    ensures Talk(LoopStep(s, true).value)
  {
    hide RepliesOk, SentTaken, LastMeter, LastSaid, UsageOf;
    UsageNow(s.log, s.pc.id);
  }

  lemma LoopTalks(s: State, control: bool)
    requires Talk(s) && Shape(s) && (forall id: nat :: IdOk(s, id)) && LoopStep(s, control).Some?
    ensures Talk(LoopStep(s, control).value)
  {
    hide Told, RepliesOk, SentTaken, RecvStep, ControlStep, Count, Queued, Talk;
    match s.pc
    case Recv => RecvTalks(s);
    case Config(id) => ConfigTalks(s, control);
    case Install(id) => assert Talk(s.(sink := Some(id), pc := Reset(id))) by { MoveTalks(s, s.(sink := Some(id), pc := Reset(id))); }
    case Reset(_) => ResetTalks(s);
    case Send(id) =>
      assert IdOk(s, id);
      SendTalks(s);
    case Await(id, closed) =>
      if s.request.Responded? && !(control && ControlReady(s, closed)) {
        EndTalks(s);
      } else {
        ControlTalks(s, id);
      }
    case Clear(id, ok) => MoveTalks(s, s.(sink := None, pc := Read(id, ok)));
    case Read(_, _) => ReadTalks(s);
    case Finish(_, _, _) => FinishTalks(s, control);
    case Done =>
  }

  /** A move that neither logs nor touches a cell. */
  lemma MoveTalks(s: State, t: State)
    requires Talk(s) && t.log == s.log && t.usage == s.usage && t.request == s.request
    requires t.pc.Reset? || (s.pc.Clear? && t.pc == Read(s.pc.id, s.pc.ok))
    ensures Talk(t)
  {
    hide RepliesOk, SentTaken, LastMeter, LastSaid, UsageOf;
  }

  lemma ConfigTalks(s: State, control: bool)
    requires Talk(s) && s.pc.Config? && s.request.Responded?
    ensures Talk(LoopStep(s, control).value)
  {
    hide RepliesOk, SentTaken, LastMeter, LastSaid, UsageOf;
    AnswerTalks(s, s.pc.id, if s.request.ok then ConfigDone else Failed);
  }

  lemma FinishTalks(s: State, control: bool)
    requires Talk(s) && s.pc.Finish? && s.request == Idle
    ensures Talk(LoopStep(s, control).value)
  {
    hide RepliesOk, SentTaken, LastMeter, LastSaid, UsageOf;
    AnswerTalks(s, s.pc.id, if s.pc.ok then TurnDone(s.pc.usage) else Failed);
  }

  lemma CellTalks(s: State, step: Step)
    requires Talk(s) && Shape(s) && (step.Usage? || step.Respond?) && Apply(s, step).Some?
    ensures Talk(Apply(s, step).value)
  {
    hide RepliesOk, SentTaken, LastMeter, LastSaid, UsageOf;
    var e := if step.Usage? then Metered(step.usage) else Said(step.ok);
    LastNote(s, e);
    RepliesNote(s, e);
    SentNote(s, e);
    if s.pc.Finish? {
      UsageStays(s, e, s.pc.id, s.pc.usage);
    }
  }

  lemma StepTalks(s: State, step: Step)
    requires Inv(s) && Talk(s) && Apply(s, step).Some?
    ensures Talk(Apply(s, step).value)
  {
    hide RepliesOk, SentTaken, LastMeter, LastSaid, UsageOf, LoopStep, Count, IdOk, ClosedOnce, DeltasOk;
    match step
    case Push(_) =>
    case Close =>
    case Stream(content) =>
      if s.sink.Some? {
        NoteTalks(s, Delta(s.sink.value, content));
      }
    case Advance(control) => LoopTalks(s, control);
    case _ => CellTalks(s, step);
  }

  lemma {:induction false} RunTalks(s: State, steps: seq<Step>)
    requires Inv(s) && Talk(s) && Run(s, steps).Some?
    ensures Talk(Run(s, steps).value)
    decreases |steps|
  {
    hide Inv, Apply, Talk;
    if steps != [] {
      StepKeeps(s, steps[0]);
      StepTalks(s, steps[0]);
      RunTalks(Apply(s, steps[0]).value, steps[1..]);
    }
  }

  /**
   * In every run: a request taken during another turn is turned away at once; any other is
   * answered as the agent answered it, and a turn carries the usage last metered since its own
   * reset, read after its end.
   */
  lemma RepliesExactly(steps: seq<Step>, k: nat)
    requires Run(INIT, steps).Some? && k < |Run(INIT, steps).value.log| && Run(INIT, steps).value.log[k].Answered?
    ensures var log := Run(INIT, steps).value.log; ReplyOk(log[..k], log[k].id, log[k].reply)
  {
    hide Run, ReplyOk, Told, SentTaken;
    InitTalks();
    RunTalks(INIT, steps);
  }

  lemma InitTalks()
    ensures Talk(INIT) && Inv(INIT)
  {
  }
}
