/**
 * The root scheduler as atomic steps between awaits: admission, the FIFO mailbox, dispatch, cancellation, exit,
 * closing, and the joined publication of each request's one result.
 */
module SchedulerSteps {
  import opened Wrappers
  import opened Sequences

  type Id = string

  datatype Request = UserTurn(id: Id, text: string) | Reflection(id: Id, daily: bool, instructions: string)

  datatype Activity = Queued | Preparing | Running | Finalizing | Finished

  datatype Ending = Completed(outcome: int) | Cancelled | Failed

  datatype Result = Result(requestId: Id, turnId: Option<string>, ending: Ending)

  datatype Handle = Handle(
    request: Request,
    activity: Activity,
    cancelRequested: bool,
    taskEnded: bool,
    turnId: Option<string>,
    result: Option<Result>)

  predicate Done(h: Handle) {
    h.result.Some?
  }

  datatype Entry = Work(request: Request) | Exit

  /** A publication task: not yet at its check, past it, or over, with the result set or refused. */
  datatype Publication = Pending(result: Result) | Checked(result: Result) | Published | Refused

  predicate Unfinished(p: Publication) {
    p.Pending? || p.Checked?
  }

  /** A publication task by its identity and its number among that identity's tasks: what a caller awaits. */
  datatype Task = Task(id: Id, number: nat)

  /** Where the scheduler's own loop is suspended. */
  datatype Loop = Idle | Executing(id: Id, ended: bool) | Joining(task: Task, raising: bool) | Stopped

  datatype Closer = NotClosing | Closing(rest: seq<Id>, current: Option<Task>, ending: Ending) | Closed | Aborted

  /**
   * Handles are a dictionary in insertion order: `order` lists its keys. `tasks` are all publications ever started, by
   * identity; `finishing` is the source's table of the one to join, and `joiners` are the cancelling callers, each
   * awaiting the publication it joined.
   */
  datatype State = State(
    order: seq<Id>,
    handles: map<Id, Handle>,
    mailbox: seq<Entry>,
    completed: seq<Id>,
    tasks: map<Id, seq<Publication>>,
    finishing: map<Id, nat>,
    joiners: multiset<Task>,
    accepting: bool,
    exitRequested: bool,
    loop: Loop,
    closer: Closer)

  const INITIAL := State([], map[], [], [], map[], map[], multiset{}, true, false, Idle, NotClosing)

  datatype Config = Config(capacity: nat, retained: nat)

  datatype SchedulerError = ClosedError | QueueFull | InvalidRequest | IdentityReused

  // ---------- Admission ----------

  function NewHandle(r: Request): Handle {
    Handle(r, Queued, false, false, None, None)
  }

  predicate Acceptable(r: Request) {
    r.UserTurn? || !r.daily
  }

  function FindRequest(rs: seq<Request>, id: Id): (r: Option<Request>)
    ensures r.Some? ==> r.value in rs && r.value.id == id
    ensures r.None? ==> forall x :: x in rs ==> x.id != id
  {
    if rs == [] then None else if rs[0].id == id then Some(rs[0]) else FindRequest(rs[1..], id)
  }

  /** The requests that are new, in order, or the first objection. */
  function Admit(handles: map<Id, Handle>, requests: seq<Request>, pending: seq<Request>): Outcome<seq<Request>, SchedulerError> {
    if requests == [] then Ok(pending)
    else
      var r := requests[0];
      var known := if r.id in handles then Some(handles[r.id].request) else FindRequest(pending, r.id);
      if !Acceptable(r) then Raised(InvalidRequest)
      else if known.Some? && known.value != r then Raised(IdentityReused)
      else Admit(handles, requests[1..], if known.None? then pending + [r] else pending)
  }

  function Queue(order: seq<Id>, handles: map<Id, Handle>): seq<Request>
    requires forall id :: id in order ==> id in handles
  {
    if order == [] then []
    else (if handles[order[0]].activity == Queued then [handles[order[0]].request] else []) + Queue(order[1..], handles)
  }

  function Works(rs: seq<Request>): seq<Entry> {
    seq(|rs|, i requires 0 <= i < |rs| => Work(rs[i]))
  }

  function Ids(rs: seq<Request>): seq<Id> {
    seq(|rs|, i requires 0 <= i < |rs| => rs[i].id)
  }

  function AddHandles(handles: map<Id, Handle>, rs: seq<Request>): map<Id, Handle>
    decreases |rs|
  {
    if rs == [] then handles else AddHandles(handles[rs[0].id := NewHandle(rs[0])], rs[1..])
  }

  function Install(s: State, rs: seq<Request>): State {
    s.(order := s.order + Ids(rs), handles := AddHandles(s.handles, rs), mailbox := s.mailbox + Works(rs))
  }

  predicate Consistent(s: State) {
    (forall id :: id in s.order ==> id in s.handles) && (forall id :: id in s.handles ==> id in s.order)
  }

  function SubmitBatch(c: Config, s: State, requests: seq<Request>): Outcome<State, SchedulerError>
    requires Consistent(s)
  {
    if !s.accepting then Raised(ClosedError)
    else
      match Admit(s.handles, requests, [])
      case Raised(e) => Raised(e)
      case Ok(pending) =>
        if |Queue(s.order, s.handles)| + |pending| > c.capacity then Raised(QueueFull)
        else Ok(Install(s, pending))
  }

  // ---------- Cancellation, exit, completion ----------

  predicate Cancellable(h: Handle) {
    !Done(h) && h.activity != Finalizing && !h.taskEnded
  }

  function RequestCancel(h: Handle): Handle {
    if Cancellable(h) then h.(cancelRequested := true) else h
  }

  function RequestExit(s: State): Outcome<State, SchedulerError> {
    if s.exitRequested then Ok(s)
    else if !s.accepting then Raised(ClosedError)
    else Ok(s.(exitRequested := true, accepting := false,
               handles := map id | id in s.handles :: RequestCancel(s.handles[id]),
               mailbox := s.mailbox + [Exit]))
  }

  function TasksOf(s: State, id: Id): seq<Publication> {
    if id in s.tasks then s.tasks[id] else []
  }

  predicate IsTask(s: State, task: Task) {
    task.number < |TasksOf(s, task.id)|
  }

  function Progress(s: State, task: Task): Publication
    requires IsTask(s, task)
  {
    TasksOf(s, task.id)[task.number]
  }

  function SetProgress(s: State, task: Task, p: Publication): State
    requires IsTask(s, task)
  {
    s.(tasks := s.tasks[task.id := TasksOf(s, task.id)[task.number := p]])
  }

  predicate Live(s: State, task: Task) {
    IsTask(s, task) && Unfinished(Progress(s, task))
  }

  predicate WasRefused(s: State, task: Task) {
    IsTask(s, task) && Progress(s, task).Refused?
  }

  /** The task a completion of this identity would join. */
  function Registered(s: State, id: Id): Task
    requires id in s.finishing
  {
    Task(id, s.finishing[id])
  }

  predicate Joins(s: State, id: Id) {
    id in s.handles && !Done(s.handles[id])
  }

  function StartTask(s: State, id: Id, result: Result): State
    requires id in s.handles
  {
    s.(handles := s.handles[id := s.handles[id].(activity := Finalizing)],
       tasks := s.tasks[id := TasksOf(s, id) + [Pending(result)]],
       finishing := s.finishing[id := |TasksOf(s, id)|])
  }

  /**
   * A completion up to its first suspension. A finished handle is left alone; a registered task is joined, or, when it is
   * over already, taken off the table at once; otherwise a new task is started and registered.
   */
  function BeginFinish(s: State, id: Id, result: Result): State {
    if !Joins(s, id) then s
    else if id !in s.finishing then StartTask(s, id, result)
    else if Live(s, Registered(s, id)) then s
    else Unjoin(s, id)
  }

  /** A caller that resumes takes whatever is registered for its identity off the table. */
  function Unjoin(s: State, id: Id): State {
    s.(finishing := s.finishing - {id})
  }

  /** The task the completion that led from `s` to `t` awaits, unless it returned without suspending. */
  function Awaited(s: State, t: State, id: Id): Option<Task> {
    if Joins(s, id) && id in t.finishing then Some(Registered(t, id)) else None
  }

  /** The completion joins a task that was refused, and raises its error. */
  predicate JoinRaises(s: State, id: Id) {
    Joins(s, id) && id in s.finishing && WasRefused(s, Registered(s, id))
  }

  /** How the loop goes on from the completion that led from `s` to `t`. */
  function Resumed(s: State, t: State, id: Id, raising: bool): (loop: Loop)
    ensures !loop.Executing?
  {
    match Awaited(s, t, id)
    case Some(task) => Joining(task, raising)
    case None => if raising || JoinRaises(s, id) then Stopped else Idle
  }

  function CancelRequest(s: State, id: Id): State {
    if id !in s.handles || !Cancellable(s.handles[id]) then s
    else
      var t := s.(handles := s.handles[id := RequestCancel(s.handles[id])]);
      if t.handles[id].activity != Queued then t
      else
        var u := t.(mailbox := RemoveFirst(t.mailbox, Work(t.handles[id].request)));
        var v := BeginFinish(u, id, Result(id, None, Cancelled));
        v.(joiners := v.joiners + match Awaited(u, v, id) case Some(task) => multiset{task} case None => multiset{})
  }

  function EvictOldest(s: State): State
    requires s.completed != []
  {
    var oldest := s.completed[0];
    s.(completed := s.completed[1..], handles := s.handles - {oldest}, order := RemoveFirst(s.order, oldest))
  }

  /** Oldest completions beyond the retained number are forgotten. */
  function Evict(c: Config, s: State): State
    decreases |s.completed|
  {
    if |s.completed| > c.retained then Evict(c, EvictOldest(s)) else s
  }

  /** The handle gets its result and joins the completions. */
  function Deliver(s: State, task: Task): State
    requires IsTask(s, task) && Progress(s, task).Checked? && task.id in s.handles
  {
    var h := s.handles[task.id].(activity := Finished, taskEnded := false, result := Some(Progress(s, task).result));
    SetProgress(s, task, Published).(handles := s.handles[task.id := h], completed := s.completed + [task.id])
  }

  /** A result can be set only once: a second publication that got past its check fails here. */
  function Publish(c: Config, s: State, task: Task): State
    requires IsTask(s, task) && Progress(s, task).Checked?
  {
    if Joins(s, task.id) then Evict(c, Deliver(s, task)) else SetProgress(s, task, Refused)
  }

  // ---------- The loop and the closer ----------

  function TakeNext(s: State): State
    requires s.mailbox != []
  {
    var t := s.(mailbox := s.mailbox[1..]);
    match s.mailbox[0]
    case Exit => t.(loop := Stopped)
    case Work(r) =>
      if r.id !in t.handles then t.(loop := Stopped)
      else
        var h := t.handles[r.id];
        if h.cancelRequested then
          var u := BeginFinish(t, r.id, Result(r.id, None, Cancelled));
          u.(loop := Resumed(t, u, r.id, false))
        else if h.activity != Queued then t.(loop := Stopped)
        else t.(handles := t.handles[r.id := h.(activity := Preparing)], loop := Executing(r.id, false))
  }

  function DispatchResume(s: State, ending: Ending, raising: bool): State
    requires s.loop.Executing?
  {
    var id := s.loop.id;
    var turnId := if id in s.handles then s.handles[id].turnId else None;
    var t := BeginFinish(s, id, Result(id, turnId, ending));
    t.(loop := Resumed(s, t, id, raising))
  }

  function CloseNext(s: State): State
    requires s.closer.Closing? && s.closer.current.None?
  {
    var c := s.closer;
    if c.rest == [] then s.(closer := Closed)
    else
      var id := c.rest[0];
      if !Joins(s, id) then s.(closer := Closing(c.rest[1..], None, c.ending))
      else
        var h := if c.ending == Cancelled then RequestCancel(s.handles[id]) else s.handles[id];
        var t := s.(handles := s.handles[id := h], mailbox := RemoveFirst(s.mailbox, Work(h.request)));
        var u := BeginFinish(t, id, Result(id, h.turnId, c.ending));
        u.(closer := if JoinRaises(t, id) then Aborted else Closing(c.rest[1..], Awaited(t, u, id), c.ending))
  }

  datatype Step =
    | SubmitStep(requests: seq<Request>)
    | ExitStep
    | StopAcceptingStep
    | CancelStep(cancelled: Id)
    | LeaveCancelStep(left: Task)
    | TakeNextStep
    | InterruptIdleStep
    | ActivityStep(activity: Activity)
    | BindTurnStep(turn: string)
    | ExecutionEndsStep
    | DispatchResumeStep(ending: Ending, raising: bool)
    | DispatchJoinedStep(interruptedLoop: bool)
    | BeginCloseStep(closing: Ending)
    | CloseNextStep
    | CloseJoinedStep(interrupted: bool)
    | CheckStep(checked: Task)
    | PublishStep(published: Task)

  predicate Enabled(s: State, step: Step) {
    match step
    case SubmitStep(_) => true
    case ExitStep => true
    case StopAcceptingStep => true
    case CancelStep(_) => true
    case LeaveCancelStep(task) => task in s.joiners && !Live(s, task)
    case TakeNextStep => s.loop.Idle? && s.mailbox != []
    case InterruptIdleStep => s.loop.Idle?
    case ActivityStep(a) => s.loop.Executing? && !s.loop.ended && (a == Running || a == Finalizing)
    case BindTurnStep(_) => s.loop.Executing? && !s.loop.ended
    case ExecutionEndsStep => s.loop.Executing? && !s.loop.ended
    case DispatchResumeStep(_, _) => s.loop.Executing? && s.loop.ended
    case DispatchJoinedStep(_) => s.loop.Joining? && !Live(s, s.loop.task)
    case BeginCloseStep(e) => !s.closer.Closing? && !e.Completed?
    case CloseNextStep => s.closer.Closing? && s.closer.current.None?
    case CloseJoinedStep(_) => s.closer.Closing? && s.closer.current.Some? && !Live(s, s.closer.current.value)
    case CheckStep(task) => IsTask(s, task) && Progress(s, task).Pending?
    case PublishStep(task) => IsTask(s, task) && Progress(s, task).Checked?
  }

  function OnActive(s: State, f: Handle -> Handle): State
    requires s.loop.Executing?
  {
    var id := s.loop.id;
    if id in s.handles then s.(handles := s.handles[id := f(s.handles[id])]) else s
  }

  /** The publication looks at its handle: it is refused when the handle is done or the result names another turn. */
  function Check(s: State, task: Task): State
    requires IsTask(s, task) && Progress(s, task).Pending?
  {
    var id, result := task.id, Progress(s, task).result;
    var sound := id in s.handles && !Done(s.handles[id]) && result.turnId == s.handles[id].turnId && result.requestId == id;
    SetProgress(s, task, if sound then Checked(result) else Refused)
  }

  function Apply(c: Config, s: State, step: Step): State
    requires Consistent(s) && Enabled(s, step)
  {
    match step
    case SubmitStep(requests) => (match SubmitBatch(c, s, requests) case Ok(t) => t case Raised(_) => s)
    case ExitStep => (match RequestExit(s) case Ok(t) => t case Raised(_) => s)
    case StopAcceptingStep => s.(accepting := false)
    case CancelStep(id) => CancelRequest(s, id)
    case LeaveCancelStep(task) => Unjoin(s, task.id).(joiners := s.joiners - multiset{task})
    case TakeNextStep => TakeNext(s)
    case InterruptIdleStep => s.(loop := Stopped)
    case ActivityStep(a) => OnActive(s, (h: Handle) => h.(activity := a))
    case BindTurnStep(turn) => OnActive(s, (h: Handle) => if h.turnId.None? then h.(turnId := Some(turn)) else h)
    case ExecutionEndsStep => OnActive(s, (h: Handle) => h.(taskEnded := !Done(h))).(loop := Executing(s.loop.id, true))
    case DispatchResumeStep(ending, raising) => DispatchResume(s, ending, raising)
    case DispatchJoinedStep(interrupted) =>
      Unjoin(s, s.loop.task.id).(loop := if s.loop.raising || interrupted || WasRefused(s, s.loop.task) then Stopped else Idle)
    case BeginCloseStep(e) => s.(accepting := false, closer := Closing(s.order, None, e))
    case CloseNextStep => CloseNext(s)
    case CloseJoinedStep(interrupted) =>
      var task := s.closer.current.value;
      Unjoin(s, task.id).(closer := if interrupted || WasRefused(s, task) then Aborted else s.closer.(current := None))
    case CheckStep(task) => Check(s, task)
    case PublishStep(task) => Publish(c, s, task)
  }
}
