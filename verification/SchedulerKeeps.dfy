/** Each step of the scheduler keeps the invariant, and a submission or a binding keeps it exactly when it is benign. */
module SchedulerKeeps {
  import opened Wrappers
  import opened Sequences
  import opened SchedulerSteps
  import opened SchedulerProofs

  lemma SameQueue(c: Config, s: State, t: State)
    requires KeysSound(s) && MailboxSound(c, s)
    requires t.order == s.order && t.mailbox == s.mailbox && t.exitRequested == s.exitRequested && (t.accepting ==> s.accepting)
    requires t.handles.Keys == s.handles.Keys
    requires forall id :: id in s.handles ==>
               (t.handles[id].activity == Queued <==> s.handles[id].activity == Queued) && t.handles[id].request == s.handles[id].request
    ensures KeysSound(t) && MailboxSound(c, t)
  {
    hide NoDuplicates;
    QueueSame(s.order, s.handles, t.handles);
  }

  /** What one identity sees of the state. */
  ghost predicate SameView(s: State, t: State, id: Id) {
    && (id in t.handles <==> id in s.handles) && (id in s.handles ==> t.handles[id] == s.handles[id])
    && (id in t.finishing <==> id in s.finishing) && (id in s.finishing ==> t.finishing[id] == s.finishing[id])
    && TasksOf(t, id) == TasksOf(s, id) && (forall n: nat :: Awaiting(t, Task(id, n)) ==> Awaiting(s, Task(id, n)))
    && (id in s.completed ==> id in t.completed)
    && (IsExecuting(t, id) <==> IsExecuting(s, id))
    && (t.closer.Closing? ==> s.closer.Closing? && (ToClose(s, id) ==> ToClose(t, id)))
    && (t.closer.Closed? ==> s.closer.Closed?)
  }

  lemma ViewKeeps(s: State, t: State, id: Id)
    requires IdSound(s, id) && SameView(s, t, id)
    ensures IdSound(t, id)
  {
    StaysSound(s, t, id);
  }

  /** An identity stays sound as long as its tasks, turn and result stay, and nobody awaits a task that is over. */
  lemma StaysSound(s: State, t: State, id: Id)
    requires IdSound(s, id) && TasksOf(t, id) == TasksOf(s, id)
    requires (id in t.finishing <==> id in s.finishing) && (id in s.finishing ==> t.finishing[id] == s.finishing[id])
    requires forall n: nat :: Awaiting(t, Task(id, n)) ==> Awaiting(s, Task(id, n)) || (InFlight(s, id) && Task(id, n) == Registered(s, id))
    requires id in t.handles <==> id in s.handles
    requires id in s.handles ==>
               && t.handles[id].result == s.handles[id].result && t.handles[id].turnId == s.handles[id].turnId && QueuedUntouched(t, id)
               && (Joins(s, id) ==>
                     && (t.handles[id].activity == Queued || IsExecuting(t, id) || InFlight(t, id))
                     && (t.closer.Closing? ==> ToClose(t, id)) && !t.closer.Closed?)
               && (Done(s.handles[id]) ==> id in t.completed && t.handles[id].activity != Queued)
    ensures IdSound(t, id)
  {
    hide Awaiting, ToClose;
    forall n: nat | IsTask(t, Task(id, n)) ensures TaskSound(t, Task(id, n)) { assert IsTask(s, Task(id, n)) && TaskSound(s, Task(id, n)); }
    forall n: nat | Awaiting(t, Task(id, n)) ensures IsTask(t, Task(id, n)) && (Live(s, Task(id, n)) ==> Live(t, Task(id, n))) {}
  }

  /** A state that differs only at one identity and in its queue is good if it is good there. */
  lemma KeepsElsewhere(c: Config, s: State, t: State, id: Id)
    requires Good(c, s) && KeysSound(t) && MailboxSound(c, t) && CompletedSound(c, t) && OpenSound(t)
    requires forall j :: j != id ==> SameView(s, t, j)
    ensures Good(c, t) <==> IdSound(t, id)
  {
    hide KeysSound, MailboxSound, CompletedSound, OpenSound, IdSound;
    forall j | j != id ensures IdSound(t, j) { ViewKeeps(s, t, j); }
  }

  // ---------- Steps that leave the queue alone ----------

  lemma UnjoinKeeps(c: Config, s: State, t: State, task: Task)
    requires Good(c, s) && Awaiting(s, task) && !Live(s, task)
    requires t == s.(finishing := s.finishing - {task.id}, joiners := t.joiners, loop := t.loop, closer := t.closer)
    requires forall other :: Awaiting(t, other) ==> Awaiting(s, other)
    requires forall j :: IsExecuting(t, j) <==> IsExecuting(s, j)
    requires t.loop.Executing? ==> t.loop == s.loop
    requires t.closer == s.closer || (s.closer.Closing? && s.closer.current == Some(task) &&
                                      (t.closer.Aborted? || t.closer == s.closer.(current := None)))
    ensures Good(c, t)
  {
    assert KeysSound(t) && MailboxSound(c, t) by { hide NoDuplicates; SameQueue(c, s, t); }
    hide KeysSound, MailboxSound, NoDuplicates, RemoveFirst;
    assert IdSound(s, task.id);
    NobodyLeavesOpen(s, task);
    AfterUnjoin(s, t, task.id);
    KeepsElsewhere(c, s, t, task.id);
  }

  /** A caller whose task is over leaves behind a finished request, or one already forgotten. */
  lemma NobodyLeavesOpen(s: State, task: Task)
    requires IdSound(s, task.id) && Awaiting(s, task) && !Live(s, task)
    ensures !Joins(s, task.id)
  {
    assert Task(task.id, task.number) == task;
  }

  lemma AfterUnjoin(s: State, t: State, id: Id)
    requires IdSound(s, id) && !Joins(s, id)
    requires t.handles == s.handles && t.finishing == s.finishing - {id} && t.tasks == s.tasks && t.completed == s.completed
    requires forall n: nat :: Awaiting(t, Task(id, n)) ==> Awaiting(s, Task(id, n))
    requires IsExecuting(t, id) <==> IsExecuting(s, id)
    ensures IdSound(t, id)
  {
    hide Awaiting;
    forall n: nat | IsTask(t, Task(id, n)) ensures TaskSound(t, Task(id, n)) { assert IsTask(s, Task(id, n)) && TaskSound(s, Task(id, n)); }
  }

  lemma LeaveCancelKeeps(c: Config, s: State, task: Task)
    requires KeysSound(s) && Good(c, s) && Enabled(s, LeaveCancelStep(task))
    ensures Good(c, Apply(c, s, LeaveCancelStep(task)))
  {
    hide Good, MailboxSound;
    UnjoinKeeps(c, s, Apply(c, s, LeaveCancelStep(task)), task);
  }

  lemma DispatchJoinedKeeps(c: Config, s: State, interrupted: bool)
    requires KeysSound(s) && Good(c, s) && Enabled(s, DispatchJoinedStep(interrupted))
    ensures Good(c, Apply(c, s, DispatchJoinedStep(interrupted)))
  {
    hide Good, MailboxSound;
    UnjoinKeeps(c, s, Apply(c, s, DispatchJoinedStep(interrupted)), s.loop.task);
  }

  lemma InterruptIdleKeeps(c: Config, s: State)
    requires KeysSound(s) && Good(c, s) && Enabled(s, InterruptIdleStep)
    ensures Good(c, Apply(c, s, InterruptIdleStep))
  {
    var t := Apply(c, s, InterruptIdleStep);
    SameQueue(c, s, t);
    hide KeysSound, MailboxSound, IdSound;
    forall j ensures IdSound(t, j) { ViewKeeps(s, t, j); }
  }

  lemma CloseJoinedKeeps(c: Config, s: State, interrupted: bool)
    requires KeysSound(s) && Good(c, s) && Enabled(s, CloseJoinedStep(interrupted))
    ensures Good(c, Apply(c, s, CloseJoinedStep(interrupted)))
  {
    hide Good, MailboxSound;
    UnjoinKeeps(c, s, Apply(c, s, CloseJoinedStep(interrupted)), s.closer.current.value);
  }

  lemma StopAcceptingKeeps(c: Config, s: State)
    requires KeysSound(s) && Good(c, s)
    ensures Good(c, Apply(c, s, StopAcceptingStep))
  {
    var t := Apply(c, s, StopAcceptingStep);
    SameQueue(c, s, t);
    hide KeysSound, MailboxSound, IdSound;
    forall j ensures IdSound(t, j) { ViewKeeps(s, t, j); }
  }

  lemma BeginCloseKeeps(c: Config, s: State, e: Ending)
    requires KeysSound(s) && Good(c, s) && Enabled(s, BeginCloseStep(e))
    ensures Good(c, Apply(c, s, BeginCloseStep(e)))
  {
    var t := Apply(c, s, BeginCloseStep(e));
    SameQueue(c, s, t);
    assert forall j :: j in s.handles ==> j in s.order;
    hide KeysSound, MailboxSound, IdSound;
    forall j ensures IdSound(t, j) { BeginCloseAt(s, t, e, j); }
  }

  lemma BeginCloseAt(s: State, t: State, e: Ending, id: Id)
    requires IdSound(s, id) && (id in s.handles ==> id in s.order) && t == s.(accepting := false, closer := Closing(s.order, None, e))
    ensures IdSound(t, id)
  {
    StaysSound(s, t, id);
  }

  /** The executing handle changes in what the queue and the result do not depend on. */
  lemma ActiveChanges(c: Config, s: State, t: State, h: Handle)
    requires Good(c, s) && s.loop.Executing? && s.loop.id in s.handles
    requires h.request == s.handles[s.loop.id].request && h.result == s.handles[s.loop.id].result && h.activity != Queued
    requires t == s.(handles := s.handles[s.loop.id := h], loop := Executing(s.loop.id, t.loop.Executing? && t.loop.ended))
    ensures h.turnId == s.handles[s.loop.id].turnId ==> Good(c, t)
    ensures !Done(h) && !InFlight(s, s.loop.id) ==> Good(c, t)
    ensures Done(h) && h.turnId != s.handles[s.loop.id].turnId ==> !Good(c, t)
    ensures InFlight(s, s.loop.id) && h.turnId != s.handles[s.loop.id].turnId ==> !Good(c, t)
  {
    var id := s.loop.id;
    assert IdSound(s, id);
    SameQueue(c, s, t);
    hide KeysSound, MailboxSound, NoDuplicates;
    ActiveSound(s, t, h);
    hide IdSound;
    KeepsElsewhere(c, s, t, id);
  }

  lemma ActiveSound(s: State, t: State, h: Handle)
    requires s.loop.Executing? && s.loop.id in s.handles && IdSound(s, s.loop.id)
    requires h.request == s.handles[s.loop.id].request && h.result == s.handles[s.loop.id].result && h.activity != Queued
    requires t == s.(handles := s.handles[s.loop.id := h], loop := Executing(s.loop.id, t.loop.Executing? && t.loop.ended))
    ensures h.turnId == s.handles[s.loop.id].turnId ==> IdSound(t, s.loop.id)
    ensures !Done(h) && !InFlight(s, s.loop.id) ==> IdSound(t, s.loop.id)
    ensures Done(h) && h.turnId != s.handles[s.loop.id].turnId ==> !IdSound(t, s.loop.id)
    ensures InFlight(s, s.loop.id) && h.turnId != s.handles[s.loop.id].turnId ==> !IdSound(t, s.loop.id)
  {
    var id := s.loop.id;
    assert forall n: nat :: Awaiting(t, Task(id, n)) <==> Awaiting(s, Task(id, n));
    hide Awaiting;
    if id in s.finishing {
      assert IsTask(s, Registered(s, id)) && TaskSound(s, Registered(s, id)) && IsTask(t, Registered(t, id));
    }
    if h.turnId == s.handles[id].turnId || (!Done(h) && !InFlight(s, id)) {
      forall n: nat | IsTask(t, Task(id, n)) ensures TaskSound(t, Task(id, n)) { assert IsTask(s, Task(id, n)) && TaskSound(s, Task(id, n)); }
    }
  }

  lemma ActivityKeeps(c: Config, s: State, a: Activity)
    requires KeysSound(s) && Good(c, s) && Enabled(s, ActivityStep(a))
    ensures Good(c, Apply(c, s, ActivityStep(a)))
  {
    hide Good, MailboxSound;
    if s.loop.id in s.handles {
      ActiveChanges(c, s, Apply(c, s, ActivityStep(a)), s.handles[s.loop.id].(activity := a));
    }
  }

  lemma StaysActive(c: Config, s: State)
    requires Good(c, s) && s.loop.Executing? && s.loop.id in s.handles
    ensures s.handles[s.loop.id].activity != Queued
    ensures !Done(s.handles[s.loop.id]) ==> (s.loop.id in s.finishing ==> InFlight(s, s.loop.id))
    ensures InFlight(s, s.loop.id) ==> !Done(s.handles[s.loop.id])
  {
    assert IdSound(s, s.loop.id);
    if s.loop.id in s.finishing { assert TaskSound(s, Registered(s, s.loop.id)); }
  }

  lemma ExecutionEndsKeeps(c: Config, s: State)
    requires KeysSound(s) && Good(c, s) && Enabled(s, ExecutionEndsStep)
    ensures Good(c, Apply(c, s, ExecutionEndsStep))
  {
    var t := Apply(c, s, ExecutionEndsStep);
    if s.loop.id in s.handles {
      StaysActive(c, s);
      hide Good, KeysSound;
      ActiveChanges(c, s, t, s.handles[s.loop.id].(taskEnded := !Done(s.handles[s.loop.id])));
    } else {
      SameQueue(c, s, t);
      hide KeysSound, MailboxSound, IdSound;
      forall j ensures IdSound(t, j) { ViewKeeps(s, t, j); }
    }
  }

  /** A turn may be bound exactly while the request's result is undecided. */
  lemma BindTurnExact(c: Config, s: State, turn: string)
    requires KeysSound(s) && Good(c, s) && Enabled(s, BindTurnStep(turn))
    ensures Good(c, Apply(c, s, BindTurnStep(turn))) <==> Benign(c, s, BindTurnStep(turn))
  {
    if s.loop.id in s.handles && s.handles[s.loop.id].turnId.None? {
      StaysActive(c, s);
      hide Good, KeysSound;
      ActiveChanges(c, s, Apply(c, s, BindTurnStep(turn)), s.handles[s.loop.id].(turnId := Some(turn)));
    } else {
      assert Apply(c, s, BindTurnStep(turn)).handles == s.handles;
    }
  }

  lemma CheckKeeps(c: Config, s: State, task: Task)
    requires KeysSound(s) && Good(c, s) && Enabled(s, CheckStep(task))
    ensures Good(c, Apply(c, s, CheckStep(task)))
    ensures Check(s, task) == SetProgress(s, task, Checked(Progress(s, task).result))
  {
    var t := Apply(c, s, CheckStep(task));
    assert IdSound(s, task.id);
    assert Task(task.id, task.number) == task && TaskSound(s, task);
    SameQueue(c, s, t);
    hide KeysSound, MailboxSound, NoDuplicates;
    assert t == SetProgress(s, task, Checked(Progress(s, task).result));
    hide Apply, Check;
    ProgressKeeps(s, t, task);
    KeepsElsewhere(c, s, t, task.id);
  }

  /** A running publication that passes its check stays as sound as it was. */
  lemma ProgressKeeps(s: State, t: State, task: Task)
    requires IdSound(s, task.id) && Live(s, task) && t == SetProgress(s, task, Checked(Progress(s, task).result))
    ensures IdSound(t, task.id)
  {
    var id := task.id;
    assert Task(id, task.number) == task;
    assert forall n: nat :: Awaiting(t, Task(id, n)) <==> Awaiting(s, Task(id, n));
    assert forall n: nat :: IsTask(t, Task(id, n)) <==> IsTask(s, Task(id, n));
    hide Awaiting;
    forall n: nat | IsTask(t, Task(id, n)) ensures TaskSound(t, Task(id, n)) { assert IsTask(s, Task(id, n)) && TaskSound(s, Task(id, n)); }
    forall n: nat ensures Live(t, Task(id, n)) <==> Live(s, Task(id, n)) { assert IsTask(t, Task(id, n)) <==> IsTask(s, Task(id, n)); }
  }

  /** The start of a completion, whoever starts it: the handle is finalizing, with a publication of its one result. */
  lemma FinishStarts(c: Config, s: State, t: State, id: Id, h: Handle, r: Result)
    requires Good(c, s) && KeysSound(t) && MailboxSound(c, t)
    requires id in s.handles && h.activity == Finalizing && Decided(id, h, r)
    requires Starts(s, t, id, h, r)
    requires t.completed == s.completed && t.accepting == s.accepting
    requires t.loop == s.loop || (!t.loop.Executing? && (s.loop.Executing? ==> s.loop.id == id))
    requires IsExecuting(t, id) ==> !t.accepting
    requires forall task :: Awaiting(t, task) ==> Awaiting(s, task) || task == Registered(t, id)
    requires t.closer == s.closer
             || (t.closer.Closing? && s.closer.Closing? && s.closer.current.None? && t.closer.current == Some(Registered(t, id))
                 && s.closer.rest == [id] + t.closer.rest)
    requires !Done(s.handles[id]) && id !in s.finishing
    ensures Good(c, t)
  {
    hide KeysSound, MailboxSound, NoDuplicates;
    assert IdSound(s, id);
    StartedSound(s, t, id, h, r);
    hide IdSound;
    KeepsElsewhere(c, s, t, id);
  }

  predicate Starts(s: State, t: State, id: Id, h: Handle, r: Result) {
    t.handles == s.handles[id := h] && t.finishing == s.finishing[id := |TasksOf(s, id)|]
    && t.tasks == s.tasks[id := TasksOf(s, id) + [Pending(r)]]
  }

  lemma NobodyAwaits(s: State, id: Id)
    requires IdSound(s, id) && Joins(s, id) && id !in s.finishing
    ensures forall n: nat :: !Awaiting(s, Task(id, n))
  {
    hide Awaiting;
    forall n: nat ensures !Live(s, Task(id, n)) {
      if IsTask(s, Task(id, n)) { assert TaskSound(s, Task(id, n)); }
    }
  }

  lemma StartedSound(s: State, t: State, id: Id, h: Handle, r: Result)
    requires IdSound(s, id) && Joins(s, id) && id !in s.finishing
    requires h.activity == Finalizing && Decided(id, h, r) && Starts(s, t, id, h, r)
    requires forall n: nat :: Awaiting(t, Task(id, n)) ==> Awaiting(s, Task(id, n)) || Task(id, n) == Registered(t, id)
    requires s.closer.Closing? ==> ToClose(s, id)
    requires t.closer.Closing? ==> ToClose(t, id)
    requires !t.closer.Closed?
    ensures IdSound(t, id)
  {
    hide Awaiting, ToClose;
    forall n: nat | IsTask(t, Task(id, n)) ensures TaskSound(t, Task(id, n)) {
      if n < |TasksOf(s, id)| { assert IsTask(s, Task(id, n)) && TaskSound(s, Task(id, n)); }
    }
    NobodyAwaits(s, id);
  }

  lemma StaysOutOfQueue(c: Config, s: State, t: State, id: Id)
    requires KeysSound(s) && MailboxSound(c, s) && id in s.handles && s.handles[id].activity != Queued
    requires id in t.handles && t.handles == s.handles[id := t.handles[id]]
    requires t.handles[id].activity != Queued && t.handles[id].request == s.handles[id].request
    requires t.order == s.order && t.mailbox == s.mailbox && t.exitRequested == s.exitRequested && t.accepting == s.accepting
    ensures KeysSound(t) && MailboxSound(c, t)
  {
    hide NoDuplicates;
    SameQueue(c, s, t);
  }

  lemma DispatchStartsFinishing(c: Config, s: State, e: Ending, raising: bool)
    requires KeysSound(s) && Good(c, s) && Enabled(s, DispatchResumeStep(e, raising))
    requires s.loop.id in s.handles && !Done(s.handles[s.loop.id]) && s.loop.id !in s.finishing
    ensures Good(c, DispatchResume(s, e, raising))
  {
    var id, t := s.loop.id, DispatchResume(s, e, raising);
    StaysActive(c, s);
    var h := s.handles[id].(activity := Finalizing);
    assert Starts(s, t, id, h, Result(id, h.turnId, e)) && t.loop == Joining(Registered(t, id), raising);
    assert t == s.(handles := t.handles, finishing := t.finishing, tasks := t.tasks, loop := t.loop);
    hide Good, KeysSound, MailboxSound, DispatchResume, Enabled, Starts;
    assert KeysSound(s) && MailboxSound(c, s) by { GoodQueue(c, s); }
    StaysOutOfQueue(c, s, t, id);
    FinishStarts(c, s, t, id, h, Result(id, h.turnId, e));
  }

  lemma GoodQueue(c: Config, s: State)
    requires Good(c, s)
    ensures KeysSound(s) && MailboxSound(c, s)
  {
  }

  lemma DispatchJoins(c: Config, s: State, e: Ending, raising: bool)
    requires KeysSound(s) && Good(c, s) && Enabled(s, DispatchResumeStep(e, raising))
    requires s.loop.id !in s.handles || Done(s.handles[s.loop.id]) || s.loop.id in s.finishing
    ensures Good(c, DispatchResume(s, e, raising))
  {
    hide NoDuplicates, Queue;
    var id, t := s.loop.id, DispatchResume(s, e, raising);
    assert IdSound(s, id);
    assert t == s.(loop := if Joins(s, id) then Joining(Registered(s, id), raising) else if raising then Stopped else Idle);
    SameQueue(c, s, t);
    hide DispatchResume, KeysSound, MailboxSound;
    StaysSound(s, t, id);
    KeepsElsewhere(c, s, t, id);
  }

  lemma DispatchResumeKeeps(c: Config, s: State, e: Ending, raising: bool)
    requires KeysSound(s) && Good(c, s) && Enabled(s, DispatchResumeStep(e, raising))
    ensures Good(c, DispatchResume(s, e, raising))
  {
    hide Good, KeysSound;
    var id := s.loop.id;
    if id in s.handles && !Done(s.handles[id]) && id !in s.finishing {
      DispatchStartsFinishing(c, s, e, raising);
    } else {
      DispatchJoins(c, s, e, raising);
    }
  }

  // ---------- Steps that take a request out of the queue ----------

  lemma QueueDrops(order: seq<Id>, handles: map<Id, Handle>, id: Id, h: Handle)
    requires Listed(order, handles) && NoDuplicates(order) && id in order && h.activity != Queued && h.request == handles[id].request
    ensures Queue(order, handles[id := h]) == RemoveFirst(Queue(order, handles), h.request)
    ensures |Queue(order, handles[id := h])| <= |Queue(order, handles)|
  {
    hide Queue, NoDuplicates, RemoveFirst;
    QueueShorter(Queue(order, handles), h.request);
    if handles[id].activity == Queued {
      QueueLeave(order, handles, id, h);
    } else {
      QueueKeep(order, handles, id, h);
      QueueMember(order, handles, h.request);
      RemoveFirstMembers(Queue(order, handles), h.request);
    }
  }

  lemma MailboxDrops(mailbox: seq<Entry>, queue: seq<Request>, r: Request)
    ensures mailbox == Works(queue) ==> RemoveFirst(mailbox, Work(r)) == Works(RemoveFirst(queue, r))
    ensures mailbox == Works(queue) + [Exit] ==> RemoveFirst(mailbox, Work(r)) == Works(RemoveFirst(queue, r)) + [Exit]
  {
    hide RemoveFirst;
    assert Works(queue) + [] == Works(queue) && Works(RemoveFirst(queue, r)) + [] == Works(RemoveFirst(queue, r));
    DropWork(queue, [], r);
    DropWork(queue, [Exit], r);
  }

  /** A queued handle leaves the queue: its entry is gone from the mailbox, wherever it was. */
  lemma QueueLeaves(c: Config, s: State, t: State, id: Id)
    requires KeysSound(s) && MailboxSound(c, s) && id in s.handles
    requires t.order == s.order && t.exitRequested == s.exitRequested && (t.accepting ==> s.accepting)
    requires id in t.handles && t.handles == s.handles[id := t.handles[id]] && t.handles[id].request == s.handles[id].request
    requires t.handles[id].activity != Queued
    requires t.mailbox == RemoveFirst(s.mailbox, Work(s.handles[id].request))
    ensures KeysSound(t) && MailboxSound(c, t)
  {
    hide Queue, NoDuplicates, RemoveFirst, Works;
    QueueDrops(s.order, s.handles, id, t.handles[id]);
    MailboxDrops(s.mailbox, Queue(s.order, s.handles), s.handles[id].request);
  }

  lemma {:induction false} QueueShorter<T>(xs: seq<T>, x: T)
    ensures |RemoveFirst(xs, x)| <= |xs|
  {
    if xs != [] { QueueShorter(xs[1..], x); }
  }

  lemma QueuedCanCancel(s: State, id: Id)
    requires IdSound(s, id) && id in s.handles && s.handles[id].activity == Queued
    ensures Cancellable(s.handles[id]) && id !in s.finishing && s.handles[id].turnId.None? && !IsExecuting(s, id)
  {
  }

  lemma CancelledState(s: State, id: Id)
    requires id in s.handles && s.handles[id].activity == Queued && IdSound(s, id)
    ensures var h := s.handles[id].(cancelRequested := true, activity := Finalizing);
            var t := CancelRequest(s, id);
            && Starts(s, t, id, h, Result(id, None, Cancelled))
            && t == s.(handles := t.handles, finishing := t.finishing, tasks := t.tasks,
                       mailbox := RemoveFirst(s.mailbox, Work(h.request)), joiners := s.joiners + multiset{Registered(t, id)})
  {
    hide RemoveFirst;
    QueuedCanCancel(s, id);
  }

  lemma CancelQueued(c: Config, s: State, id: Id)
    requires KeysSound(s) && Good(c, s) && id in s.handles && s.handles[id].activity == Queued
    ensures Good(c, CancelRequest(s, id))
  {
    var t := CancelRequest(s, id);
    var h := s.handles[id].(cancelRequested := true, activity := Finalizing);
    var r := Result(id, None, Cancelled);
    assert IdSound(s, id);
    QueuedCanCancel(s, id);
    hide CancelRequest, Good, KeysSound, MailboxSound, IdSound, RemoveFirst;
    CancelledState(s, id);
    assert t.handles == s.handles[id := t.handles[id]];
    hide Starts;
    GoodQueue(c, s);
    QueueLeaves(c, s, t, id);
    FinishStarts(c, s, t, id, h, r);
  }

  lemma CancelStarted(c: Config, s: State, id: Id)
    requires KeysSound(s) && Good(c, s) && id in s.handles && s.handles[id].activity != Queued && Cancellable(s.handles[id])
    ensures Good(c, CancelRequest(s, id))
  {
    var t := CancelRequest(s, id);
    assert t == s.(handles := s.handles[id := s.handles[id].(cancelRequested := true)]);
    hide CancelRequest, NoDuplicates, Queue;
    StaysOutOfQueue(c, s, t, id);
    hide KeysSound, MailboxSound;
    assert IdSound(s, id);
    StaysSound(s, t, id);
    KeepsElsewhere(c, s, t, id);
  }

  lemma CancelKeeps(c: Config, s: State, id: Id)
    requires KeysSound(s) && Good(c, s)
    ensures Good(c, CancelRequest(s, id))
  {
    hide KeysSound, Good;
    if id in s.handles && Cancellable(s.handles[id]) {
      if s.handles[id].activity == Queued { CancelQueued(c, s, id); } else { CancelStarted(c, s, id); }
    }
  }

  lemma ClosingRefuses(c: Config, s: State)
    requires Good(c, s) && s.closer.Closing?
    ensures !s.accepting
  {
  }

  lemma CloseStartsFinishing(c: Config, s: State, id: Id)
    requires KeysSound(s) && Good(c, s) && Enabled(s, CloseNextStep) && s.closer.rest != [] && s.closer.rest[0] == id && Joins(s, id)
    requires id !in s.finishing
    ensures Good(c, CloseNext(s))
  {
    hide RemoveFirst, Good, KeysSound, MailboxSound, IdSound;
    ClosingRefuses(c, s);
    var t := CloseNext(s);
    var h0 := if s.closer.ending == Cancelled then RequestCancel(s.handles[id]) else s.handles[id];
    var h, r := h0.(activity := Finalizing), Result(id, h0.turnId, s.closer.ending);
    assert Starts(s, t, id, h, r) && t.closer == Closing(s.closer.rest[1..], Some(Registered(t, id)), s.closer.ending);
    assert t == s.(handles := t.handles, finishing := t.finishing, tasks := t.tasks,
                   mailbox := RemoveFirst(s.mailbox, Work(h.request)), closer := t.closer);
    assert s.closer.rest == [id] + s.closer.rest[1..];
    assert t.handles == s.handles[id := h];
    hide CloseNext, Starts;
    GoodQueue(c, s);
    QueueLeaves(c, s, t, id);
    FinishStarts(c, s, t, id, h, r);
  }

  lemma CloseJoins(c: Config, s: State, id: Id)
    requires KeysSound(s) && Good(c, s) && Enabled(s, CloseNextStep) && s.closer.rest != [] && s.closer.rest[0] == id && Joins(s, id)
    requires id in s.finishing
    ensures Good(c, CloseNext(s))
  {
    hide RemoveFirst, KeysSound, MailboxSound, NoDuplicates;
    var t := CloseNext(s);
    assert IdSound(s, id);
    var h := if s.closer.ending == Cancelled then RequestCancel(s.handles[id]) else s.handles[id];
    assert t == s.(handles := s.handles[id := h], mailbox := RemoveFirst(s.mailbox, Work(h.request)),
                   closer := Closing(s.closer.rest[1..], Some(Registered(s, id)), s.closer.ending));
    hide CloseNext;
    QueueLeaves(c, s, t, id);
    JoinedSound(s, t, id, h);
    hide IdSound;
    assert s.closer.rest == [id] + s.closer.rest[1..];
    KeepsElsewhere(c, s, t, id);
  }

  lemma JoinedSound(s: State, t: State, id: Id, h: Handle)
    requires IdSound(s, id) && Joins(s, id) && id in s.finishing && s.closer.Closing? && s.closer.rest != []
    requires h == s.handles[id].(cancelRequested := h.cancelRequested)
    requires t == s.(handles := s.handles[id := h], mailbox := t.mailbox,
                     closer := Closing(s.closer.rest[1..], Some(Registered(s, id)), s.closer.ending))
    ensures IdSound(t, id)
  {
    StaysSound(s, t, id);
  }

  lemma CloseNextKeeps(c: Config, s: State)
    requires KeysSound(s) && Good(c, s) && Enabled(s, CloseNextStep)
    ensures Good(c, CloseNext(s))
  {
    hide Good, KeysSound, CloseNext;
    if s.closer.rest == [] || !Joins(s, s.closer.rest[0]) {
      CloseSkips(c, s);
    } else if s.closer.rest[0] in s.finishing {
      CloseJoins(c, s, s.closer.rest[0]);
    } else {
      CloseStartsFinishing(c, s, s.closer.rest[0]);
    }
  }

  lemma CloseSkips(c: Config, s: State)
    requires KeysSound(s) && Good(c, s) && Enabled(s, CloseNextStep)
    requires s.closer.rest == [] || !Joins(s, s.closer.rest[0])
    ensures Good(c, CloseNext(s))
  {
    hide Queue, NoDuplicates, RemoveFirst;
    var t := CloseNext(s);
    assert t == s.(closer := t.closer);
    SameQueue(c, s, t);
    hide KeysSound, MailboxSound;
    hide IdSound;
    forall j ensures IdSound(t, j) { SkippedAt(s, t, j); }
  }

  lemma SkippedAt(s: State, t: State, id: Id)
    requires IdSound(s, id) && s.closer.Closing? && s.closer.current.None?
    requires s.closer.rest == [] || !Joins(s, s.closer.rest[0])
    requires t == s.(closer := if s.closer.rest == [] then Closed else Closing(s.closer.rest[1..], None, s.closer.ending))
    ensures IdSound(t, id)
  {
    assert s.closer.rest != [] ==> s.closer.rest == [s.closer.rest[0]] + s.closer.rest[1..];
    StaysSound(s, t, id);
  }

  /** What the mailbox holds first is the oldest queued request, or the exit behind all of them. */
  lemma FirstEntry(c: Config, s: State)
    requires Good(c, s) && s.mailbox != []
    ensures match s.mailbox[0]
            case Exit => s.mailbox == [Exit] && s.exitRequested && forall id :: id in s.handles ==> s.handles[id].activity != Queued
            case Work(r) => r.id in s.handles && s.handles[r.id].request == r && s.handles[r.id].activity == Queued
  {
    var queue := Queue(s.order, s.handles);
    if queue == [] {
      forall id | id in s.handles ensures s.handles[id].activity != Queued {
        QueueMember(s.order, s.handles, s.handles[id].request);
      }
    } else {
      assert s.mailbox[0] == Work(queue[0]);
      assert queue[0] in queue;
      QueueMember(s.order, s.handles, queue[0]);
    }
  }

  lemma TakeNextKeeps(c: Config, s: State)
    requires KeysSound(s) && Good(c, s) && Enabled(s, TakeNextStep)
    ensures Good(c, TakeNext(s))
  {
    var t := TakeNext(s);
    FirstEntry(c, s);
    match s.mailbox[0]
    case Exit =>
      assert Works(Queue(s.order, s.handles)) == [] by { assert s.mailbox == [Exit]; }
      assert KeysSound(t) && MailboxSound(c, t);
      hide KeysSound, MailboxSound, NoDuplicates, IdSound;
      forall j ensures IdSound(t, j) { ViewKeeps(s, t, j); }
    case Work(r) => TakeWorkKeeps(c, s, r);
  }

  lemma TakeCancelled(c: Config, s: State, r: Request)
    requires KeysSound(s) && Good(c, s) && Enabled(s, TakeNextStep) && s.mailbox[0] == Work(r)
    requires r.id in s.handles && s.handles[r.id].cancelRequested
    ensures Good(c, TakeNext(s))
  {
    hide Good, KeysSound, MailboxSound, IdSound, RemoveFirst;
    FirstEntry(c, s);
    assert IdSound(s, r.id) by { IdIsSound(c, s, r.id); }
    QueuedCanCancel(s, r.id);
    var h, result := s.handles[r.id].(activity := Finalizing), Result(r.id, None, Cancelled);
    var t := TakeNext(s);
    assert Starts(s, t, r.id, h, result) && t.loop == Joining(Registered(t, r.id), false);
    assert t == s.(handles := t.handles, finishing := t.finishing, tasks := t.tasks, mailbox := s.mailbox[1..], loop := t.loop);
    assert t.handles == s.handles[r.id := h];
    hide TakeNext, Starts;
    FirstGoes(s.mailbox);
    GoodQueue(c, s);
    QueueLeaves(c, s, t, r.id);
    FinishStarts(c, s, t, r.id, h, result);
  }

  lemma IdIsSound(c: Config, s: State, id: Id)
    requires Good(c, s)
    ensures IdSound(s, id)
  {
  }

  lemma FirstGoes<T>(xs: seq<T>)
    requires xs != []
    ensures RemoveFirst(xs, xs[0]) == xs[1..]
  {
  }

  lemma TakeToExecute(c: Config, s: State, r: Request)
    requires KeysSound(s) && Good(c, s) && Enabled(s, TakeNextStep) && s.mailbox[0] == Work(r)
    requires r.id in s.handles && !s.handles[r.id].cancelRequested
    ensures Good(c, TakeNext(s))
  {
    hide KeysSound, MailboxSound, RemoveFirst, NoDuplicates;
    FirstEntry(c, s);
    assert IdSound(s, r.id);
    QueuedCanCancel(s, r.id);
    var t := TakeNext(s);
    assert t == s.(handles := s.handles[r.id := s.handles[r.id].(activity := Preparing)], mailbox := s.mailbox[1..],
                   loop := Executing(r.id, false));
    hide TakeNext;
    FirstGoes(s.mailbox);
    QueueLeaves(c, s, t, r.id);
    StaysSound(s, t, r.id);
    hide IdSound;
    KeepsElsewhere(c, s, t, r.id);
  }

  lemma TakeWorkKeeps(c: Config, s: State, r: Request)
    requires KeysSound(s) && Good(c, s) && Enabled(s, TakeNextStep) && s.mailbox[0] == Work(r)
    ensures Good(c, TakeNext(s))
  {
    hide KeysSound, Good, TakeNext;
    FirstEntry(c, s);
    if s.handles[r.id].cancelRequested { TakeCancelled(c, s, r); } else { TakeToExecute(c, s, r); }
  }

  lemma ExitQueue(c: Config, s: State, t: State)
    requires KeysSound(s) && MailboxSound(c, s) && !s.exitRequested && RequestExit(s) == Ok(t)
    ensures KeysSound(t) && MailboxSound(c, t)
  {
    hide NoDuplicates, Queue;
    QueueSame(s.order, s.handles, t.handles);
  }

  lemma ExitKeeps(c: Config, s: State)
    requires KeysSound(s) && Good(c, s)
    ensures Good(c, Apply(c, s, ExitStep))
  {
    hide Queue, MailboxSound;
    var r := RequestExit(s);
    if r.Ok? && !s.exitRequested {
      var t := r.value;
      ExitQueue(c, s, t);
      hide KeysSound, NoDuplicates, IdSound;
      forall j ensures IdSound(t, j) { ExitAt(s, t, j); }
    }
  }

  lemma ExitAt(s: State, t: State, id: Id)
    requires IdSound(s, id) && !s.exitRequested && RequestExit(s) == Ok(t)
    ensures IdSound(t, id)
  {
    StaysSound(s, t, id);
  }
}
