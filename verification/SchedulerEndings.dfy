/** How a request ends: which step decides its result, with which ending, and that the decision stands. */
module SchedulerEndings {
  import opened Wrappers
  import opened Sequences
  import opened SchedulerSteps
  import opened SchedulerProofs
  import opened SchedulerKeeps
  import opened SchedulerAdmission
  import opened SchedulerRuns

  // ---------- Decided results ----------

  /** The result a known request has, or is certain to get from the publication under way. */
  function DecidedResult(s: State, id: Id): Option<Result> {
    if id !in s.handles then None
    else if Done(s.handles[id]) then s.handles[id].result
    else if InFlight(s, id) then Some(Progress(s, Registered(s, id)).result)
    else None
  }

  /**
   * The result a step gives an undecided request: the ending its dispatch saw, or the close was called with, and the turn it
   * has by then; a cancellation of a queued request, or of the entry the loop takes, has no turn.
   */
  function DecidedBy(s: State, step: Step, id: Id): Option<Result>
    requires id in s.handles
  {
    match step
    case DispatchResumeStep(ending, _) =>
      if s.loop.Executing? && s.loop.id == id then Some(Result(id, s.handles[id].turnId, ending)) else None
    case CancelStep(cancelled) => if cancelled == id && s.handles[id].activity == Queued then Some(Result(id, None, Cancelled)) else None
    case TakeNextStep =>
      if s.mailbox != [] && s.mailbox[0] == Work(s.handles[id].request) && s.handles[id].cancelRequested then Some(Result(id, None, Cancelled))
      else None
    case CloseNextStep =>
      if s.closer.Closing? && s.closer.rest != [] && s.closer.rest[0] == id then Some(Result(id, s.handles[id].turnId, s.closer.ending))
      else None
    case _ => None
  }

  /** The same publications, and handles with the same results. */
  lemma DecidedBesides(s: State, t: State, id: Id)
    requires t.tasks == s.tasks && t.finishing == s.finishing
    requires (id in t.handles <==> id in s.handles) && (id in s.handles ==> t.handles[id].result == s.handles[id].result)
    ensures DecidedResult(t, id) == DecidedResult(s, id)
  {
  }

  lemma FinishDecides(s: State, finished: Id, r: Result, id: Id)
    requires Joins(s, finished) && finished in s.finishing ==> InFlight(s, finished)
    ensures DecidedResult(BeginFinish(s, finished, r), id)
         == if finished == id && Joins(s, id) && id !in s.finishing then Some(r) else DecidedResult(s, id)
  {
  }

  lemma OpenOrFinishing(c: Config, s: State, id: Id)
    requires Good(c, s)
    ensures Joins(s, id) && id in s.finishing ==> InFlight(s, id)
    ensures Joins(s, id) && s.handles[id].activity == Queued ==> id !in s.finishing && Cancellable(s.handles[id])
    ensures id in s.handles && s.handles[id].activity == Queued ==> Joins(s, id)
    ensures InFlight(s, id) ==> Joins(s, id)
  {
    assert IdSound(s, id);
    if id in s.finishing { assert IsTask(s, Registered(s, id)) ==> TaskSound(s, Registered(s, id)); }
  }

  lemma CancelDecides(c: Config, s: State, cancelled: Id, id: Id)
    requires Good(c, s)
    ensures DecidedResult(CancelRequest(s, cancelled), id)
         == if Joins(s, id) && cancelled == id && s.handles[id].activity == Queued then Some(Result(id, None, Cancelled)) else DecidedResult(s, id)
  {
    OpenOrFinishing(c, s, cancelled);
    hide Good, RemoveFirst, BeginFinish, DecidedResult, Cancellable, InFlight;
    if cancelled in s.handles && Cancellable(s.handles[cancelled]) && s.handles[cancelled].activity == Queued {
      var h := RequestCancel(s.handles[cancelled]);
      var u := s.(handles := s.handles[cancelled := h], mailbox := RemoveFirst(s.mailbox, Work(h.request)));
      DecidedBesides(s, u, id);
      FinishDecides(u, cancelled, Result(cancelled, None, Cancelled), id);
      DecidedBesides(BeginFinish(u, cancelled, Result(cancelled, None, Cancelled)), CancelRequest(s, cancelled), id);
    } else {
      DecidedBesides(s, CancelRequest(s, cancelled), id);
    }
  }

  lemma TakeDecides(c: Config, s: State, id: Id)
    requires Good(c, s) && s.mailbox != []
    ensures DecidedResult(TakeNext(s), id)
         == if Joins(s, id) && s.mailbox[0] == Work(s.handles[id].request) && s.handles[id].cancelRequested
            then Some(Result(id, None, Cancelled)) else DecidedResult(s, id)
  {
    FirstEntry(c, s);
    GoodIsConsistent(c, s);
    if s.mailbox[0].Work? { OpenOrFinishing(c, s, s.mailbox[0].request.id); }
    hide Good, BeginFinish, Resumed, DecidedResult, Cancellable, InFlight, NoDuplicates, Consistent;
    if s.mailbox[0].Work? && s.handles[s.mailbox[0].request.id].cancelRequested {
      var taken, t := s.mailbox[0].request.id, s.(mailbox := s.mailbox[1..]);
      var r := Result(taken, None, Cancelled);
      DecidedBesides(s, t, id);
      FinishDecides(t, taken, r, id);
      DecidedBesides(BeginFinish(t, taken, r), TakeNext(s), id);
    } else {
      DecidedBesides(s, TakeNext(s), id);
    }
  }

  lemma DispatchDecides(c: Config, s: State, e: Ending, raising: bool, id: Id)
    requires Good(c, s) && s.loop.Executing?
    ensures DecidedResult(DispatchResume(s, e, raising), id)
         == if Joins(s, id) && s.loop.id == id && DecidedResult(s, id).None? then Some(Result(id, s.handles[id].turnId, e)) else DecidedResult(s, id)
  {
    var ended := s.loop.id;
    OpenOrFinishing(c, s, ended);
    assert Joins(s, ended) ==> (DecidedResult(s, ended).None? <==> ended !in s.finishing);
    hide Good, BeginFinish, Resumed, DecidedResult, InFlight;
    var r := Result(ended, if ended in s.handles then s.handles[ended].turnId else None, e);
    FinishDecides(s, ended, r, id);
    DecidedBesides(BeginFinish(s, ended, r), DispatchResume(s, e, raising), id);
  }

  lemma CloseDecides(c: Config, s: State, id: Id)
    requires Good(c, s) && Enabled(s, CloseNextStep)
    ensures DecidedResult(CloseNext(s), id)
         == if Joins(s, id) && s.closer.rest != [] && s.closer.rest[0] == id && DecidedResult(s, id).None?
            then Some(Result(id, s.handles[id].turnId, s.closer.ending)) else DecidedResult(s, id)
  {
    if s.closer.rest != [] {
      OpenOrFinishing(c, s, s.closer.rest[0]);
      assert Joins(s, s.closer.rest[0]) ==> (DecidedResult(s, s.closer.rest[0]).None? <==> s.closer.rest[0] !in s.finishing);
    }
    hide Good, BeginFinish, DecidedResult, InFlight, RemoveFirst, Awaited, JoinRaises;
    if s.closer.rest != [] && Joins(s, s.closer.rest[0]) {
      var closed := s.closer.rest[0];
      var h := if s.closer.ending == Cancelled then RequestCancel(s.handles[closed]) else s.handles[closed];
      var u := s.(handles := s.handles[closed := h], mailbox := RemoveFirst(s.mailbox, Work(h.request)));
      var r := Result(closed, h.turnId, s.closer.ending);
      DecidedBesides(s, u, id);
      SameFlight(s, u, closed);
      FinishDecides(u, closed, r, id);
      DecidedBesides(BeginFinish(u, closed, r), CloseNext(s), id);
    } else {
      DecidedBesides(s, CloseNext(s), id);
    }
  }

  lemma SameFlight(s: State, t: State, id: Id)
    requires t.tasks == s.tasks && t.finishing == s.finishing
    ensures InFlight(t, id) <==> InFlight(s, id)
  {
  }

  /** A publication that passes its check, or is delivered, keeps its result. */
  lemma CheckDecidesNothing(c: Config, s: State, task: Task, id: Id)
    requires Good(c, s) && Enabled(s, CheckStep(task))
    ensures DecidedResult(Check(s, task), id) == DecidedResult(s, id) && Check(s, task).handles == s.handles
  {
    GoodIsConsistent(c, s);
    CheckKeeps(c, s, task);
    hide Good, Check;
  }

  lemma DeliverDecidesNothing(c: Config, s: State, task: Task, id: Id)
    requires Good(c, s) && Enabled(s, PublishStep(task))
    ensures Joins(s, task.id) && DecidedResult(Deliver(s, task), id) == DecidedResult(s, id)
  {
    assert IdSound(s, task.id);
    CheckedIsAwaited(s, task);
    hide Good;
  }

  // ---------- Forgetting ----------

  /** Only the oldest completions are forgotten, and only as many as exceed the number retained. */
  lemma {:induction false} EvictionForgetsOldest(c: Config, s: State)
    ensures var t, over := Evict(c, s), if |s.completed| > c.retained then |s.completed| - c.retained else 0;
            && t == s.(completed := s.completed[over..], handles := t.handles, order := t.order)
            && (forall id :: id in t.handles <==> id in s.handles && id !in s.completed[..over])
            && (forall id :: id in t.handles ==> t.handles[id] == s.handles[id])
    decreases |s.completed|
  {
    hide RemoveFirst;
    if |s.completed| > c.retained {
      var u, over := EvictOldest(s), |s.completed| - c.retained;
      EvictionForgetsOldest(c, u);
      assert s.completed[..over] == [s.completed[0]] + u.completed[..over - 1];
      assert u.completed[over - 1..] == s.completed[over..];
    } else {
      assert s.completed[0..] == s.completed && s.completed[..0] == [];
    }
  }

  lemma PublishDecidesNothing(c: Config, s: State, task: Task, id: Id)
    requires Good(c, s) && Enabled(s, PublishStep(task))
    ensures var t := Publish(c, s, task);
            && (id in t.handles ==> DecidedResult(t, id) == DecidedResult(s, id))
            && (id !in t.handles ==> id !in s.handles || DecidedResult(s, id).Some?)
            && (id !in s.handles ==> id !in t.handles)
            && (c.retained > 0 ==> task.id in t.handles && t.handles[task.id].result == Some(Progress(s, task).result))
  {
    assert IdSound(s, task.id);
    CheckedIsAwaited(s, task);
    DeliverDecidesNothing(c, s, task, id);
    DeliverKeeps(c, s, task);
    var d := Deliver(s, task);
    EvictionForgetsOldest(c, d);
    DoneAreForgotten(c, d, id);
    if c.retained > 0 { LastIsRetained(c, d); }
    hide Good, Evict, IdSound;
    var t := Evict(c, d);
    if id in t.handles { DecidedBesides(d.(handles := t.handles), t, id); DecidedBesides(d, t, id); }
  }

  lemma DoneAreForgotten(c: Config, d: State, id: Id)
    requires Good(Config(c.capacity, c.retained + 1), d)
    ensures id in d.completed ==> id in d.handles && Done(d.handles[id])
  {
  }

  lemma LastIsRetained(c: Config, d: State)
    requires Good(Config(c.capacity, c.retained + 1), d) && d.completed != [] && c.retained > 0
    ensures var over := if |d.completed| > c.retained then |d.completed| - c.retained else 0;
            d.completed[|d.completed| - 1] !in d.completed[..over]
  {
  }

  // ---------- Every step ----------

  lemma UnjoinDecidesNothing(c: Config, s: State, t: State, task: Task, id: Id)
    requires Good(c, s) && Awaiting(s, task) && !Live(s, task)
    requires t.handles == s.handles && t.tasks == s.tasks && t.finishing == s.finishing - {task.id}
    ensures DecidedResult(t, id) == DecidedResult(s, id)
  {
    assert IdSound(s, task.id);
    NobodyLeavesOpen(s, task);
  }

  lemma SubmissionDecidesNothing(c: Config, s: State, requests: seq<Request>, id: Id)
    requires Good(c, s) && Consistent(s)
    ensures var t := Apply(c, s, SubmitStep(requests)); DecidedResult(t, id) == DecidedResult(s, id) && (id in s.handles ==> id in t.handles)
  {
    OpenOrFinishing(c, s, id);
    if id in s.handles { FinalUnderSubmission(c, s, requests, id); }
    GoodIsConsistent(c, s);
    hide Good, Queue, FirstNew, SubmitBatch, NoDuplicates, Admissible;
    BatchAcceptedExactly(c, s, requests);
    FirstNewIsFresh(s.handles, requests);
    AddedHandles(s.handles, FirstNew(s.handles, requests));
    NewAreOpen(s.handles, FirstNew(s.handles, requests), id);
  }

  lemma NewAreOpen(handles: map<Id, Handle>, rs: seq<Request>, id: Id)
    requires Fresh(handles, rs)
    ensures id !in handles && id in AddHandles(handles, rs) ==> !Done(AddHandles(handles, rs)[id])
  {
    AddedHandles(handles, rs);
    hide AddHandles;
    if id in Ids(rs) {
      var i :| 0 <= i < |rs| && Ids(rs)[i] == id;
      assert AddHandles(handles, rs)[rs[i].id] == NewHandle(rs[i]);
    }
  }

  lemma QuietDecidesNothing(c: Config, s: State, step: Step, id: Id)
    requires Good(c, s) && Consistent(s) && Enabled(s, step)
    requires step.ExitStep? || step.StopAcceptingStep? || step.InterruptIdleStep? || step.ActivityStep? || step.BindTurnStep?
             || step.ExecutionEndsStep? || step.BeginCloseStep?
    ensures var t := Apply(c, s, step); DecidedResult(t, id) == DecidedResult(s, id) && t.handles.Keys == s.handles.Keys
  {
    hide Good, Consistent, DecidedResult, SubmitBatch, Publish, CancelRequest, TakeNext, DispatchResume, CloseNext, Check;
    QuietLeavesTasks(c, s, step);
    OtherStepsDecideNothing(c, s, step);
    hide Apply, Enabled;
    DecidedBesides(s, Apply(c, s, step), id);
  }

  lemma QuietLeavesTasks(c: Config, s: State, step: Step)
    requires Consistent(s) && Enabled(s, step)
    requires step.ExitStep? || step.StopAcceptingStep? || step.InterruptIdleStep? || step.ActivityStep? || step.BindTurnStep?
             || step.ExecutionEndsStep? || step.BeginCloseStep?
    ensures var t := Apply(c, s, step); t.tasks == s.tasks && t.finishing == s.finishing
  {
    hide Consistent, SubmitBatch, Publish, CancelRequest, TakeNext, DispatchResume, CloseNext, Check;
  }

  lemma JoinedDecidesNothing(c: Config, s: State, step: Step, id: Id)
    requires Good(c, s) && Consistent(s) && Enabled(s, step)
    requires step.LeaveCancelStep? || step.DispatchJoinedStep? || step.CloseJoinedStep?
    ensures var t := Apply(c, s, step); DecidedResult(t, id) == DecidedResult(s, id) && t.handles == s.handles
  {
    hide Good, Consistent, DecidedResult, SubmitBatch, Publish, CancelRequest, TakeNext, DispatchResume, CloseNext, Check, OnActive, RequestExit;
    var task := if step.LeaveCancelStep? then step.left else if step.DispatchJoinedStep? then s.loop.task else s.closer.current.value;
    UnjoinDecidesNothing(c, s, Apply(c, s, step), task, id);
  }

  /** What a step may do to the decision about one request. */
  predicate Decides(s: State, step: Step, id: Id, t: State) {
    && (DecidedResult(s, id).Some? && id in t.handles ==> DecidedResult(t, id) == DecidedResult(s, id))
    && (DecidedResult(s, id).None? && id in s.handles ==> id in t.handles && DecidedResult(t, id) == DecidedBy(s, step, id))
    && (id !in s.handles ==> DecidedResult(t, id).None?)
  }

  lemma DecidesNothing(s: State, step: Step, id: Id, t: State)
    requires !step.DispatchResumeStep? && !step.CancelStep? && !step.TakeNextStep? && !step.CloseNextStep?
    requires id in t.handles || id !in s.handles ==> DecidedResult(t, id) == DecidedResult(s, id)
    requires id in s.handles && DecidedResult(s, id).None? ==> id in t.handles
    ensures Decides(s, step, id, t)
  {
    UndecidedIsOpen(s, id);
    hide DecidedResult;
  }

  lemma CancelStepDecides(c: Config, s: State, cancelled: Id, id: Id)
    requires Good(c, s)
    ensures Decides(s, CancelStep(cancelled), id, CancelRequest(s, cancelled))
  {
    OpenOrFinishing(c, s, id);
    UndecidedIsOpen(s, id);
    CancelDecides(c, s, cancelled, id);
    CancelDecidesNothing(s, cancelled);
    DecidedStays(c, s, id);
    hide Good, CancelRequest, DecidedResult, InFlight, Cancellable;
  }

  lemma TakeStepDecides(c: Config, s: State, id: Id)
    requires Good(c, s) && s.mailbox != []
    ensures Decides(s, TakeNextStep, id, TakeNext(s))
  {
    FirstEntry(c, s);
    OpenOrFinishing(c, s, id);
    UndecidedIsOpen(s, id);
    TakeDecides(c, s, id);
    TakeDecidesNothing(s);
    DecidedStays(c, s, id);
    hide Good, TakeNext, DecidedResult, InFlight, Cancellable;
  }

  lemma DispatchStepDecides(c: Config, s: State, e: Ending, raising: bool, id: Id)
    requires Good(c, s) && s.loop.Executing?
    ensures Decides(s, DispatchResumeStep(e, raising), id, DispatchResume(s, e, raising))
  {
    UndecidedIsOpen(s, id);
    DispatchDecides(c, s, e, raising, id);
    DispatchDecidesNothing(s, e, raising);
    hide Good, DispatchResume, DecidedResult;
  }

  lemma CloseStepDecides(c: Config, s: State, id: Id)
    requires Good(c, s) && Enabled(s, CloseNextStep)
    ensures Decides(s, CloseNextStep, id, CloseNext(s))
  {
    UndecidedIsOpen(s, id);
    CloseDecides(c, s, id);
    CloserDecidesNothing(s);
    hide Good, CloseNext, DecidedResult;
  }

  lemma DecidedStays(c: Config, s: State, id: Id)
    requires Good(c, s)
    ensures id in s.handles && s.handles[id].activity == Queued ==> DecidedResult(s, id).None?
  {
    OpenOrFinishing(c, s, id);
    hide Good;
  }

  /**
   * For every step from a good state: a decided result stays until the request is forgotten, and an undecided request is
   * decided exactly by the steps that are meant to, with exactly their ending. Nothing undecided is forgotten.
   */
  lemma StepDecides(c: Config, s: State, step: Step, id: Id)
    requires Good(c, s) && Consistent(s) && Enabled(s, step)
    ensures Decides(s, step, id, Apply(c, s, step))
  {
    hide Good, Consistent, DecidedResult, Decides, SubmitBatch, Publish, CancelRequest, TakeNext, DispatchResume, CloseNext, Check,
         OnActive, RequestExit, Joins;
    match step
    case CancelStep(cancelled) => CancelStepDecides(c, s, cancelled, id);
    case TakeNextStep => TakeStepDecides(c, s, id);
    case DispatchResumeStep(e, raising) => DispatchStepDecides(c, s, e, raising, id);
    case CloseNextStep => CloseStepDecides(c, s, id);
    case _ => OtherStepDecides(c, s, step, id);
  }

  lemma OtherStepDecides(c: Config, s: State, step: Step, id: Id)
    requires Good(c, s) && Consistent(s) && Enabled(s, step)
    requires !step.DispatchResumeStep? && !step.CancelStep? && !step.TakeNextStep? && !step.CloseNextStep?
    ensures Decides(s, step, id, Apply(c, s, step))
  {
    hide Good, Consistent, DecidedResult, Decides, SubmitBatch, Publish, Check, OnActive, RequestExit, Joins, TakeNext, DispatchResume, CloseNext, CancelRequest;
    UndecidedIsOpen(s, id);
    if step.SubmitStep? {
      SubmissionDecidesNothing(c, s, step.requests, id);
    } else if step.PublishStep? {
      PublishDecidesNothing(c, s, step.published, id);
    } else if step.CheckStep? {
      CheckDecidesNothing(c, s, step.checked, id);
    } else if step.LeaveCancelStep? || step.DispatchJoinedStep? || step.CloseJoinedStep? {
      JoinedDecidesNothing(c, s, step, id);
    } else {
      QuietDecidesNothing(c, s, step, id);
    }
    UndecidedIsOpen(Apply(c, s, step), id);
    DecidesNothing(s, step, id, Apply(c, s, step));
  }

  lemma UndecidedIsOpen(s: State, id: Id)
    ensures id in s.handles && DecidedResult(s, id).None? ==> Joins(s, id)
    ensures id !in s.handles ==> DecidedResult(s, id).None?
    ensures Joins(s, id) ==> id in s.handles
  {
  }

  // ---------- Runs ----------

  /** A run and one more step. */
  lemma {:induction false} RunFront(c: Config, s: State, front: seq<Step>, last: Step)
    requires EnabledRun(c, s, front + [last])
    ensures EnabledRun(c, s, front) && Consistent(Run(c, s, front)) && Enabled(Run(c, s, front), last)
    ensures Run(c, s, front + [last]) == Apply(c, Run(c, s, front), last)
    ensures AllBenign(c, s, front + [last]) ==> AllBenign(c, s, front)
    decreases |front|
  {
    hide Apply, Enabled, Consistent, Benign;
    if front == [] {
      assert front + [last] == [last] && [last][1..] == [];
    } else {
      assert (front + [last])[0] == front[0] && (front + [last])[1..] == front[1..] + [last];
      RunFront(c, Apply(c, s, front[0]), front[1..], last);
    }
  }

  /**
   * Every result comes from a decision of the run: if a request has been given a result, some step of the run gave it that
   * very result, ending and turn, when it had none.
   */
  lemma {:induction false} EveryResultWasDecided(c: Config, steps: seq<Step>, id: Id, r: Result) returns (i: nat)
    requires EnabledRun(c, INITIAL, steps) && AllBenign(c, INITIAL, steps)
    requires DecidedResult(Run(c, INITIAL, steps), id) == Some(r)
    ensures i < |steps| && EnabledRun(c, INITIAL, steps[..i])
    ensures var s := Run(c, INITIAL, steps[..i]);
            DecidedResult(s, id).None? && id in s.handles && DecidedBy(s, steps[i], id) == Some(r)
    decreases |steps|
  {
    hide Good, Run, EnabledRun, AllBenign, Apply, Enabled, DecidedResult, DecidedBy;
    NothingDecidedAtFirst(c, id);
    i := |steps| - 1;
    var front, last := steps[..i], steps[i];
    assert steps == front + [last];
    RunFront(c, INITIAL, front, last);
    var s := Run(c, INITIAL, front);
    StartIsGood(c);
    RunKeeps(c, INITIAL, front);
    StepDecides(c, s, last, id);
    UndecidedIsOpen(Run(c, INITIAL, steps), id);
    if DecidedResult(s, id) == Some(r) {
      i := EveryResultWasDecided(c, front, id, r);
      assert steps[..i] == front[..i];
    }
  }

  lemma NothingDecidedAtFirst(c: Config, id: Id)
    ensures DecidedResult(INITIAL, id).None? && Run(c, INITIAL, []) == INITIAL
  {
  }

  /** The request is known in every state of the run. */
  predicate KnownThroughout(c: Config, s: State, steps: seq<Step>, id: Id)
    requires EnabledRun(c, s, steps)
    decreases |steps|
  {
    id in s.handles && (steps == [] || KnownThroughout(c, Apply(c, s, steps[0]), steps[1..], id))
  }

  /** A decision stands: over every run through which the request is known, its result is the one first decided. */
  lemma {:induction false} DecisionStands(c: Config, s: State, steps: seq<Step>, id: Id, r: Result)
    requires Good(c, s) && EnabledRun(c, s, steps) && AllBenign(c, s, steps) && KnownThroughout(c, s, steps, id)
    requires DecidedResult(s, id) == Some(r)
    ensures var t := Run(c, s, steps);
            DecidedResult(t, id) == Some(r) && id in t.handles && (Done(t.handles[id]) ==> t.handles[id].result == Some(r))
    decreases |steps|
  {
    if steps != [] {
      hide Good, Apply, Enabled, DecidedResult, Benign;
      StepExact(c, s, steps[0]);
      StepDecides(c, s, steps[0], id);
      DecisionStands(c, Apply(c, s, steps[0]), steps[1..], id, r);
    }
  }

  /** What a dispatch saw is what its request ends with, however long its publication takes and whoever joins it. */
  lemma DispatchedEndingIsDelivered(c: Config, s: State, e: Ending, raising: bool, steps: seq<Step>)
    requires Good(c, s) && Consistent(s) && Enabled(s, DispatchResumeStep(e, raising))
    requires Joins(s, s.loop.id) && DecidedResult(s, s.loop.id).None?
    requires var t := Apply(c, s, DispatchResumeStep(e, raising));
             EnabledRun(c, t, steps) && AllBenign(c, t, steps) && KnownThroughout(c, t, steps, s.loop.id)
    ensures var id, h := s.loop.id, Run(c, Apply(c, s, DispatchResumeStep(e, raising)), steps).handles;
            id in h && (Done(h[id]) ==> h[id].result == Some(Result(id, s.handles[id].turnId, e)))
  {
    hide Good, DecidedResult, DispatchResume, Run, EnabledRun, KnownThroughout, AllBenign;
    var t := Apply(c, s, DispatchResumeStep(e, raising));
    DispatchDecides(c, s, e, raising, s.loop.id);
    BenignDispatch(c, s, e, raising);
    DecisionStands(c, t, steps, s.loop.id, Result(s.loop.id, s.handles[s.loop.id].turnId, e));
  }

  lemma BenignDispatch(c: Config, s: State, e: Ending, raising: bool)
    requires Good(c, s) && Consistent(s) && Enabled(s, DispatchResumeStep(e, raising))
    ensures Good(c, Apply(c, s, DispatchResumeStep(e, raising)))
  {
    GoodIsConsistent(c, s);
    hide Good;
    DispatchResumeKeeps(c, s, e, raising);
  }
}
