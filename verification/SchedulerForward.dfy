/** What never goes back: a known handle, the ending of a close, a loop that has failed, and an exit. */
module SchedulerForward {
  import opened Wrappers
  import opened Sequences
  import opened SchedulerSteps
  import opened SchedulerProofs
  import opened SchedulerKeeps
  import opened SchedulerAdmission
  import opened SchedulerRuns
  import opened SchedulerEndings

  // ---------- The closer and the loop ----------

  predicate SameFlags(s: State, t: State) {
    t.exitRequested == s.exitRequested && t.accepting == s.accepting
  }

  lemma FinishBesides(s: State, id: Id, r: Result)
    ensures var t := BeginFinish(s, id, r); t.closer == s.closer && t.loop == s.loop && SameFlags(s, t)
  {
  }

  lemma CancelBesides(s: State, id: Id)
    ensures var t := CancelRequest(s, id); t.closer == s.closer && t.loop == s.loop && SameFlags(s, t)
  {
    hide BeginFinish, RemoveFirst, Cancellable;
    if id in s.handles && Cancellable(s.handles[id]) && s.handles[id].activity == Queued {
      var h := RequestCancel(s.handles[id]);
      var u := s.(handles := s.handles[id := h], mailbox := RemoveFirst(s.mailbox, Work(h.request)));
      FinishBesides(u, id, Result(id, None, Cancelled));
    }
  }

  lemma SubmissionBesides(c: Config, s: State, requests: seq<Request>)
    requires Consistent(s)
    ensures SubmitBatch(c, s, requests).Ok? ==>
              var t := SubmitBatch(c, s, requests).value; t.closer == s.closer && t.loop == s.loop && SameFlags(s, t)
  {
  }

  lemma PublicationBesides(c: Config, s: State, task: Task)
    requires IsTask(s, task) && Progress(s, task).Checked?
    ensures var t := Publish(c, s, task); t.closer == s.closer && t.loop == s.loop && SameFlags(s, t)
  {
    if Joins(s, task.id) { EvictionForgetsOldest(c, Deliver(s, task)); }
  }

  lemma LoopLeavesCloser(s: State, e: Ending, raising: bool)
    ensures s.mailbox != [] ==> TakeNext(s).closer == s.closer && SameFlags(s, TakeNext(s))
    ensures s.loop.Executing? ==> DispatchResume(s, e, raising).closer == s.closer && SameFlags(s, DispatchResume(s, e, raising))
  {
    hide BeginFinish, Resumed;
    if s.mailbox != [] && s.mailbox[0].Work? {
      var id := s.mailbox[0].request.id;
      FinishBesides(s.(mailbox := s.mailbox[1..]), id, Result(id, None, Cancelled));
    }
    if s.loop.Executing? {
      FinishBesides(s, s.loop.id, Result(s.loop.id, if s.loop.id in s.handles then s.handles[s.loop.id].turnId else None, e));
    }
  }

  lemma CloserLeavesLoop(s: State)
    requires Enabled(s, CloseNextStep)
    ensures CloseNext(s).loop == s.loop && SameFlags(s, CloseNext(s))
  {
    hide BeginFinish, RemoveFirst, Awaited, JoinRaises, RequestCancel;
    if s.closer.rest != [] && Joins(s, s.closer.rest[0]) {
      var id := s.closer.rest[0];
      var h := if s.closer.ending == Cancelled then RequestCancel(s.handles[id]) else s.handles[id];
      FinishBesides(s.(handles := s.handles[id := h], mailbox := RemoveFirst(s.mailbox, Work(h.request))), id, Result(id, h.turnId, s.closer.ending));
    }
  }

  predicate MovesCloser(step: Step) {
    step.BeginCloseStep? || step.CloseNextStep? || step.CloseJoinedStep?
  }

  predicate MovesLoop(step: Step) {
    step.TakeNextStep? || step.InterruptIdleStep? || step.ExecutionEndsStep? || step.DispatchResumeStep? || step.DispatchJoinedStep?
  }

  lemma CloserStays(c: Config, s: State, step: Step)
    requires Consistent(s) && Enabled(s, step) && !MovesCloser(step)
    ensures Apply(c, s, step).closer == s.closer
  {
    hide Consistent, SubmitBatch, Publish, CancelRequest, TakeNext, DispatchResume, CloseNext, Check;
    match step
    case SubmitStep(requests) => SubmissionBesides(c, s, requests);
    case CancelStep(id) => CancelBesides(s, id);
    case PublishStep(task) => PublicationBesides(c, s, task);
    case TakeNextStep => LoopLeavesCloser(s, Cancelled, false);
    case DispatchResumeStep(e, raising) => LoopLeavesCloser(s, e, raising);
    case CheckStep(task) => CheckBesides(s, task);
    case _ =>
  }

  lemma CheckBesides(s: State, task: Task)
    requires IsTask(s, task) && Progress(s, task).Pending?
    ensures var t := Check(s, task); t.closer == s.closer && t.loop == s.loop && SameFlags(s, t)
  {
  }

  lemma LoopStays(c: Config, s: State, step: Step)
    requires Consistent(s) && Enabled(s, step) && !MovesLoop(step)
    ensures Apply(c, s, step).loop == s.loop
  {
    hide Consistent, SubmitBatch, Publish, CancelRequest, TakeNext, DispatchResume, CloseNext, Check;
    match step
    case SubmitStep(requests) => SubmissionBesides(c, s, requests);
    case CancelStep(id) => CancelBesides(s, id);
    case PublishStep(task) => PublicationBesides(c, s, task);
    case CloseNextStep => CloserLeavesLoop(s);
    case CheckStep(task) => CheckBesides(s, task);
    case _ =>
  }

  /** A close finishes requests with the ending it was called with. */
  lemma CloseKeepsItsEnding(c: Config, s: State, step: Step)
    requires Consistent(s) && Enabled(s, step) && Apply(c, s, step).closer.Closing?
    ensures var e := Apply(c, s, step).closer.ending; step == BeginCloseStep(e) || (s.closer.Closing? && s.closer.ending == e)
  {
    if !MovesCloser(step) { CloserStays(c, s, step); }
    if step.CloseNextStep? { NextKeepsEnding(s); }
    hide Consistent, SubmitBatch, Publish, CancelRequest, TakeNext, DispatchResume, CloseNext, Check, OnActive, RequestExit;
  }

  lemma NextKeepsEnding(s: State)
    requires Enabled(s, CloseNextStep)
    ensures CloseNext(s).closer.Closing? ==> CloseNext(s).closer.ending == s.closer.ending
  {
    hide BeginFinish, RemoveFirst, Awaited, JoinRaises, RequestCancel;
  }

  // ---------- After a failure, and after an exit ----------

  /** The loop has returned, or is only waiting for a publication before it raises what it has caught. */
  predicate LoopIsOver(s: State) {
    s.loop.Stopped? || (s.loop.Joining? && s.loop.raising)
  }

  /** A dispatch that raises ends the loop, whoever else still has to publish; no request is executed after it. */
  lemma {:induction false} NothingRunsAfterFailure(c: Config, s: State, steps: seq<Step>)
    requires EnabledRun(c, s, steps) && LoopIsOver(s)
    ensures LoopIsOver(Run(c, s, steps))
    decreases |steps|
  {
    if steps != [] {
      LoopStaysOver(c, s, steps[0]);
      hide Apply, Enabled, LoopIsOver;
      NothingRunsAfterFailure(c, Apply(c, s, steps[0]), steps[1..]);
    }
  }

  lemma LoopStaysOver(c: Config, s: State, step: Step)
    requires Consistent(s) && Enabled(s, step) && LoopIsOver(s)
    ensures LoopIsOver(Apply(c, s, step))
  {
    if !MovesLoop(step) { LoopStays(c, s, step); }
    hide Consistent, SubmitBatch, Publish, CancelRequest, TakeNext, DispatchResume, CloseNext, Check, OnActive, RequestExit;
  }

  /** A dispatch ends the loop exactly when it raises; otherwise it goes on, at once or once the publication is over. */
  lemma DispatchEndsLoopExactly(c: Config, s: State, e: Ending, raising: bool)
    requires Good(c, s) && s.loop.Executing?
    ensures var loop := DispatchResume(s, e, raising).loop;
            && (LoopIsOver(DispatchResume(s, e, raising)) <==> raising)
            && (!raising ==> loop.Idle? || (loop.Joining? && !loop.raising))
  {
    OpenOrFinishing(c, s, s.loop.id);
    hide Good;
  }

  /** Every queued request has been asked to stop. */
  predicate QueueIsAsked(s: State) {
    s.exitRequested ==> !s.accepting && forall id :: id in s.handles && s.handles[id].activity == Queued ==> s.handles[id].cancelRequested
  }

  /** Exit asks every request to stop that still can be. */
  lemma ExitAsksEveryone(s: State, t: State)
    requires RequestExit(s) == Ok(t)
    ensures t.exitRequested && (!s.exitRequested ==> !t.accepting)
    ensures !s.exitRequested ==> forall id :: id in s.handles && Cancellable(s.handles[id]) ==> id in t.handles && t.handles[id].cancelRequested
  {
  }

  /** A cancellation is answered with true exactly when the request has now been asked to stop. */
  lemma CancelAsks(c: Config, s: State, id: Id)
    requires Good(c, s) && id in s.handles && Cancellable(s.handles[id])
    ensures id in CancelRequest(s, id).handles && CancelRequest(s, id).handles[id].cancelRequested
  {
    hide RemoveFirst;
  }

  /** A cancelling close asks the request it reaches to stop, if that still can be; a failing one asks nobody. */
  lemma CloseAsks(c: Config, s: State)
    requires Good(c, s) && Enabled(s, CloseNextStep) && s.closer.rest != [] && Joins(s, s.closer.rest[0])
    ensures var id, t := s.closer.rest[0], CloseNext(s);
            id in t.handles && (t.handles[id].cancelRequested <==>
                                  s.handles[id].cancelRequested || (s.closer.ending == Cancelled && Cancellable(s.handles[id])))
  {
    hide RemoveFirst;
  }

  // ---------- What a handle keeps ----------

  /** A known handle only goes forward: its request never changes, its turn and its result stay once set, a cancellation stays asked for. */
  predicate GoesForward(h: Handle, k: Handle) {
    && k.request == h.request && (h.turnId.Some? ==> k.turnId == h.turnId) && (h.cancelRequested ==> k.cancelRequested)
    && (h.activity != Queued ==> k.activity != Queued)
  }

  predicate AllForward(s: State, t: State) {
    forall id :: id in s.handles && id in t.handles ==> GoesForward(s.handles[id], t.handles[id])
  }

  lemma OneForward(s: State, t: State, id: Id, k: Handle)
    requires id in s.handles && GoesForward(s.handles[id], k) && t.handles == s.handles[id := k]
    ensures AllForward(s, t)
  {
  }

  lemma ForwardThen(s: State, t: State, u: State)
    requires AllForward(s, t) && AllForward(t, u) && (forall id :: id in s.handles && id in u.handles ==> id in t.handles)
    ensures AllForward(s, u)
  {
  }

  lemma FinishForward(s: State, id: Id, r: Result)
    ensures AllForward(s, BeginFinish(s, id, r)) && BeginFinish(s, id, r).handles.Keys == s.handles.Keys
  {
  }

  lemma CancelForward(s: State, cancelled: Id)
    ensures AllForward(s, CancelRequest(s, cancelled)) && CancelRequest(s, cancelled).handles.Keys == s.handles.Keys
  {
    hide BeginFinish, RemoveFirst, Cancellable;
    if cancelled in s.handles && Cancellable(s.handles[cancelled]) {
      var h := RequestCancel(s.handles[cancelled]);
      var u := s.(handles := s.handles[cancelled := h], mailbox := RemoveFirst(s.mailbox, Work(h.request)));
      OneForward(s, u, cancelled, h);
      FinishForward(u, cancelled, Result(cancelled, None, Cancelled));
      hide AllForward;
      if s.handles[cancelled].activity == Queued {
        ForwardThen(s, u, BeginFinish(u, cancelled, Result(cancelled, None, Cancelled)));
        SameHandlesForward(s, BeginFinish(u, cancelled, Result(cancelled, None, Cancelled)), CancelRequest(s, cancelled));
      } else {
        SameHandlesForward(s, u, CancelRequest(s, cancelled));
      }
    }
  }

  lemma SameHandlesForward(s: State, t: State, u: State)
    requires AllForward(s, t) && u.handles == t.handles
    ensures AllForward(s, u)
  {
  }

  lemma TakeForward(c: Config, s: State)
    requires Good(c, s) && s.mailbox != []
    ensures AllForward(s, TakeNext(s)) && TakeNext(s).handles.Keys == s.handles.Keys
  {
    FirstEntry(c, s);
    hide Good, BeginFinish, Resumed;
    if s.mailbox[0].Work? {
      var id, t := s.mailbox[0].request.id, s.(mailbox := s.mailbox[1..]);
      FinishForward(t, id, Result(id, None, Cancelled));
      if s.handles[id].cancelRequested {
        SameHandlesForward(s, BeginFinish(t, id, Result(id, None, Cancelled)), TakeNext(s));
      } else {
        OneForward(s, TakeNext(s), id, s.handles[id].(activity := Preparing));
      }
    }
  }

  lemma DispatchForward(s: State, e: Ending, raising: bool)
    requires s.loop.Executing?
    ensures AllForward(s, DispatchResume(s, e, raising)) && DispatchResume(s, e, raising).handles.Keys == s.handles.Keys
  {
    hide BeginFinish, Resumed;
    FinishForward(s, s.loop.id, Result(s.loop.id, if s.loop.id in s.handles then s.handles[s.loop.id].turnId else None, e));
  }

  lemma CloseForward(s: State)
    requires Enabled(s, CloseNextStep)
    ensures AllForward(s, CloseNext(s)) && CloseNext(s).handles.Keys == s.handles.Keys
  {
    hide BeginFinish, RemoveFirst, Awaited, JoinRaises;
    if s.closer.rest != [] && Joins(s, s.closer.rest[0]) {
      var id := s.closer.rest[0];
      var h := if s.closer.ending == Cancelled then RequestCancel(s.handles[id]) else s.handles[id];
      var u := s.(handles := s.handles[id := h], mailbox := RemoveFirst(s.mailbox, Work(h.request)));
      OneForward(s, u, id, h);
      FinishForward(u, id, Result(id, h.turnId, s.closer.ending));
      hide AllForward, RequestCancel;
      ForwardThen(s, u, BeginFinish(u, id, Result(id, h.turnId, s.closer.ending)));
      SameHandlesForward(s, BeginFinish(u, id, Result(id, h.turnId, s.closer.ending)), CloseNext(s));
    }
  }

  lemma PublishForward(c: Config, s: State, task: Task)
    requires Good(c, s) && Enabled(s, PublishStep(task))
    ensures AllForward(s, Publish(c, s, task))
  {
    assert IdSound(s, task.id);
    CheckedIsAwaited(s, task);
    hide Good, IdSound;
    var d := Deliver(s, task);
    EvictionForgetsOldest(c, d);
    hide Evict;
    OneForward(s, d, task.id, d.handles[task.id]);
  }

  lemma SubmissionForward(c: Config, s: State, requests: seq<Request>)
    requires Good(c, s) && Consistent(s)
    ensures AllForward(s, Apply(c, s, SubmitStep(requests)))
  {
    forall id | id in s.handles ensures id in Apply(c, s, SubmitStep(requests)).handles
                                        && Apply(c, s, SubmitStep(requests)).handles[id] == s.handles[id] {
      hide *;
      FinalUnderSubmission(c, s, requests, id);
    }
    hide Apply, Good;
  }

  lemma ActiveForward(c: Config, s: State, step: Step)
    requires Good(c, s) && Consistent(s) && Enabled(s, step) && (step.ActivityStep? || step.BindTurnStep? || step.ExecutionEndsStep?)
    ensures AllForward(s, Apply(c, s, step))
  {
    if s.loop.id in s.handles { StaysActive(c, s); }
    hide Good, Consistent, SubmitBatch, Publish, CancelRequest, TakeNext, DispatchResume, CloseNext, Check;
    if s.loop.id in s.handles { OneForward(s, Apply(c, s, step), s.loop.id, Apply(c, s, step).handles[s.loop.id]); }
  }

  lemma RestForward(c: Config, s: State, step: Step)
    requires Consistent(s) && Enabled(s, step)
    requires step.ExitStep? || step.StopAcceptingStep? || step.LeaveCancelStep? || step.InterruptIdleStep?
             || step.DispatchJoinedStep? || step.BeginCloseStep? || step.CloseJoinedStep? || step.CheckStep?
    ensures AllForward(s, Apply(c, s, step))
  {
    hide Consistent, SubmitBatch, Publish, CancelRequest, TakeNext, DispatchResume, CloseNext, OnActive;
  }

  /** Every step takes every known handle forward. */
  lemma StepGoesForward(c: Config, s: State, step: Step)
    requires Good(c, s) && Consistent(s) && Enabled(s, step)
    ensures AllForward(s, Apply(c, s, step))
  {
    hide Good, Consistent, AllForward, SubmitBatch, Publish, CancelRequest, TakeNext, DispatchResume, CloseNext, Check, OnActive, RequestExit;
    match step
    case SubmitStep(requests) => SubmissionForward(c, s, requests);
    case CancelStep(id) => CancelForward(s, id);
    case TakeNextStep => TakeForward(c, s);
    case DispatchResumeStep(e, raising) => DispatchForward(s, e, raising);
    case CloseNextStep => CloseForward(s);
    case PublishStep(task) => PublishForward(c, s, task);
    case ActivityStep(_) => ActiveForward(c, s, step);
    case BindTurnStep(_) => ActiveForward(c, s, step);
    case ExecutionEndsStep => ActiveForward(c, s, step);
    case _ => RestForward(c, s, step);
  }

  // ---------- After an exit ----------

  lemma ExitStaysRequested(c: Config, s: State, step: Step)
    requires Consistent(s) && Enabled(s, step)
    ensures var t := Apply(c, s, step);
            && (s.exitRequested ==> t.exitRequested) && (t.exitRequested && !s.exitRequested ==> step.ExitStep?)
            && (!s.accepting ==> !t.accepting)
  {
    hide Consistent, SubmitBatch, Publish, CancelRequest, TakeNext, DispatchResume, CloseNext, Check;
    match step
    case SubmitStep(requests) => SubmissionBesides(c, s, requests);
    case CancelStep(id) => CancelBesides(s, id);
    case PublishStep(task) => PublicationBesides(c, s, task);
    case TakeNextStep => LoopLeavesCloser(s, Cancelled, false);
    case DispatchResumeStep(e, raising) => LoopLeavesCloser(s, e, raising);
    case CloseNextStep => CloserLeavesLoop(s);
    case CheckStep(task) => CheckBesides(s, task);
    case _ =>
  }

  lemma NobodyNew(c: Config, s: State, step: Step)
    requires Good(c, s) && Consistent(s) && Enabled(s, step) && !s.accepting
    ensures forall id :: id in Apply(c, s, step).handles ==> id in s.handles
  {
    if step.SubmitStep? {
      hide Good;
    } else if step.PublishStep? {
      assert IdSound(s, step.published.id);
      CheckedIsAwaited(s, step.published);
      hide Good, IdSound;
      EvictionForgetsOldest(c, Deliver(s, step.published));
      hide Evict;
    } else {
      OtherStepsDecideNothing(c, s, step);
      hide Good, Apply, Enabled;
    }
  }

  lemma QueueStaysAsked(c: Config, s: State, step: Step)
    requires Good(c, s) && Consistent(s) && Enabled(s, step) && QueueIsAsked(s)
    ensures QueueIsAsked(Apply(c, s, step))
  {
    var t := Apply(c, s, step);
    ExitStaysRequested(c, s, step);
    StepGoesForward(c, s, step);
    if t.exitRequested && !s.exitRequested {
      ExitAsksEveryone(s, t);
      forall id | id in s.handles && s.handles[id].activity == Queued ensures Cancellable(s.handles[id]) { OpenOrFinishing(c, s, id); }
      hide Good, Cancellable;
    } else if t.exitRequested {
      NobodyNew(c, s, step);
      hide Good, Apply, Enabled;
    }
  }

  lemma {:induction false} QueueIsAskedThroughout(c: Config, s: State, steps: seq<Step>)
    requires Good(c, s) && EnabledRun(c, s, steps) && AllBenign(c, s, steps) && QueueIsAsked(s)
    ensures QueueIsAsked(Run(c, s, steps))
    decreases |steps|
  {
    hide Good, Apply, Enabled, QueueIsAsked, Benign;
    if steps != [] {
      StepExact(c, s, steps[0]);
      QueueStaysAsked(c, s, steps[0]);
      QueueIsAskedThroughout(c, Apply(c, s, steps[0]), steps[1..]);
    }
  }

  /** Once an exit has been requested no further request is executed: what the loop still takes it settles as cancelled. */
  lemma NothingStartsAfterExit(c: Config, steps: seq<Step>)
    requires EnabledRun(c, INITIAL, steps) && AllBenign(c, INITIAL, steps)
    ensures var s := Run(c, INITIAL, steps);
            s.exitRequested && s.mailbox != [] ==>
              !TakeNext(s).loop.Executing?
              && (s.mailbox[0].Work? ==>
                    var id := s.mailbox[0].request.id; DecidedResult(TakeNext(s), id) == Some(Result(id, None, Cancelled)))
  {
    var s := Run(c, INITIAL, steps);
    assert Good(c, s) && QueueIsAsked(s) by {
      hide Good, Run, EnabledRun, AllBenign;
      StartIsGood(c);
      RunKeeps(c, INITIAL, steps);
      QueueIsAskedThroughout(c, INITIAL, steps);
    }
    hide Run, EnabledRun, AllBenign;
    if s.exitRequested && s.mailbox != [] {
      FirstEntry(c, s);
      if s.mailbox[0].Work? {
        var id := s.mailbox[0].request.id;
        OpenOrFinishing(c, s, id);
        TakeDecides(c, s, id);
      }
      hide Good, BeginFinish, DecidedResult;
    }
  }
}
