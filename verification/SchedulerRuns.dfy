/** What holds in every state a run of the scheduler reaches, and the two races in which it does not. */
module SchedulerRuns {
  import opened Wrappers
  import opened Sequences
  import opened SchedulerSteps
  import opened SchedulerProofs
  import opened SchedulerKeeps
  import opened SchedulerAdmission

  lemma GoodIsConsistent(c: Config, s: State)
    requires Good(c, s)
    ensures KeysSound(s) && Consistent(s)
  {
  }

  lemma GoodStaysSound(c: Config, s: State)
    ensures Good(c, s) ==> KeysSound(s) && MailboxSound(c, s)
  {
  }

  lemma NoClosingSubmission(c: Config, s: State, step: Step)
    requires Consistent(s)
    requires !step.SubmitStep? && !step.BindTurnStep?
    ensures Benign(c, s, step)
  {
  }

  /** From a good state a step leads to a good state exactly when it is not one of the two races. */
  lemma StepExact(c: Config, s: State, step: Step)
    requires Good(c, s) && Consistent(s) && Enabled(s, step)
    ensures Good(c, Apply(c, s, step)) <==> Benign(c, s, step)
  {
    hide Good, Benign, KeysSound, Consistent, CancelRequest, TakeNext, DispatchResume, CloseNext, Check, Publish, SubmitBatch, RequestExit;
    GoodIsConsistent(c, s);
    if !step.SubmitStep? && !step.BindTurnStep? { NoClosingSubmission(c, s, step); }
    match step
    case SubmitStep(requests) => SubmitExact(c, s, requests);
    case ExitStep => ExitKeeps(c, s);
    case StopAcceptingStep => StopAcceptingKeeps(c, s);
    case CancelStep(id) => CancelKeeps(c, s, id);
    case LeaveCancelStep(task) => LeaveCancelKeeps(c, s, task);
    case TakeNextStep => TakeNextKeeps(c, s);
    case InterruptIdleStep => InterruptIdleKeeps(c, s);
    case ActivityStep(a) => ActivityKeeps(c, s, a);
    case BindTurnStep(turn) => BindTurnExact(c, s, turn);
    case ExecutionEndsStep => ExecutionEndsKeeps(c, s);
    case DispatchResumeStep(e, raising) => DispatchResumeKeeps(c, s, e, raising);
    case DispatchJoinedStep(interrupted) => DispatchJoinedKeeps(c, s, interrupted);
    case BeginCloseStep(e) => BeginCloseKeeps(c, s, e);
    case CloseNextStep => CloseNextKeeps(c, s);
    case CloseJoinedStep(interrupted) => CloseJoinedKeeps(c, s, interrupted);
    case CheckStep(task) => CheckKeeps(c, s, task);
    case PublishStep(task) => PublishKeeps(c, s, task);
  }

  lemma StartIsGood(c: Config)
    ensures Good(c, INITIAL)
  {
    assert forall id :: IdSound(INITIAL, id);
  }

  lemma {:induction false} RunKeeps(c: Config, s: State, steps: seq<Step>)
    requires Good(c, s) && EnabledRun(c, s, steps) && AllBenign(c, s, steps)
    ensures Good(c, Run(c, s, steps))
    decreases |steps|
  {
    hide Good, Benign, Apply, Enabled;
    if steps != [] {
      StepExact(c, s, steps[0]);
      RunKeeps(c, Apply(c, s, steps[0]), steps[1..]);
    }
  }

  // ---------- The queue ----------

  /** The mailbox without the exit. */
  function WorkIn(mailbox: seq<Entry>): seq<Request> {
    if mailbox == [] then [] else (if mailbox[0].Work? then [mailbox[0].request] else []) + WorkIn(mailbox[1..])
  }

  lemma {:induction false} WorkOfWorks(queue: seq<Request>, tail: seq<Entry>)
    requires WorkIn(tail) == []
    ensures WorkIn(Works(queue) + tail) == queue
  {
    if queue == [] {
      assert Works(queue) + tail == tail;
    } else {
      assert (Works(queue) + tail)[1..] == Works(queue[1..]) + tail;
      WorkOfWorks(queue[1..], tail);
    }
  }

  /**
   * In every state a run without the two races reaches, the requests waiting in the mailbox are those of the queued
   * handles, each once and in acceptance order, and never more than the capacity.
   */
  lemma QueueIsConserved(c: Config, steps: seq<Step>)
    requires EnabledRun(c, INITIAL, steps) && AllBenign(c, INITIAL, steps)
    ensures var s := Run(c, INITIAL, steps);
            && Consistent(s) && WorkIn(s.mailbox) == Queue(s.order, s.handles) && |WorkIn(s.mailbox)| <= c.capacity
            && forall r :: r in WorkIn(s.mailbox) <==> r.id in s.handles && s.handles[r.id].activity == Queued && s.handles[r.id].request == r
  {
    var s := Run(c, INITIAL, steps);
    assert Good(c, s) by { hide *; StartIsGood(c); RunKeeps(c, INITIAL, steps); }
    hide Run, EnabledRun, AllBenign;
    var queue := Queue(s.order, s.handles);
    assert Works(queue) + [] == Works(queue);
    WorkOfWorks(queue, []);
    assert [Exit][1..] == [];
    WorkOfWorks(queue, [Exit]);
    hide Queue, NoDuplicates;
    forall r ensures r in queue <==> r.id in s.handles && s.handles[r.id].activity == Queued && s.handles[r.id].request == r {
      QueueMember(s.order, s.handles, r);
    }
  }

  /** The first request of the mailbox has no publication. */
  lemma NothingRegistered(c: Config, s: State)
    requires Good(c, s) && s.mailbox != []
    ensures s.mailbox[0].Work? ==> s.mailbox[0].request.id !in s.finishing
  {
    FirstEntry(c, s);
    if s.mailbox[0].Work? {
      assert IdSound(s, s.mailbox[0].request.id);
      hide Good, IdSound;
      QueuedCanCancel(s, s.mailbox[0].request.id);
    }
  }

  /** Taking the next entry executes or settles a queued request, or stops at an exit with nobody queued. */
  lemma StopsOnExitOnly(c: Config, s: State)
    requires Good(c, s) && s.mailbox != []
    ensures s.mailbox[0].Work? ==> s.mailbox[0].request.id in s.handles && s.handles[s.mailbox[0].request.id].activity == Queued
    ensures TakeNext(s).loop.Stopped? ==>
              s.mailbox[0].Exit? && forall id :: id in TakeNext(s).handles ==> TakeNext(s).handles[id].activity != Queued
  {
    FirstEntry(c, s);
    NothingRegistered(c, s);
    hide Good;
  }

  /** The loop ends on an exit only when nobody is left queued, and its next entry is otherwise a queued handle's own. */
  lemma ExitLeavesNobodyQueued(c: Config, steps: seq<Step>)
    requires EnabledRun(c, INITIAL, steps) && AllBenign(c, INITIAL, steps)
    ensures var s := Run(c, INITIAL, steps);
            s.mailbox != [] && s.mailbox[0].Exit? ==>
              !s.accepting && forall id :: id in TakeNext(s).handles ==> TakeNext(s).handles[id].activity != Queued
    ensures var s := Run(c, INITIAL, steps);
            s.loop.Idle? && s.mailbox != [] && s.mailbox[0].Work? ==> !TakeNext(s).loop.Stopped?
  {
    var s := Run(c, INITIAL, steps);
    assert Good(c, s) by { hide *; StartIsGood(c); RunKeeps(c, INITIAL, steps); }
    hide Run, EnabledRun, AllBenign;
    if s.mailbox != [] {
      FirstEntry(c, s);
      NothingRegistered(c, s);
    }
  }

  lemma HeadOfWorks(queue: seq<Request>, mailbox: seq<Entry>)
    requires queue != [] && (mailbox == Works(queue) || mailbox == Works(queue) + [Exit])
    ensures mailbox[0] == Work(queue[0])
    ensures mailbox[1..] == Works(queue[1..]) || mailbox[1..] == Works(queue[1..]) + [Exit]
  {
  }

  /** First come, first served: the loop takes the request accepted first of those still queued, and the others keep their order. */
  lemma ServedInOrder(c: Config, s: State)
    requires Good(c, s) && Consistent(s) && Enabled(s, TakeNextStep) && Queue(s.order, s.handles) != []
    ensures var first, t := Queue(s.order, s.handles)[0], TakeNext(s);
            && first.id in s.handles && s.handles[first.id].request == first && Consistent(t)
            && Queue(t.order, t.handles) == Queue(s.order, s.handles)[1..]
            && (t.loop == Executing(first.id, false) <==> !s.handles[first.id].cancelRequested)
  {
    GoodIsConsistent(c, s);
    TakeNextKeeps(c, s);
    GoodIsConsistent(c, TakeNext(s));
    GoodStaysSound(c, TakeNext(s));
    GoodStaysSound(c, s);
    var queue, t := Queue(s.order, s.handles), TakeNext(s);
    HeadOfWorks(queue, s.mailbox);
    FirstEntry(c, s);
    StopsOnExitOnly(c, s);
    TakenMailbox(s);
    SameWorks(queue[1..], Queue(t.order, t.handles), t.mailbox);
    hide Good, Queue, KeysSound, MailboxSound, NoDuplicates, BeginFinish;
  }

  lemma TakenMailbox(s: State)
    requires s.mailbox != []
    ensures TakeNext(s).mailbox == s.mailbox[1..]
  {
  }

  lemma SameWorks(a: seq<Request>, b: seq<Request>, mailbox: seq<Entry>)
    requires mailbox == Works(a) || mailbox == Works(a) + [Exit]
    requires mailbox == Works(b) || mailbox == Works(b) + [Exit]
    ensures a == b
  {
    WorkOfWorks(a, []);
    WorkOfWorks(b, []);
    WorkOfWorks(a, [Exit]);
    WorkOfWorks(b, [Exit]);
    assert Works(a) + [] == Works(a) && Works(b) + [] == Works(b) && [Exit][1..] == [];
  }

  // ---------- Each accepted request gets one result ----------

  function Outstanding(s: State, id: Id): nat {
    if id in s.handles && !Done(s.handles[id]) then 1 else 0
  }

  function Accepted(c: Config, s: State, step: Step, id: Id): nat
    requires Consistent(s)
  {
    if step.SubmitStep? && SubmitBatch(c, s, step.requests).Ok? && id in Ids(FirstNew(s.handles, step.requests)) then 1 else 0
  }

  function Delivered(step: Step, id: Id): nat {
    if step.PublishStep? && step.published.id == id then 1 else 0
  }

  function AcceptedIn(c: Config, s: State, steps: seq<Step>, id: Id): nat
    requires EnabledRun(c, s, steps)
    decreases |steps|
  {
    if steps == [] then 0 else Accepted(c, s, steps[0], id) + AcceptedIn(c, Apply(c, s, steps[0]), steps[1..], id)
  }

  function DeliveredIn(steps: seq<Step>, id: Id): nat {
    if steps == [] then 0 else Delivered(steps[0], id) + DeliveredIn(steps[1..], id)
  }

  lemma {:induction false} EvictionForgetsOnlyDone(c: Config, s: State, id: Id, n: nat)
    requires Good(Config(c.capacity, n), s)
    ensures Outstanding(Evict(c, s), id) == Outstanding(s, id)
    ensures id in Evict(c, s).handles ==> id in s.handles && Evict(c, s).handles[id] == s.handles[id]
    decreases |s.completed|
  {
    hide Good;
    if |s.completed| > c.retained {
      EvictionKeeps(Config(c.capacity, n), s);
      EvictionForgetsOnlyDone(c, EvictOldest(s), id, n);
    }
  }

  lemma SubmissionBalance(c: Config, s: State, requests: seq<Request>, id: Id)
    requires Good(c, s) && Consistent(s)
    ensures Outstanding(Apply(c, s, SubmitStep(requests)), id) == Outstanding(s, id) + Accepted(c, s, SubmitStep(requests), id)
  {
    hide Good, Queue, FirstNew, SubmitBatch, NoDuplicates, Admissible;
    GoodIsConsistent(c, s);
    BatchAcceptedExactly(c, s, requests);
    var rs := FirstNew(s.handles, requests);
    FirstNewIsFresh(s.handles, requests);
    AddedHandles(s.handles, rs);
    hide AddHandles;
    if id in Ids(rs) {
      var i :| 0 <= i < |rs| && Ids(rs)[i] == id;
      assert AddHandles(s.handles, rs)[rs[i].id] == NewHandle(rs[i]);
    }
  }

  lemma PublicationBalance(c: Config, s: State, published: Task, id: Id)
    requires Good(c, s) && Consistent(s) && Enabled(s, PublishStep(published))
    ensures Outstanding(s, id) == Outstanding(Apply(c, s, PublishStep(published)), id) + Delivered(PublishStep(published), id)
  {
    DeliverKeeps(c, s, published);
    hide Good;
    EvictionForgetsOnlyDone(c, Deliver(s, published), id, c.retained + 1);
  }

  predicate SameResults(s: State, t: State) {
    t.handles.Keys == s.handles.Keys && forall id :: id in s.handles ==> t.handles[id].result == s.handles[id].result
  }

  lemma BeginFinishDecidesNothing(s: State, id: Id, r: Result)
    ensures SameResults(s, BeginFinish(s, id, r))
  {
  }

  lemma CancelDecidesNothing(s: State, id: Id)
    ensures SameResults(s, CancelRequest(s, id))
  {
    hide RemoveFirst, Cancellable, BeginFinish;
    if id in s.handles && Cancellable(s.handles[id]) && s.handles[id].activity == Queued {
      var h := RequestCancel(s.handles[id]);
      var u := s.(handles := s.handles[id := h], mailbox := RemoveFirst(s.mailbox, Work(h.request)));
      BeginFinishDecidesNothing(u, id, Result(id, None, Cancelled));
    }
  }

  lemma SameHandles(s: State, t: State, u: State)
    requires SameResults(s, t) && u.handles == t.handles
    ensures SameResults(s, u)
  {
  }

  lemma TakeDecidesNothing(s: State)
    requires s.mailbox != []
    ensures SameResults(s, TakeNext(s))
  {
    hide BeginFinish, Resumed;
    if s.mailbox[0].Work? && s.mailbox[0].request.id in s.handles {
      var id, t := s.mailbox[0].request.id, s.(mailbox := s.mailbox[1..]);
      BeginFinishDecidesNothing(t, id, Result(id, None, Cancelled));
      if s.handles[id].cancelRequested {
        hide SameResults;
        SameHandles(s, BeginFinish(t, id, Result(id, None, Cancelled)), TakeNext(s));
      }
    }
  }

  lemma DispatchDecidesNothing(s: State, e: Ending, raising: bool)
    requires s.loop.Executing?
    ensures SameResults(s, DispatchResume(s, e, raising))
  {
    hide BeginFinish, Resumed;
    var turnId := if s.loop.id in s.handles then s.handles[s.loop.id].turnId else None;
    BeginFinishDecidesNothing(s, s.loop.id, Result(s.loop.id, turnId, e));
  }

  lemma CloserDecidesNothing(s: State)
    requires s.closer.Closing? && s.closer.current.None?
    ensures SameResults(s, CloseNext(s))
  {
    hide RemoveFirst, BeginFinish;
    var c := s.closer;
    if c.rest != [] && Joins(s, c.rest[0]) {
      var id := c.rest[0];
      var h := if c.ending == Cancelled then RequestCancel(s.handles[id]) else s.handles[id];
      var u := s.(handles := s.handles[id := h], mailbox := RemoveFirst(s.mailbox, Work(h.request)));
      BeginFinishDecidesNothing(u, id, Result(id, h.turnId, c.ending));
    }
  }

  lemma ActiveDecidesNothing(c: Config, s: State, step: Step)
    requires Consistent(s) && Enabled(s, step) && (step.ActivityStep? || step.BindTurnStep? || step.ExecutionEndsStep?)
    ensures SameResults(s, Apply(c, s, step))
  {
    hide Consistent, SubmitBatch, Publish, CancelRequest, TakeNext, DispatchResume, CloseNext, Check, RequestExit;
  }

  lemma RestDecidesNothing(c: Config, s: State, step: Step)
    requires Consistent(s) && Enabled(s, step)
    requires step.ExitStep? || step.StopAcceptingStep? || step.LeaveCancelStep? || step.InterruptIdleStep?
             || step.DispatchJoinedStep? || step.BeginCloseStep? || step.CloseJoinedStep? || step.CheckStep?
    ensures SameResults(s, Apply(c, s, step))
  {
    hide Consistent, SubmitBatch, Publish, CancelRequest, TakeNext, DispatchResume, CloseNext, OnActive;
  }

  /** Only a publication decides a result, and only an accepted batch or an eviction changes who is known. */
  lemma OtherStepsDecideNothing(c: Config, s: State, step: Step)
    requires Consistent(s) && Enabled(s, step) && !step.SubmitStep? && !step.PublishStep?
    ensures SameResults(s, Apply(c, s, step))
  {
    hide Consistent, SameResults, SubmitBatch, Publish, CancelRequest, TakeNext, DispatchResume, CloseNext, Check, OnActive, RequestExit;
    if step.CancelStep? {
      CancelDecidesNothing(s, step.cancelled);
    } else if step.TakeNextStep? {
      TakeDecidesNothing(s);
    } else if step.DispatchResumeStep? {
      DispatchDecidesNothing(s, step.ending, step.raising);
    } else if step.CloseNextStep? {
      CloserDecidesNothing(s);
    } else if step.ActivityStep? || step.BindTurnStep? || step.ExecutionEndsStep? {
      ActiveDecidesNothing(c, s, step);
    } else {
      RestDecidesNothing(c, s, step);
    }
  }

  lemma StepBalance(c: Config, s: State, step: Step, id: Id)
    requires Good(c, s) && Consistent(s) && Enabled(s, step)
    ensures Outstanding(s, id) + Accepted(c, s, step, id) == Outstanding(Apply(c, s, step), id) + Delivered(step, id)
  {
    hide Good, Apply, Enabled, SubmitBatch, FirstNew;
    if step.SubmitStep? {
      SubmissionBalance(c, s, step.requests, id);
    } else if step.PublishStep? {
      PublicationBalance(c, s, step.published, id);
    } else {
      OtherStepsDecideNothing(c, s, step);
    }
  }

  /**
   * Exactly one result each, whichever of dispatch, cancellation and close decided it: over a run without the two races
   * an identity's acceptances are its results plus, if it is known and not done, the one still owed.
   */
  lemma {:induction false} ResultsBalance(c: Config, s: State, steps: seq<Step>, id: Id)
    requires Good(c, s) && EnabledRun(c, s, steps) && AllBenign(c, s, steps)
    ensures Outstanding(s, id) + AcceptedIn(c, s, steps, id) == Outstanding(Run(c, s, steps), id) + DeliveredIn(steps, id)
    decreases |steps|
  {
    hide Good, Benign, Apply, Enabled, Accepted, Delivered, Outstanding;
    if steps != [] {
      StepExact(c, s, steps[0]);
      StepBalance(c, s, steps[0], id);
      ResultsBalance(c, Apply(c, s, steps[0]), steps[1..], id);
    }
  }

  /** Once a close has run to its end every request ever accepted has got its one result. */
  lemma CloseSettlesEverything(c: Config, steps: seq<Step>, id: Id)
    requires EnabledRun(c, INITIAL, steps) && AllBenign(c, INITIAL, steps)
    ensures var s := Run(c, INITIAL, steps);
            s.closer.Closed? ==>
              && AcceptedIn(c, INITIAL, steps, id) == DeliveredIn(steps, id)
              && (id in s.handles ==> Done(s.handles[id]) && s.handles[id].result.value.requestId == id
                                      && s.handles[id].result.value.turnId == s.handles[id].turnId)
  {
    var s := Run(c, INITIAL, steps);
    assert Good(c, s) by { hide *; StartIsGood(c); RunKeeps(c, INITIAL, steps); }
    assert Outstanding(INITIAL, id) + AcceptedIn(c, INITIAL, steps, id) == Outstanding(s, id) + DeliveredIn(steps, id) by {
      hide *;
      StartIsGood(c);
      ResultsBalance(c, INITIAL, steps, id);
    }
    hide Run, EnabledRun, AllBenign, AcceptedIn, DeliveredIn, MailboxSound, KeysSound, CompletedSound;
    assert IdSound(s, id);
  }

  /** A result never changes while its handle is retained. */
  lemma ResultsAreFinal(c: Config, s: State, step: Step, id: Id)
    requires Good(c, s) && Consistent(s) && Enabled(s, step) && id in s.handles && Done(s.handles[id])
    ensures id in Apply(c, s, step).handles ==> Apply(c, s, step).handles[id].result == s.handles[id].result
  {
    if step.SubmitStep? {
      hide *;
      FinalUnderSubmission(c, s, step.requests, id);
    } else if step.PublishStep? {
      var published := step.published;
      assert IdSound(s, published.id);
      DeliverKeeps(c, s, published);
      hide Good, Evict;
      EvictionForgetsOnlyDone(c, Deliver(s, published), id, c.retained + 1);
    } else {
      hide Good, Apply, Enabled;
      OtherStepsDecideNothing(c, s, step);
    }
  }

  lemma FinalUnderSubmission(c: Config, s: State, requests: seq<Request>, id: Id)
    requires Good(c, s) && Consistent(s) && id in s.handles
    ensures var t := Apply(c, s, SubmitStep(requests)); id in t.handles && t.handles[id] == s.handles[id]
  {
    hide Good, Queue, FirstNew, SubmitBatch, NoDuplicates, Admissible;
    GoodIsConsistent(c, s);
    BatchAcceptedExactly(c, s, requests);
    FirstNewIsFresh(s.handles, requests);
    AddedHandles(s.handles, FirstNew(s.handles, requests));
    hide AddHandles;
  }

  // ---------- Resubmission ----------

  lemma {:induction false} NothingNew(handles: map<Id, Handle>, requests: seq<Request>)
    requires forall r :: r in requests ==> r.id in handles
    ensures FirstNew(handles, requests) == []
    decreases |requests|
  {
    if requests != [] { NothingNew(handles, requests[..|requests| - 1]); }
  }

  /** A batch whose requests are all retained, with the same content, is accepted again and changes nothing. */
  lemma RetainedBatchIsIdempotent(c: Config, s: State, requests: seq<Request>)
    requires KeysSound(s) && MailboxSound(c, s) && s.accepting
    requires forall r :: r in requests ==> Acceptable(r) && r.id in s.handles && s.handles[r.id].request == r
    ensures SubmitBatch(c, s, requests) == Ok(s)
  {
    hide Queue, NoDuplicates, FirstNew, SubmitBatch;
    BatchAcceptedExactly(c, s, requests);
    NothingNew(s.handles, requests);
    assert Install(s, []) == s;
  }

  /** After an accepted batch each of its requests is known under its identity with its own content. */
  lemma AcceptedAreKnown(c: Config, s: State, requests: seq<Request>)
    requires KeysSound(s) && MailboxSound(c, s) && SubmitBatch(c, s, requests).Ok?
    ensures var t := SubmitBatch(c, s, requests).value;
            && KeysSound(t) && MailboxSound(c, t) && t.accepting
            && forall r :: r in requests ==> Acceptable(r) && r.id in t.handles && t.handles[r.id].request == r
  {
    hide Queue, NoDuplicates, FirstNew, SubmitBatch, MailboxSound;
    BatchAcceptedExactly(c, s, requests);
    var rs := FirstNew(s.handles, requests);
    var t := Install(s, rs);
    FirstNewIsFresh(s.handles, requests);
    InstallQueue(c, s, rs);
    AddedHandles(s.handles, rs);
    hide AddHandles, KeysSound;
    forall r | r in requests ensures r.id in t.handles && t.handles[r.id].request == r {
      if r.id !in s.handles {
        FindFirstNew(s.handles, requests, r.id);
        var i :| 0 <= i < |requests| && requests[i] == r;
        assert Ids(requests)[i] == r.id;
        FindOrNot(requests, r.id);
        var q := FindRequest(rs, r.id).value;
        var k :| 0 <= k < |rs| && rs[k] == q;
        assert t.handles[rs[k].id] == NewHandle(rs[k]);
      } else {
        assert r.id !in Ids(rs);
      }
    }
  }

  /** Submitting an accepted batch a second time returns the handles of the first. */
  lemma ResubmissionChangesNothing(c: Config, s: State, requests: seq<Request>)
    requires KeysSound(s) && MailboxSound(c, s) && SubmitBatch(c, s, requests).Ok?
    ensures var t := SubmitBatch(c, s, requests).value; Consistent(t) && SubmitBatch(c, t, requests) == Ok(t)
  {
    hide MailboxSound, NoDuplicates, SubmitBatch;
    AcceptedAreKnown(c, s, requests);
    RetainedBatchIsIdempotent(c, SubmitBatch(c, s, requests).value, requests);
  }
}
