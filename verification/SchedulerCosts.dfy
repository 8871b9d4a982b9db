/** What the two races cost: from a good state exactly they can leave a request undecided or a result with the wrong turn. */
module SchedulerCosts {
  import opened Wrappers
  import opened Sequences
  import opened SchedulerSteps
  import opened SchedulerProofs
  import opened SchedulerKeeps
  import opened SchedulerAdmission
  import opened SchedulerRuns

  // ---------- Adrift: nothing under way will decide the request ----------

  predicate InMailbox(s: State, id: Id) {
    exists e :: e in s.mailbox && e.Work? && e.request.id == id
  }

  /** Accepted and undecided, but neither waiting in the mailbox nor executing, with no publication registered or running. */
  ghost predicate Adrift(s: State, id: Id) {
    && KeysSound(s) && Joins(s, id) && id !in s.completed
    && !InMailbox(s, id) && !IsExecuting(s, id) && id !in s.finishing && forall n: nat :: !Live(s, Task(id, n))
  }

  /** The step cancels this very request, or is the turn of a close to finish it. */
  predicate Takes(s: State, step: Step, id: Id) {
    step == CancelStep(id) || (step.CloseNextStep? && s.closer.Closing? && s.closer.rest != [] && s.closer.rest[0] == id)
  }

  /** What a step must leave alone for an adrift request to stay so. */
  ghost predicate Untouched(s: State, t: State, id: Id) {
    && KeysSound(t) && (id in t.completed ==> id in s.completed) && (InMailbox(t, id) ==> InMailbox(s, id))
    && (IsExecuting(t, id) ==> IsExecuting(s, id)) && (id in t.finishing ==> id in s.finishing) && TasksOf(t, id) == TasksOf(s, id)
    && (id in s.handles ==> id in t.handles && t.handles[id].result == s.handles[id].result)
  }

  lemma UntouchedStaysAdrift(s: State, t: State, id: Id)
    requires Adrift(s, id) && Untouched(s, t, id)
    ensures Adrift(t, id)
  {
    hide KeysSound, InMailbox;
    assert forall n: nat :: Live(t, Task(id, n)) <==> Live(s, Task(id, n));
  }

  lemma RemovedFromMailbox(mailbox: seq<Entry>, e: Entry, id: Id, s: State, t: State)
    requires s.mailbox == mailbox && t.mailbox == RemoveFirst(mailbox, e)
    ensures InMailbox(t, id) ==> InMailbox(s, id)
  {
    hide RemoveFirst;
    RemoveFirstMembers(mailbox, e);
  }

  lemma UntouchedThen(s: State, u: State, t: State, id: Id)
    requires Untouched(s, u, id) && Untouched(u, t, id)
    ensures Untouched(s, t, id)
  {
    hide KeysSound, InMailbox;
  }

  /** Who is suspended where does not matter. */
  lemma UntouchedBesides(s: State, u: State, t: State, id: Id)
    requires Untouched(s, u, id) && t == u.(joiners := t.joiners, loop := t.loop, closer := t.closer, accepting := t.accepting)
    requires IsExecuting(t, id) ==> IsExecuting(u, id)
    ensures Untouched(s, t, id)
  {
    hide NoDuplicates;
  }

  /** A completion of another identity. */
  lemma OtherFinish(s: State, other: Id, r: Result, id: Id)
    requires KeysSound(s) && other != id
    ensures Untouched(s, BeginFinish(s, other, r), id)
  {
    hide Untouched, KeysSound, StartTask, Unjoin, Live;
    NothingDone(s, other, id);
    if Joins(s, other) { OtherStarts(s, other, r, id); }
  }

  lemma NothingDone(s: State, other: Id, id: Id)
    requires KeysSound(s)
    ensures Untouched(s, s, id) && Untouched(s, Unjoin(s, other), id)
  {
    hide NoDuplicates, InMailbox;
    SameMailbox(s, s, id);
    SameMailbox(s, Unjoin(s, other), id);
  }

  lemma OtherStarts(s: State, other: Id, r: Result, id: Id)
    requires KeysSound(s) && other in s.handles && other != id
    ensures Untouched(s, StartTask(s, other, r), id)
  {
    hide NoDuplicates, InMailbox;
    SameMailbox(s, StartTask(s, other, r), id);
  }

  /** Another handle is told to stop, and leaves the mailbox, before its completion. */
  lemma OtherLeaves(s: State, u: State, other: Id, h: Handle, id: Id)
    requires KeysSound(s) && other != id && other in s.handles && h.request == s.handles[other].request
    requires u == s.(handles := s.handles[other := h], mailbox := RemoveFirst(s.mailbox, Work(h.request)))
    ensures Untouched(s, u, id)
  {
    hide NoDuplicates, RemoveFirst;
    RemovedFromMailbox(s.mailbox, Work(h.request), id, s, u);
  }

  lemma OtherFinished(s: State, u: State, t: State, other: Id, h: Handle, r: Result, id: Id)
    requires KeysSound(s) && other != id && other in s.handles && h.request == s.handles[other].request
    requires u == s.(handles := s.handles[other := h], mailbox := RemoveFirst(s.mailbox, Work(h.request)))
    requires t == BeginFinish(u, other, r).(joiners := t.joiners, closer := t.closer)
    ensures Untouched(s, t, id)
  {
    hide KeysSound, Untouched, BeginFinish, RemoveFirst;
    OtherLeaves(s, u, other, h, id);
    StillKeys(s, u, id);
    OtherFinish(u, other, r, id);
    UntouchedThen(s, u, BeginFinish(u, other, r), id);
    UntouchedBesides(s, BeginFinish(u, other, r), t, id);
  }

  lemma StillKeys(s: State, t: State, id: Id)
    requires Untouched(s, t, id)
    ensures KeysSound(t)
  {
  }

  lemma {:induction false} OtherEviction(c: Config, s: State, id: Id)
    requires KeysSound(s) && id !in s.completed
    ensures Untouched(s, Evict(c, s), id)
    decreases |s.completed|
  {
    hide NoDuplicates, RemoveFirst;
    if |s.completed| > c.retained {
      RemoveFirstMembers(s.order, s.completed[0]);
      OtherEviction(c, EvictOldest(s), id);
    }
  }

  lemma OtherPublication(c: Config, s: State, task: Task, id: Id)
    requires KeysSound(s) && id !in s.completed && task.id != id && IsTask(s, task) && Progress(s, task).Checked?
    ensures Untouched(s, Publish(c, s, task), id)
  {
    hide NoDuplicates, Evict;
    if Joins(s, task.id) {
      var d := Deliver(s, task);
      assert Untouched(s, d, id);
      hide Deliver;
      OtherEviction(c, d, id);
    }
  }

  lemma OtherCancel(s: State, other: Id, id: Id)
    requires KeysSound(s) && other != id
    ensures Untouched(s, CancelRequest(s, other), id)
  {
    if other in s.handles && Cancellable(s.handles[other]) && s.handles[other].activity == Queued {
      hide KeysSound, RemoveFirst, BeginFinish, Untouched;
      var h := RequestCancel(s.handles[other]);
      var u := s.(handles := s.handles[other := h], mailbox := RemoveFirst(s.mailbox, Work(h.request)));
      OtherFinished(s, u, CancelRequest(s, other), other, h, Result(other, None, Cancelled), id);
    } else {
      hide NoDuplicates, BeginFinish;
    }
  }

  lemma OtherClose(s: State, id: Id)
    requires KeysSound(s) && Enabled(s, CloseNextStep) && !Takes(s, CloseNextStep, id)
    ensures Untouched(s, CloseNext(s), id)
  {
    var c := s.closer;
    if c.rest != [] && Joins(s, c.rest[0]) {
      hide KeysSound, RemoveFirst, BeginFinish, Untouched;
      var other := c.rest[0];
      var h := if c.ending == Cancelled then RequestCancel(s.handles[other]) else s.handles[other];
      var u := s.(handles := s.handles[other := h], mailbox := RemoveFirst(s.mailbox, Work(h.request)));
      OtherFinished(s, u, CloseNext(s), other, h, Result(other, h.turnId, c.ending), id);
    } else {
      hide NoDuplicates, BeginFinish;
    }
  }

  lemma OtherTaken(s: State, id: Id)
    requires KeysSound(s) && !InMailbox(s, id) && s.mailbox != []
    ensures Untouched(s, TakeNext(s), id)
  {
    var t := s.(mailbox := s.mailbox[1..]);
    FirstTaken(s, t, id);
    hide Untouched, KeysSound, BeginFinish, Resumed, InMailbox;
    if s.mailbox[0].Work? && s.mailbox[0].request.id in s.handles {
      var other := s.mailbox[0].request.id;
      if s.handles[other].cancelRequested {
        var u := BeginFinish(t, other, Result(other, None, Cancelled));
        OtherFinish(t, other, Result(other, None, Cancelled), id);
        UntouchedThen(s, t, u, id);
        UntouchedBesides(s, u, TakeNext(s), id);
      } else if s.handles[other].activity == Queued {
        OtherHandle(s, t, TakeNext(s), other, id);
      } else {
        UntouchedBesides(s, t, TakeNext(s), id);
      }
    } else {
      UntouchedBesides(s, t, TakeNext(s), id);
    }
  }

  lemma FirstTaken(s: State, t: State, id: Id)
    requires KeysSound(s) && !InMailbox(s, id) && s.mailbox != [] && t == s.(mailbox := s.mailbox[1..])
    ensures Untouched(s, t, id) && KeysSound(t)
    ensures s.mailbox[0].Work? ==> s.mailbox[0].request.id != id
  {
    hide NoDuplicates;
    assert s.mailbox == [s.mailbox[0]] + t.mailbox;
    assert s.mailbox[0] in s.mailbox;
  }

  /** Another handle starts executing. */
  lemma OtherHandle(s: State, t: State, u: State, other: Id, id: Id)
    requires Untouched(s, t, id) && other != id && other in t.handles
    requires u == t.(handles := u.handles, loop := u.loop) && (IsExecuting(u, id) ==> IsExecuting(t, id))
    requires other in u.handles && u.handles == t.handles[other := u.handles[other]] && u.handles[other].request == t.handles[other].request
    ensures Untouched(s, u, id)
  {
    hide NoDuplicates, InMailbox;
    assert InMailbox(u, id) ==> InMailbox(t, id) by { SameMailbox(t, u, id); }
  }

  lemma SameMailbox(s: State, t: State, id: Id)
    requires s.mailbox == t.mailbox
    ensures InMailbox(t, id) ==> InMailbox(s, id)
  {
  }

  lemma OtherDispatch(s: State, e: Ending, raising: bool, id: Id)
    requires KeysSound(s) && s.loop.Executing? && s.loop.id != id
    ensures Untouched(s, DispatchResume(s, e, raising), id)
  {
    hide NoDuplicates, BeginFinish, Resumed;
    OtherFinish(s, s.loop.id, Result(s.loop.id, if s.loop.id in s.handles then s.handles[s.loop.id].turnId else None, e), id);
  }

  lemma OtherSubmission(c: Config, s: State, requests: seq<Request>, id: Id)
    requires KeysSound(s) && id in s.handles
    ensures Untouched(s, Apply(c, s, SubmitStep(requests)), id)
  {
    hide NoDuplicates, FirstNew, Queue, SubmitBatch;
    BatchAcceptedExactly(c, s, requests);
    if SubmitBatch(c, s, requests).Ok? {
      var rs := FirstNew(s.handles, requests);
      FirstNewIsFresh(s.handles, requests);
      InstallKeys(s, rs);
      AddedHandles(s.handles, rs);
      NotInstalled(s, rs, id);
    }
  }

  lemma NotInstalled(s: State, rs: seq<Request>, id: Id)
    requires Fresh(s.handles, rs) && id in s.handles
    ensures id !in Ids(rs) && (InMailbox(Install(s, rs), id) ==> InMailbox(s, id))
  {
    hide NoDuplicates;
    var t := Install(s, rs);
    forall k | 0 <= k < |rs| ensures rs[k].id != id { assert Ids(rs)[k] in Ids(rs); }
    forall e | e in Works(rs) && e.Work? ensures e.request.id != id {
      var k :| 0 <= k < |rs| && Works(rs)[k] == e;
    }
  }

  lemma OtherActive(c: Config, s: State, step: Step, id: Id)
    requires KeysSound(s) && Enabled(s, step) && (step.ActivityStep? || step.BindTurnStep? || step.ExecutionEndsStep?) && s.loop.id != id
    ensures Untouched(s, Apply(c, s, step), id)
  {
    hide SubmitBatch, Publish, CancelRequest, TakeNext, DispatchResume, CloseNext, Check, RequestExit;
    hide NoDuplicates, InMailbox;
    var t := Apply(c, s, step);
    assert Untouched(s, s, id) by { SameMailbox(s, s, id); }
    hide Untouched, KeysSound;
    if s.loop.id in s.handles {
      OtherHandle(s, s, t, s.loop.id, id);
    } else {
      UntouchedBesides(s, s, t, id);
    }
  }

  lemma OtherRest(c: Config, s: State, step: Step, id: Id)
    requires KeysSound(s) && Enabled(s, step)
    requires step.ExitStep? || step.StopAcceptingStep? || step.LeaveCancelStep? || step.InterruptIdleStep? || step.DispatchJoinedStep?
             || step.BeginCloseStep? || step.CloseJoinedStep? || (step.CheckStep? && step.checked.id != id)
    ensures Untouched(s, Apply(c, s, step), id)
  {
    hide NoDuplicates, SubmitBatch, Publish, CancelRequest, TakeNext, DispatchResume, CloseNext, OnActive;
    assert forall e :: e in s.mailbox + [Exit] ==> e in s.mailbox || e == Exit;
  }

  /** Only a later cancellation of this request, or a later close, takes an adrift request up again. */
  lemma AdriftStays(c: Config, s: State, step: Step, id: Id)
    requires Adrift(s, id) && Enabled(s, step) && !Takes(s, step, id)
    ensures Adrift(Apply(c, s, step), id)
  {
    assert Consistent(s);
    hide KeysSound, Consistent, InMailbox, Untouched, SubmitBatch, Publish, CancelRequest, TakeNext, DispatchResume, CloseNext, Check, OnActive, RequestExit;
    if step.SubmitStep? {
      OtherSubmission(c, s, step.requests, id);
    } else if step.CancelStep? {
      OtherCancel(s, step.cancelled, id);
    } else if step.TakeNextStep? {
      OtherTaken(s, id);
    } else if step.ActivityStep? || step.BindTurnStep? || step.ExecutionEndsStep? {
      OtherActive(c, s, step, id);
    } else if step.DispatchResumeStep? {
      OtherDispatch(s, step.ending, step.raising, id);
    } else if step.CloseNextStep? {
      OtherClose(s, id);
    } else if step.PublishStep? {
      assert Task(step.published.id, step.published.number) == step.published;
      OtherPublication(c, s, step.published, id);
    } else {
      if step.CheckStep? { assert Task(step.checked.id, step.checked.number) == step.checked; }
      OtherRest(c, s, step, id);
    }
    UntouchedStaysAdrift(s, Apply(c, s, step), id);
  }

  predicate NeverTaken(c: Config, s: State, steps: seq<Step>, id: Id)
    requires EnabledRun(c, s, steps)
    decreases |steps|
  {
    steps == [] || (!Takes(s, steps[0], id) && NeverTaken(c, Apply(c, s, steps[0]), steps[1..], id))
  }

  /** Without such a cancellation or close it stays undecided, whatever else happens and however long. */
  lemma {:induction false} AdriftForever(c: Config, s: State, steps: seq<Step>, id: Id)
    requires Adrift(s, id) && EnabledRun(c, s, steps) && NeverTaken(c, s, steps, id)
    ensures Adrift(Run(c, s, steps), id)
    decreases |steps|
  {
    hide Adrift, Takes, Apply, Enabled;
    if steps != [] {
      AdriftStays(c, s, steps[0], id);
      AdriftForever(c, Apply(c, s, steps[0]), steps[1..], id);
    }
  }

  /** The registered publication passes its check, and delivers its result. */
  predicate WillSettle(s: State, id: Id) {
    && InFlight(s, id) && Progress(s, Registered(s, id)).Pending?
    && var task := Registered(s, id);
       var checked := Check(s, task);
       && Progress(checked, task) == Checked(Progress(s, task).result)
       && id in checked.handles && Done(Deliver(checked, task).handles[id])
       && Deliver(checked, task).handles[id].result == Some(Progress(s, task).result)
  }

  lemma StartedSettles(s: State, id: Id, r: Result)
    requires Joins(s, id) && r.requestId == id
    ensures WillSettle(StartTask(s, id, r), id) <==> r.turnId == s.handles[id].turnId
  {
  }

  /** A close settles an adrift request when its turn comes. */
  lemma CloseSettlesAdrift(s: State, id: Id)
    requires Adrift(s, id) && Enabled(s, CloseNextStep) && Takes(s, CloseNextStep, id)
    ensures WillSettle(CloseNext(s), id)
  {
    hide KeysSound, InMailbox, RemoveFirst, StartTask, WillSettle;
    var c := s.closer;
    var h := if c.ending == Cancelled then RequestCancel(s.handles[id]) else s.handles[id];
    var u := s.(handles := s.handles[id := h], mailbox := RemoveFirst(s.mailbox, Work(h.request)));
    StartedSettles(u, id, Result(id, h.turnId, c.ending));
    SameSettling(BeginFinish(u, id, Result(id, h.turnId, c.ending)), CloseNext(s), id);
  }

  lemma SameSettling(s: State, t: State, id: Id)
    requires t.handles == s.handles && t.tasks == s.tasks && t.finishing == s.finishing
    ensures WillSettle(s, id) <==> WillSettle(t, id)
  {
  }

  /** A second cancellation settles it exactly while it still counts as queued, without a turn; once started it stays adrift. */
  lemma CancelSettlesAdrift(s: State, id: Id)
    requires Adrift(s, id)
    ensures var queued := s.handles[id].activity == Queued && !s.handles[id].taskEnded;
            && (WillSettle(CancelRequest(s, id), id) <==> queued && s.handles[id].turnId.None?)
            && (!queued ==> Adrift(CancelRequest(s, id), id))
  {
    hide InMailbox, RemoveFirst, StartTask, WillSettle, NoDuplicates;
    var t := CancelRequest(s, id);
    if s.handles[id].activity == Queued && !s.handles[id].taskEnded {
      var h := RequestCancel(s.handles[id]);
      var u := s.(handles := s.handles[id := h], mailbox := RemoveFirst(s.mailbox, Work(h.request)));
      StartedSettles(u, id, Result(id, None, Cancelled));
      SameSettling(BeginFinish(u, id, Result(id, None, Cancelled)), t, id);
    } else {
      assert t == s.(handles := t.handles);
      hide CancelRequest;
      StillAdrift(s, t, id);
    }
  }

  lemma StillAdrift(s: State, t: State, id: Id)
    requires Adrift(s, id) && t == s.(handles := t.handles)
    requires id in t.handles && t.handles == s.handles[id := s.handles[id].(cancelRequested := t.handles[id].cancelRequested)]
    ensures Adrift(t, id) && !WillSettle(t, id)
  {
    hide NoDuplicates;
  }

  // ---------- What each race costs ----------

  /** Cancelling the queued request answers that it was cancelled, and leaves it adrift. */
  ghost predicate Strands(s: State, id: Id) {
    id in s.handles && s.handles[id].activity == Queued && Cancellable(s.handles[id]) && Adrift(CancelRequest(s, id), id)
  }

  /** Cancelling the queued request starts a publication that a caller of the earlier one may take off the table. */
  ghost predicate Unregisters(s: State, id: Id) {
    && id in s.handles && s.handles[id].activity == Queued && WillSettle(CancelRequest(s, id), id)
    && exists n: nat :: Awaiting(s, Task(id, n)) && !Live(s, Task(id, n))
  }

  /** A publication under way will be refused. */
  ghost predicate Refuses(s: State, id: Id) {
    exists n: nat :: IsTask(s, Task(id, n)) && Progress(s, Task(id, n)).Pending? && WasRefused(Check(s, Task(id, n)), Task(id, n))
  }

  /** A result that is delivered, or certain to be, names another turn than the request's. */
  ghost predicate Misnames(s: State, id: Id) {
    && id in s.handles
    && ((Done(s.handles[id]) && s.handles[id].result.value.turnId != s.handles[id].turnId)
        || exists n: nat :: IsTask(s, Task(id, n)) && Progress(s, Task(id, n)).Checked?
                            && Progress(s, Task(id, n)).result.turnId != s.handles[id].turnId)
  }

  ghost predicate Harmed(s: State, id: Id) {
    Strands(s, id) || Unregisters(s, id) || Refuses(s, id) || Misnames(s, id)
  }

  lemma GoodIsUnharmed(c: Config, s: State, id: Id)
    requires Good(c, s)
    ensures !Harmed(s, id)
  {
    assert IdSound(s, id);
    hide Good, MailboxSound;
    if id in s.handles && s.handles[id].activity == Queued {
      QueuedIsUnharmed(s, id);
    }
    forall n: nat | IsTask(s, Task(id, n)) ensures TaskSound(s, Task(id, n)) {}
  }

  lemma QueuedIsUnharmed(s: State, id: Id)
    requires IdSound(s, id) && id in s.handles && s.handles[id].activity == Queued
    ensures !Strands(s, id) && !Unregisters(s, id)
  {
    hide CancelRequest, KeysSound, WillSettle, RemoveFirst;
    CancelledState(s, id);
    QueuedCanCancel(s, id);
    hide IdSound;
    assert id in CancelRequest(s, id).finishing;
    assert IdSound(s, id);
    NobodyAwaits(s, id);
  }

  /** Everything an identity left in the mailbox goes with its one entry. */
  lemma GoneFromMailbox(c: Config, s: State, t: State, id: Id)
    requires KeysSound(s) && MailboxSound(c, s) && id in s.handles && s.handles[id].activity == Queued
    requires t.mailbox == RemoveFirst(s.mailbox, Work(s.handles[id].request))
    ensures !InMailbox(t, id)
  {
    hide Queue, NoDuplicates, RemoveFirst;
    var h := s.handles[id].(activity := Finalizing);
    var handles := s.handles[id := h];
    var queue, rest := Queue(s.order, s.handles), Queue(s.order, handles);
    QueueDrops(s.order, s.handles, id, h);
    MailboxDrops(s.mailbox, queue, h.request);
    forall e | e in t.mailbox && e.Work? ensures e.request.id != id {
      var i :| 0 <= i < |t.mailbox| && t.mailbox[i] == e;
      assert rest[i] in rest;
      QueueMember(s.order, handles, rest[i]);
    }
  }

  /** The identity is accepted again while its earlier publication is still registered: cancelling it strands it. */
  lemma StaleEntryStrands(c: Config, s: State, t: State, id: Id)
    requires Good(c, s) && s.accepting && id !in s.handles && id in s.finishing
    requires KeysSound(t) && MailboxSound(c, t) && id in t.handles && t.handles[id] == NewHandle(t.handles[id].request)
    requires t == s.(handles := t.handles, order := t.order, mailbox := t.mailbox)
    ensures Strands(t, id)
  {
    hide MailboxSound, KeysSound, RemoveFirst, InMailbox;
    assert IdSound(s, id);
    NothingLive(s, t, id);
    var u := CancelRequest(t, id);
    var h := t.handles[id].(cancelRequested := true);
    hide IdSound;
    CancelSwallowed(t, id);
    hide CancelRequest;
    GoneFromMailbox(c, t, u, id);
    CancelledKeys(t, u, id);
  }

  /** The entry of an earlier publication, already over, is all the cancellation gets. */
  lemma CancelSwallowed(t: State, id: Id)
    requires id in t.handles && t.handles[id] == NewHandle(t.handles[id].request) && id in t.finishing && !Live(t, Registered(t, id))
    ensures var h := t.handles[id].(cancelRequested := true);
            CancelRequest(t, id)
            == t.(handles := t.handles[id := h], finishing := t.finishing - {id}, mailbox := RemoveFirst(t.mailbox, Work(h.request)))
  {
    hide RemoveFirst;
  }

  lemma NothingLive(s: State, t: State, id: Id)
    requires IdSound(s, id) && id !in s.handles && t.tasks == s.tasks
    ensures forall n: nat :: !Live(t, Task(id, n))
  {
    forall n: nat ensures !Live(t, Task(id, n)) {
      if IsTask(s, Task(id, n)) { assert TaskSound(s, Task(id, n)); }
    }
  }

  lemma CancelledKeys(t: State, u: State, id: Id)
    requires KeysSound(t) && id in t.handles && u.order == t.order
    requires u.handles == t.handles[id := t.handles[id].(cancelRequested := true)]
    ensures KeysSound(u)
  {
  }

  /** It is accepted again while only a caller of the earlier publication has not resumed. */
  lemma StaleCallerUnregisters(c: Config, s: State, t: State, id: Id, n: nat)
    requires Good(c, s) && s.accepting && id !in s.handles && id !in s.finishing && Awaiting(s, Task(id, n))
    requires id in t.handles && t.handles[id] == NewHandle(t.handles[id].request)
    requires t == s.(handles := t.handles, order := t.order, mailbox := t.mailbox)
    ensures Unregisters(t, id)
  {
    hide KeysSound, RemoveFirst, WillSettle, StartTask;
    assert IdSound(s, id);
    NothingLive(s, t, id);
    assert Awaiting(t, Task(id, n));
    var h := t.handles[id].(cancelRequested := true);
    var u := t.(handles := t.handles[id := h], mailbox := RemoveFirst(t.mailbox, Work(h.request)));
    StartedSettles(u, id, Result(id, None, Cancelled));
    SameSettling(StartTask(u, id, Result(id, None, Cancelled)), CancelRequest(t, id), id);
  }

  lemma SubmissionHarms(c: Config, s: State, requests: seq<Request>) returns (id: Id)
    requires Good(c, s) && Consistent(s) && !Benign(c, s, SubmitStep(requests))
    ensures Harmed(Apply(c, s, SubmitStep(requests)), id)
  {
    hide MailboxSound, KeysSound, Queue, FirstNew, SubmitBatch, NoDuplicates, IdSound, CompletedSound, OpenSound, Strands, Unregisters, Refuses, Misnames;
    var r :| r in requests && r.id !in s.handles && Lingering(s, r.id);
    id := r.id;
    GoodQueue(c, s);
    BatchAcceptedExactly(c, s, requests);
    var rs := FirstNew(s.handles, requests);
    FirstNewIsFresh(s.handles, requests);
    InstallQueue(c, s, rs);
    var t := Install(s, rs);
    NewlyInstalled(s, requests, r);
    hide AddHandles;
    if id in s.finishing {
      StaleEntryStrands(c, s, t, id);
    } else {
      var n: nat :| Awaiting(s, Task(id, n));
      StaleCallerUnregisters(c, s, t, id, n);
    }
  }

  lemma NewlyInstalled(s: State, requests: seq<Request>, r: Request)
    requires r in requests && r.id !in s.handles
    ensures var t := Install(s, FirstNew(s.handles, requests)); r.id in t.handles && t.handles[r.id] == NewHandle(t.handles[r.id].request)
  {
    hide FirstNew, NoDuplicates;
    var rs := FirstNew(s.handles, requests);
    FirstNewIsFresh(s.handles, requests);
    AddedHandles(s.handles, rs);
    hide AddHandles;
    var i :| 0 <= i < |requests| && requests[i] == r;
    assert Ids(requests)[i] == r.id;
    FindOrNot(requests, r.id);
    FindFirstNew(s.handles, requests, r.id);
    FindOrNot(rs, r.id);
    var k :| 0 <= k < |rs| && Ids(rs)[k] == r.id;
    assert AddHandles(s.handles, rs)[rs[k].id] == NewHandle(rs[k]);
  }

  /** A turn bound after the result was decided: the publication is refused, or its result names no turn. */
  lemma BindingHarms(c: Config, s: State, turn: string)
    requires Good(c, s) && Consistent(s) && Enabled(s, BindTurnStep(turn)) && !Benign(c, s, BindTurnStep(turn))
    ensures var id, t := s.loop.id, Apply(c, s, BindTurnStep(turn));
            && id in t.handles && t.handles[id].turnId == Some(turn)
            && (InFlight(s, id) && Progress(s, Registered(s, id)).Pending? ==> Refuses(t, id))
            && (InFlight(s, id) && Progress(s, Registered(s, id)).Checked? ==> Misnames(t, id))
            && (!InFlight(s, id) ==> Misnames(t, id))
  {
    hide KeysSound, MailboxSound, CompletedSound, OpenSound;
    var id, t := s.loop.id, Apply(c, s, BindTurnStep(turn));
    assert IdSound(s, id);
    assert t == s.(handles := s.handles[id := s.handles[id].(turnId := Some(turn))]);
    hide Apply;
    if InFlight(s, id) {
      var task := Registered(s, id);
      assert TaskSound(s, task) && IsTask(t, Task(id, task.number));
    }
  }

  /**
   * From a good state the two races are exactly the steps that cost something: they strand a request, let its publication
   * be taken off the table, have it refused, or give it a result that names another turn; no other step does any of these.
   */
  lemma HarmExactly(c: Config, s: State, step: Step)
    requires Good(c, s) && Consistent(s) && Enabled(s, step)
    ensures (exists id :: Harmed(Apply(c, s, step), id)) <==> !Benign(c, s, step)
  {
    hide Good, Apply, Benign, Enabled, Harmed;
    StepExact(c, s, step);
    if Benign(c, s, step) {
      forall id ensures !Harmed(Apply(c, s, step), id) { GoodIsUnharmed(c, Apply(c, s, step), id); }
    } else {
      RaceHarms(c, s, step);
    }
  }

  lemma RaceHarms(c: Config, s: State, step: Step)
    requires Good(c, s) && Consistent(s) && Enabled(s, step) && !Benign(c, s, step)
    ensures exists id :: Harmed(Apply(c, s, step), id)
  {
    hide Good, Apply, Strands, Unregisters, Refuses, Misnames;
    if step.SubmitStep? {
      var id := SubmissionHarms(c, s, step.requests);
    } else {
      BindingHarms(c, s, step.turn);
      assert Harmed(Apply(c, s, step), s.loop.id);
    }
  }

  lemma QueuedIsInMailbox(c: Config, s: State, id: Id)
    requires KeysSound(s) && MailboxSound(c, s) && id in s.handles && s.handles[id].activity == Queued
    ensures InMailbox(s, id)
  {
    hide Queue, NoDuplicates;
    var r, queue := s.handles[id].request, Queue(s.order, s.handles);
    QueueMember(s.order, s.handles, r);
    var i :| 0 <= i < |queue| && queue[i] == r;
    assert Works(queue)[i] == Work(r) && s.mailbox[i] == Work(r);
  }

  lemma GoodIsNotAdrift(c: Config, s: State, id: Id)
    requires Good(c, s)
    ensures !Adrift(s, id)
  {
    GoodQueue(c, s);
    assert IdSound(s, id);
    hide Good, KeysSound, MailboxSound, InMailbox;
    if id in s.handles && s.handles[id].activity == Queued { QueuedIsInMailbox(c, s, id); }
  }

  /** In every state a run without the two races reaches, no request is adrift and nothing is about to go wrong. */
  lemma RunsAreUnharmed(c: Config, steps: seq<Step>, id: Id)
    requires EnabledRun(c, INITIAL, steps) && AllBenign(c, INITIAL, steps)
    ensures !Adrift(Run(c, INITIAL, steps), id) && !Harmed(Run(c, INITIAL, steps), id)
  {
    hide *;
    StartIsGood(c);
    RunKeeps(c, INITIAL, steps);
    GoodIsNotAdrift(c, Run(c, INITIAL, steps), id);
    GoodIsUnharmed(c, Run(c, INITIAL, steps), id);
  }

  /**
   * What taking a running publication off the table leads to: the next completion starts a second one, and when the first
   * has delivered its result the second is refused, so whoever joined it gets an error instead.
   */
  lemma UnregisteredIsDoubled(s: State, task: Task, q: Result, r: Result)
    requires Joins(s, task.id) && task.id in s.finishing && Registered(s, task.id) == task && IsTask(s, task) && Progress(s, task) == Pending(r)
    requires r.requestId == task.id && r.turnId == s.handles[task.id].turnId
    ensures var t := BeginFinish(Unjoin(s, task.id), task.id, q);
            && task.id in t.finishing && Registered(t, task.id) != task && Live(t, task) && Live(t, Registered(t, task.id))
            && var second, checked := Registered(t, task.id), Check(t, task);
               && Progress(checked, task) == Checked(r) && task.id in checked.handles
               && var done := Deliver(checked, task);
                  Done(done.handles[task.id]) && Progress(done, second) == Pending(q) && WasRefused(Check(done, second), second)
  {
  }
}
