/** The two races as concrete runs from the start: each leaves an accepted request adrift. */
module SchedulerRaces {
  import opened Wrappers
  import opened Sequences
  import opened SchedulerSteps
  import opened SchedulerProofs
  import opened SchedulerCosts

  lemma Before(c: Config, s: State, step: Step, rest: seq<Step>)
    requires Consistent(s) && Enabled(s, step) && EnabledRun(c, Apply(c, s, step), rest)
    ensures EnabledRun(c, s, [step] + rest)
    ensures Run(c, s, [step] + rest) == Run(c, Apply(c, s, step), rest)
  {
    assert ([step] + rest)[1..] == rest;
  }

  /** One new request, with nothing queued, is admitted behind whatever is known. */
  lemma SubmitOne(c: Config, s: State, r: Request)
    requires c.capacity > 0 && Consistent(s) && s.accepting && Acceptable(r) && r.id !in s.handles
    requires Queue(s.order, s.handles) == []
    ensures Apply(c, s, SubmitStep([r])) ==
            s.(order := s.order + [r.id], handles := s.handles[r.id := NewHandle(r)], mailbox := s.mailbox + [Work(r)])
  {
    assert [] + [r] == [r] && [r][1..] == [];
    assert Admit(s.handles, [r], []) == Admit(s.handles, [], [r]);
    assert Ids([r]) == [r.id] && Works([r]) == [Work(r)];
    assert AddHandles(s.handles, [r]) == AddHandles(s.handles[r.id := NewHandle(r)], []);
  }

  // ---------- A turn bound after the result was decided ----------

  const A := UserTurn("a", "first")
  const H0 := NewHandle(A)
  const H1 := H0.(activity := Preparing)
  const H2 := H1.(activity := Finalizing, cancelRequested := true)
  const H3 := H2.(turnId := Some("t"))
  const H4 := H3.(taskEnded := true)
  const EARLY := Result("a", None, Cancelled)

  const TASK := Task("a", 0)

  function At(h: Handle, tasks: seq<Publication>, loop: Loop, closer: Closer): State {
    State(["a"], map["a" := h], [], [], if tasks == [] then map[] else map["a" := tasks], if tasks == [] then map[] else map["a" := 0],
          multiset{}, closer.NotClosing?, false, loop, closer)
  }

  const WAITING := Closing([], Some(TASK), Cancelled)

  lemma Leads(c: Config, s: State, step: Step, t: State, rest: seq<Step>)
    requires Consistent(s) && Enabled(s, step) && Apply(c, s, step) == t && EnabledRun(c, t, rest)
    ensures EnabledRun(c, s, [step] + rest) && Run(c, s, [step] + rest) == Run(c, t, rest)
  {
    Before(c, s, step, rest);
  }

  const BINDING: seq<Step> := [BindTurnStep("t"), ExecutionEndsStep, CheckStep(TASK)]
  const AFTER: seq<Step> := [DispatchResumeStep(Cancelled, true)] + ([CloseJoinedStep(false)] + [])

  lemma RaceOpens(c: Config)
    requires c.capacity > 0
    ensures Apply(c, INITIAL, SubmitStep([A])) == Q0
  {
    SubmitOne(c, INITIAL, A);
  }

  const Q0 := At(H0, [], Idle, NotClosing).(mailbox := [Work(A)])
  const Q1 := At(H1, [], Executing("a", false), NotClosing)
  const Q2 := At(H1, [], Executing("a", false), Closing(["a"], None, Cancelled))
  const Q3 := At(H2, [Pending(EARLY)], Executing("a", false), WAITING)
  const Q4 := At(H3, [Pending(EARLY)], Executing("a", false), WAITING)
  const Q5 := At(H4, [Pending(EARLY)], Executing("a", true), WAITING)
  const Q6 := At(H4, [Refused], Executing("a", true), WAITING)
  const Q7 := At(H4, [Refused], Stopped, WAITING).(finishing := map[])
  const Q8 := At(H4, [Refused], Stopped, Aborted).(finishing := map[])

  lemma RaceTakes(c: Config)
    ensures Consistent(Q0) && Enabled(Q0, TakeNextStep) && Apply(c, Q0, TakeNextStep) == Q1
  {
  }

  lemma RaceCloses(c: Config)
    ensures Consistent(Q1) && Enabled(Q1, BeginCloseStep(Cancelled)) && Apply(c, Q1, BeginCloseStep(Cancelled)) == Q2
  {
  }

  lemma RaceClosesFirst(c: Config)
    ensures Consistent(Q2) && Enabled(Q2, CloseNextStep) && Apply(c, Q2, CloseNextStep) == Q3
  {
    assert [] + [Pending(EARLY)] == [Pending(EARLY)] && ["a"][1..] == [];
  }

  lemma RaceBinds(c: Config)
    ensures Consistent(Q3) && Enabled(Q3, BindTurnStep("t")) && Apply(c, Q3, BindTurnStep("t")) == Q4
  {
  }

  lemma RaceEnds(c: Config)
    ensures Consistent(Q4) && Enabled(Q4, ExecutionEndsStep) && Apply(c, Q4, ExecutionEndsStep) == Q5
  {
  }

  lemma RaceRefuses(c: Config)
    ensures Consistent(Q5) && Enabled(Q5, CheckStep(TASK)) && Apply(c, Q5, CheckStep(TASK)) == Q6
  {
    assert [Pending(EARLY)][0 := Refused] == [Refused];
  }

  lemma RaceJoins(c: Config)
    ensures Consistent(Q6) && Enabled(Q6, DispatchResumeStep(Cancelled, true)) && Apply(c, Q6, DispatchResumeStep(Cancelled, true)) == Q7
  {
  }

  lemma RaceAborts(c: Config)
    ensures Consistent(Q7) && Enabled(Q7, CloseJoinedStep(false)) && Apply(c, Q7, CloseJoinedStep(false)) == Q8
  {
  }

  lemma Chain3(c: Config, s: State, a: Step, t: State, b: Step, u: State, d: Step, v: State, rest: seq<Step>)
    requires Consistent(s) && Enabled(s, a) && Apply(c, s, a) == t
    requires Consistent(t) && Enabled(t, b) && Apply(c, t, b) == u
    requires Consistent(u) && Enabled(u, d) && Apply(c, u, d) == v && EnabledRun(c, v, rest)
    ensures EnabledRun(c, s, [a, b, d] + rest) && Run(c, s, [a, b, d] + rest) == Run(c, v, rest)
  {
    hide Apply, Enabled, EnabledRun, Run, Consistent;
    Leads(c, u, d, v, rest);
    Leads(c, t, b, u, [d] + rest);
    Leads(c, s, a, t, [b] + ([d] + rest));
    assert [a] + ([b] + ([d] + rest)) == [a, b, d] + rest;
  }

  lemma Ending(c: Config)
    ensures EnabledRun(c, Q6, AFTER) && Run(c, Q6, AFTER) == Q8
  {
    hide Apply, EnabledRun, Run, Consistent, Enabled;
    RaceJoins(c);
    RaceAborts(c);
    RunNothing(c, Q8);
    Leads(c, Q7, CloseJoinedStep(false), Q8, []);
    Leads(c, Q6, DispatchResumeStep(Cancelled, true), Q7, [CloseJoinedStep(false)] + []);
  }

  lemma Bound(c: Config)
    ensures EnabledRun(c, Q3, BINDING + AFTER) && Run(c, Q3, BINDING + AFTER) == Q8
  {
    hide Apply, EnabledRun, Run, Consistent, Enabled;
    Ending(c);
    RaceBinds(c);
    RaceEnds(c);
    RaceRefuses(c);
    Chain3(c, Q3, BindTurnStep("t"), Q4, ExecutionEndsStep, Q5, CheckStep(TASK), Q6, AFTER);
  }

  const OPENING: seq<Step> := [TakeNextStep, BeginCloseStep(Cancelled), CloseNextStep]

  lemma Opened(c: Config)
    ensures EnabledRun(c, Q0, OPENING + (BINDING + AFTER)) && Run(c, Q0, OPENING + (BINDING + AFTER)) == Q8
  {
    hide Apply, EnabledRun, Run, Consistent, Enabled;
    Bound(c);
    RaceTakes(c);
    RaceCloses(c);
    RaceClosesFirst(c);
    Chain3(c, Q0, TakeNextStep, Q1, BeginCloseStep(Cancelled), Q2, CloseNextStep, Q3, BINDING + AFTER);
  }

  /**
   * A close decides the result of an executing request, and the request's turn is bound before the publication looks: the
   * publication is refused, and when the dispatch and the close have both resumed the request is adrift. A cancellation is
   * then no help (`CancelSettlesAdrift`); a second close is (`CloseSettlesAdrift`).
   */
  lemma LateTurnLeavesAdrift(c: Config)
    requires c.capacity > 0
    ensures var steps := [SubmitStep([A])] + (OPENING + (BINDING + AFTER));
            && EnabledRun(c, INITIAL, steps)
            && var s := Run(c, INITIAL, steps);
               s.loop.Stopped? && s.closer.Aborted? && Adrift(s, "a") && s.handles["a"].turnId == Some("t") && s.handles["a"].taskEnded
  {
    EndIsAdrift();
    hide Apply, EnabledRun, Run, Enabled, Adrift;
    RaceOpens(c);
    Opened(c);
    assert Consistent(INITIAL) && Enabled(INITIAL, SubmitStep([A])) by { SubmitEnabled(); }
    Leads(c, INITIAL, SubmitStep([A]), Q0, OPENING + (BINDING + AFTER));
  }

  lemma EndIsAdrift()
    ensures Adrift(Q8, "a")
  {
  }

  lemma SubmitEnabled()
    ensures Consistent(INITIAL) && Enabled(INITIAL, SubmitStep([A]))
  {
  }

  lemma RunNothing(c: Config, s: State)
    ensures EnabledRun(c, s, []) && Run(c, s, []) == s
  {
  }

  // ---------- An identity accepted again while its old publication lingers ----------

  const B := UserTurn("b", "other")

  function Given(r: Request): Handle {
    Handle(r, Finalizing, true, false, None, None)
  }

  function GaveUp(r: Request): Handle {
    Handle(r, Finished, true, false, None, Some(Result(r.id, None, Cancelled)))
  }

  lemma CancelApplied(c: Config, s: State, id: Id)
    requires Consistent(s)
    ensures Apply(c, s, CancelStep(id)) == CancelRequest(s, id)
  {
    hide SubmitBatch, TakeNext, DispatchResume, CloseNext, Publish, Check, RequestExit, CancelRequest, Consistent;
  }

  lemma CancelNew(c: Config, t: State, r: Request)
    requires Consistent(t) && r.id in t.handles && t.handles[r.id] == NewHandle(r) && t.mailbox == [Work(r)] && r.id !in t.finishing && r.id !in t.tasks
    ensures Apply(c, t, CancelStep(r.id)) ==
            t.(handles := t.handles[r.id := Given(r)], mailbox := [], joiners := t.joiners + multiset{Task(r.id, 0)},
               tasks := t.tasks[r.id := [Pending(Result(r.id, None, Cancelled))]], finishing := t.finishing[r.id := 0])
  {
    CancelApplied(c, t, r.id);
    hide Consistent, Apply;
    assert RemoveFirst(t.mailbox, Work(r)) == [];
    hide RemoveFirst;
    assert [] + [Pending(Result(r.id, None, Cancelled))] == [Pending(Result(r.id, None, Cancelled))];
  }

  const RACE_CONFIG := Config(1, 1)

  const SETTLED := State(["a"], map["a" := GaveUp(A)], [], ["a"], map["a" := [Published]], map["a" := 0], multiset{TASK},
                         true, false, Idle, NotClosing)
  const FORGOTTEN := State(["b"], map["b" := GaveUp(B)], [], ["b"], map["a" := [Published], "b" := [Published]], map["a" := 0, "b" := 0],
                           multiset{TASK, Task("b", 0)}, true, false, Idle, NotClosing)

  function Cycle(r: Request): seq<Step> {
    [SubmitStep([r])] + [CancelStep(r.id), CheckStep(Task(r.id, 0)), PublishStep(Task(r.id, 0))]
  }

  lemma Chain4(c: Config, s: State, r: Request, t: State, u: State, v: State, w: State, rest: seq<Step>)
    requires Consistent(s) && Apply(c, s, SubmitStep([r])) == t
    requires Consistent(t) && Apply(c, t, CancelStep(r.id)) == u
    requires Consistent(u) && Enabled(u, CheckStep(Task(r.id, 0))) && Apply(c, u, CheckStep(Task(r.id, 0))) == v
    requires Consistent(v) && Enabled(v, PublishStep(Task(r.id, 0))) && Apply(c, v, PublishStep(Task(r.id, 0))) == w && EnabledRun(c, w, rest)
    ensures EnabledRun(c, s, Cycle(r) + rest) && Run(c, s, Cycle(r) + rest) == Run(c, w, rest)
  {
    hide Apply, EnabledRun, Run, Consistent;
    var three := [CancelStep(r.id), CheckStep(Task(r.id, 0)), PublishStep(Task(r.id, 0))];
    Chain3(c, t, CancelStep(r.id), u, CheckStep(Task(r.id, 0)), v, PublishStep(Task(r.id, 0)), w, rest);
    Leads(c, s, SubmitStep([r]), t, three + rest);
    assert [SubmitStep([r])] + (three + rest) == Cycle(r) + rest;
  }

  const F1 := State(["a"], map["a" := NewHandle(A)], [Work(A)], [], map[], map[], multiset{}, true, false, Idle, NotClosing)
  const F2 := F1.(handles := map["a" := Given(A)], mailbox := [], tasks := map["a" := [Pending(EARLY)]], finishing := map["a" := 0],
                  joiners := multiset{TASK})
  const F3 := F2.(tasks := map["a" := [Checked(EARLY)]])

  lemma OneChecked(c: Config, s: State, id: Id, r: Result)
    requires Consistent(s) && Joins(s, id) && id in s.tasks && s.tasks[id] == [Pending(r)]
    requires r.requestId == id && r.turnId == s.handles[id].turnId
    ensures Enabled(s, CheckStep(Task(id, 0))) && Apply(c, s, CheckStep(Task(id, 0))) == s.(tasks := s.tasks[id := [Checked(r)]])
  {
    hide Consistent;
    assert [Pending(r)][0 := Checked(r)] == [Checked(r)];
  }

  lemma FirstSubmitted(c: Config)
    requires c == RACE_CONFIG
    ensures Consistent(INITIAL) && Apply(c, INITIAL, SubmitStep([A])) == F1
  {
    SubmitOne(c, INITIAL, A);
  }

  lemma FirstCancelled(c: Config)
    requires c == RACE_CONFIG
    ensures Consistent(F1) && Apply(c, F1, CancelStep("a")) == F2
  {
    CancelNew(c, F1, A);
    hide Apply;
  }

  lemma FirstChecked(c: Config)
    requires c == RACE_CONFIG
    ensures Consistent(F2) && Enabled(F2, CheckStep(TASK)) && Apply(c, F2, CheckStep(TASK)) == F3
    ensures Consistent(F3) && Enabled(F3, PublishStep(TASK))
  {
    OneChecked(c, F2, "a", EARLY);
    hide Apply;
  }

  lemma FirstPublished(c: Config)
    requires c == RACE_CONFIG && Consistent(F3) && Enabled(F3, PublishStep(TASK))
    ensures Apply(c, F3, PublishStep(TASK)) == SETTLED
  {
    assert [Checked(EARLY)][0 := Published] == [Published];
    assert Deliver(F3, TASK) == SETTLED;
  }

  const OTHER := Result("b", None, Cancelled)
  const S1 := SETTLED.(order := ["a", "b"], handles := map["a" := GaveUp(A), "b" := NewHandle(B)], mailbox := [Work(B)])
  const S2 := S1.(handles := map["a" := GaveUp(A), "b" := Given(B)], mailbox := [],
                  tasks := map["a" := [Published], "b" := [Pending(OTHER)]], finishing := map["a" := 0, "b" := 0],
                  joiners := multiset{TASK, Task("b", 0)})
  const S3 := S2.(tasks := map["a" := [Published], "b" := [Checked(OTHER)]])

  lemma SecondSubmitted(c: Config)
    requires c == RACE_CONFIG
    ensures Consistent(SETTLED) && Apply(c, SETTLED, SubmitStep([B])) == S1
  {
    assert Queue(SETTLED.order, SETTLED.handles) == [];
    SubmitOne(c, SETTLED, B);
    hide Apply;
    assert SETTLED.handles["b" := NewHandle(B)] == S1.handles;
  }

  lemma SecondCancelled(c: Config)
    requires c == RACE_CONFIG
    ensures Consistent(S1) && Apply(c, S1, CancelStep("b")) == S2
  {
    CancelNew(c, S1, B);
    hide Apply;
    assert S1.handles["b" := Given(B)] == S2.handles;
  }

  lemma SecondState()
    ensures Consistent(S2) && Joins(S2, "b") && Consistent(S3) && Enabled(S3, PublishStep(Task("b", 0)))
  {
  }

  lemma SecondChecked(c: Config)
    requires c == RACE_CONFIG
    ensures Consistent(S2) && Enabled(S2, CheckStep(Task("b", 0))) && Apply(c, S2, CheckStep(Task("b", 0))) == S3
    ensures Consistent(S3) && Enabled(S3, PublishStep(Task("b", 0)))
  {
    SecondState();
    hide Consistent, Apply, Joins;
    OneChecked(c, S2, "b", OTHER);
    hide Enabled;
    assert S2.tasks["b" := [Checked(OTHER)]] == S3.tasks;
  }

  const CROWDED := S2.(handles := map["a" := GaveUp(A), "b" := GaveUp(B)], completed := ["a", "b"],
                       tasks := map["a" := [Published], "b" := [Published]])

  lemma SecondEvicts(c: Config)
    requires c == RACE_CONFIG
    ensures Evict(c, CROWDED) == FORGOTTEN
  {
    var e := EvictOldest(CROWDED);
    assert CROWDED.completed[1..] == ["b"];
    assert RemoveFirst(CROWDED.order, "a") == ["b"];
    assert e.handles == map["b" := GaveUp(B)];
    assert e == FORGOTTEN;
    assert Evict(c, CROWDED) == Evict(c, e);
  }

  lemma SecondDelivered()
    ensures Deliver(S3, Task("b", 0)) == CROWDED
  {
    assert [Checked(OTHER)][0 := Published] == [Published];
  }

  lemma SecondPublished(c: Config)
    requires c == RACE_CONFIG && Consistent(S3) && Enabled(S3, PublishStep(Task("b", 0)))
    ensures Apply(c, S3, PublishStep(Task("b", 0))) == FORGOTTEN
  {
    hide Evict, EvictOldest, RemoveFirst, Deliver, Consistent;
    SecondDelivered();
    SecondEvicts(c);
  }

  const L1 := FORGOTTEN.(order := ["b", "a"], handles := map["b" := GaveUp(B), "a" := NewHandle(A)], mailbox := [Work(A)])
  const L2 := L1.(handles := map["b" := GaveUp(B), "a" := NewHandle(A).(cancelRequested := true)], mailbox := [],
                  finishing := map["b" := 0])

  lemma LastSubmitted(c: Config)
    requires c == RACE_CONFIG
    ensures Consistent(FORGOTTEN) && Apply(c, FORGOTTEN, SubmitStep([A])) == L1
  {
    assert Queue(FORGOTTEN.order, FORGOTTEN.handles) == [];
    SubmitOne(c, FORGOTTEN, A);
    hide Apply, SubmitBatch;
    assert FORGOTTEN.handles["a" := NewHandle(A)] == L1.handles;
  }

  lemma LastCancelled(c: Config)
    ensures Consistent(L1) && Apply(c, L1, CancelStep("a")) == L2
  {
    hide Apply, CancelRequest, Live, RemoveFirst, Consistent;
    LastState();
    CancelApplied(c, L1, "a");
    CancelSwallowed(L1, "a");
    assert L1.handles["a" := NewHandle(A).(cancelRequested := true)] == L2.handles && L1.finishing - {"a"} == L2.finishing;
  }

  lemma LastState()
    ensures Consistent(L1) && "a" in L1.finishing && !Live(L1, Registered(L1, "a")) && RemoveFirst(L1.mailbox, Work(A)) == []
  {
  }

  const LOSING: seq<Step> := [SubmitStep([A])] + ([CancelStep("a")] + [])

  lemma StillQueuedIsAdrift()
    ensures Adrift(L2, "a")
  {
    assert L2.order[0] == "b" && L2.order[1] == "a";
    assert L2.tasks["a"] == [Published];
  }

  lemma Loses(c: Config)
    requires c == RACE_CONFIG
    ensures EnabledRun(c, FORGOTTEN, LOSING) && Run(c, FORGOTTEN, LOSING) == L2
  {
    hide Apply, EnabledRun, Run, Consistent;
    LastSubmitted(c);
    LastCancelled(c);
    RunNothing(c, L2);
    Leads(c, L1, CancelStep("a"), L2, []);
    Leads(c, FORGOTTEN, SubmitStep([A]), L1, [CancelStep("a")] + []);
  }

  lemma SecondCycle(c: Config)
    requires c == RACE_CONFIG
    ensures EnabledRun(c, SETTLED, Cycle(B) + LOSING) && Run(c, SETTLED, Cycle(B) + LOSING) == L2
  {
    Loses(c);
    hide Apply, EnabledRun, Run, Cycle, Consistent, Enabled;
    SecondSubmitted(c);
    SecondCancelled(c);
    SecondChecked(c);
    SecondPublished(c);
    Chain4(c, SETTLED, B, S1, S2, S3, FORGOTTEN, LOSING);
  }

  /**
   * With one retained outcome: a request is cancelled and published, a second one pushes it out of the retained
   * outcomes, and it is accepted again before the first canceller has resumed. Cancelling it now takes it out of the
   * mailbox but finds the entry of the old publication: it still counts as queued, and is adrift until it is cancelled once
   * more or closed (`AdriftForever`, `CancelSettlesAdrift`, `CloseSettlesAdrift`).
   */
  lemma ResubmissionLeavesAdrift()
    ensures var steps := Cycle(A) + (Cycle(B) + LOSING);
            && EnabledRun(RACE_CONFIG, INITIAL, steps)
            && var s := Run(RACE_CONFIG, INITIAL, steps);
               && s.loop.Idle? && s.closer.NotClosing? && Adrift(s, "a") && s.handles["a"].activity == Queued && s.handles["a"].cancelRequested
  {
    var c := RACE_CONFIG;
    StillQueuedIsAdrift();
    hide Apply, EnabledRun, Run, Cycle, Consistent, Enabled, Adrift;
    FirstSubmitted(c);
    FirstCancelled(c);
    FirstChecked(c);
    FirstPublished(c);
    SecondCycle(c);
    Chain4(c, INITIAL, A, F1, F2, F3, SETTLED, Cycle(B) + LOSING);
  }
}
