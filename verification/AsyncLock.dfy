/**
 * The writer-preferring read/write lock of one event loop. A task runs uninterrupted between suspension points, and
 * the only suspension is waiting for the shared event: clearing it just before waiting means a waiter always sleeps,
 * and setting it wakes everyone asleep at that moment. Cancellation can strike a sleeping task or one just woken.
 */
module AsyncLock {

  datatype Phase = ReadAsleep | ReadAwake | Reading | WriteAsleep | WriteAwake | Writing

  /** Every task that is inside one of the lock's two blocks, waiting or holding. */
  type Tasks = map<nat, Phase>

  datatype Step =
    | BeginRead(task: nat)
    | BeginWrite(task: nat)
    | Resume(task: nat)
    | Cancel(task: nat)
    | Release(task: nat)

  predicate IsReader(p: Phase) { p == Reading }

  predicate IsWriter(p: Phase) { p == Writing }

  predicate WantsWrite(p: Phase) { p == WriteAsleep || p == WriteAwake }

  predicate SomeReading(tasks: Tasks) { exists t :: t in tasks && IsReader(tasks[t]) }

  predicate SomeWriting(tasks: Tasks) { exists t :: t in tasks && IsWriter(tasks[t]) }

  predicate SomeWaitingWriter(tasks: Tasks) { exists t :: t in tasks && WantsWrite(tasks[t]) }

  function Woken(p: Phase): Phase {
    match p
    case ReadAsleep => ReadAwake
    case WriteAsleep => WriteAwake
    case _ => p
  }

  function WakeAll(tasks: Tasks): Tasks {
    map t | t in tasks :: Woken(tasks[t])
  }

  /** A reader looks at the guard: it waits for any writer, holding or waiting. */
  function TryRead(tasks: Tasks, task: nat): Tasks {
    tasks[task := if SomeWriting(tasks) || SomeWaitingWriter(tasks) then ReadAsleep else Reading]
  }

  /** A writer looks at its guard; getting in, it wakes everyone, who will look again. */
  function TryWrite(tasks: Tasks, task: nat): Tasks {
    if SomeWriting(tasks) || SomeReading(tasks) then tasks[task := WriteAsleep]
    else WakeAll(tasks[task := Writing])
  }

  predicate Enabled(tasks: Tasks, step: Step) {
    match step
    case BeginRead(t) => t !in tasks
    case BeginWrite(t) => t !in tasks
    case Resume(t) => t in tasks && (tasks[t] == ReadAwake || tasks[t] == WriteAwake)
    case Cancel(t) => t in tasks && tasks[t] != Reading && tasks[t] != Writing
    case Release(t) => t in tasks && (tasks[t] == Reading || tasks[t] == Writing)
  }

  function Apply(tasks: Tasks, step: Step): Tasks
    requires Enabled(tasks, step)
  {
    match step
    case BeginRead(t) => TryRead(tasks, t)
    case BeginWrite(t) => TryWrite(tasks, t)
    case Resume(t) => if tasks[t] == ReadAwake then TryRead(tasks, t) else TryWrite(tasks, t)
    // A cancelled reader just leaves; a cancelled writer stops counting as waiting and wakes the others.
    case Cancel(t) => if WantsWrite(tasks[t]) then WakeAll(tasks - {t}) else tasks - {t}
    case Release(t) => WakeAll(tasks - {t})
  }

  predicate EnabledRun(tasks: Tasks, steps: seq<Step>)
    decreases |steps|
  {
    steps == [] || (Enabled(tasks, steps[0]) && EnabledRun(Apply(tasks, steps[0]), steps[1..]))
  }

  function Run(tasks: Tasks, steps: seq<Step>): Tasks
    requires EnabledRun(tasks, steps)
    decreases |steps|
  {
    if steps == [] then tasks else Run(Apply(tasks, steps[0]), steps[1..])
  }

  // ---------- Safety ----------

  /** A writer is alone: no reader beside it and no second writer. */
  predicate Exclusive(tasks: Tasks) {
    forall t, u :: t in tasks && u in tasks && tasks[t] == Writing && (tasks[u] == Reading || tasks[u] == Writing) ==> t == u
  }

  /** A task nobody has woken still has every reason to sleep. */
  predicate SleepersBlocked(tasks: Tasks) {
    && (forall t :: t in tasks && tasks[t] == ReadAsleep ==> SomeWriting(tasks) || SomeWaitingWriter(tasks))
    && (forall t :: t in tasks && tasks[t] == WriteAsleep ==> SomeWriting(tasks) || SomeReading(tasks))
  }

  predicate Good(tasks: Tasks) {
    Exclusive(tasks) && SleepersBlocked(tasks)
  }

  lemma WakeAllKeepsHolders(tasks: Tasks)
    ensures SomeWriting(WakeAll(tasks)) == SomeWriting(tasks) && SomeReading(WakeAll(tasks)) == SomeReading(tasks)
    ensures SomeWaitingWriter(WakeAll(tasks)) == SomeWaitingWriter(tasks)
    ensures forall t :: t in WakeAll(tasks) ==> WakeAll(tasks)[t] != ReadAsleep && WakeAll(tasks)[t] != WriteAsleep
    ensures Exclusive(WakeAll(tasks)) == Exclusive(tasks)
  {
    var w := WakeAll(tasks);
    assert forall t :: t in tasks ==> IsWriter(w[t]) == IsWriter(tasks[t]) && IsReader(w[t]) == IsReader(tasks[t]) && WantsWrite(w[t]) == WantsWrite(tasks[t]);
  }

  lemma TryReadKeeps(tasks: Tasks, task: nat)
    requires Good(tasks)
    requires task in tasks ==> tasks[task] == ReadAwake
    ensures Good(TryRead(tasks, task))
  {
    var r := TryRead(tasks, task);
    forall t | t in tasks && (IsWriter(tasks[t]) || IsReader(tasks[t]) || WantsWrite(tasks[t]))
      ensures t in r && r[t] == tasks[t]
    {
    }
  }

  lemma TryWriteKeeps(tasks: Tasks, task: nat)
    requires Good(tasks)
    requires task in tasks ==> tasks[task] == WriteAwake
    ensures Good(TryWrite(tasks, task))
  {
    if SomeWriting(tasks) || SomeReading(tasks) {
      var r := TryWrite(tasks, task);
      assert WantsWrite(r[task]);
      forall t | t in tasks && (IsWriter(tasks[t]) || IsReader(tasks[t]) || WantsWrite(tasks[t]))
        ensures t in r && WantsWrite(r[t]) == WantsWrite(tasks[t]) && IsWriter(r[t]) == IsWriter(tasks[t]) && IsReader(r[t]) == IsReader(tasks[t])
      {
      }
    } else {
      WakeAllKeepsHolders(tasks[task := Writing]);
      forall t | t in tasks ensures !IsWriter(tasks[t]) && !IsReader(tasks[t]) {}
    }
  }

  lemma StepKeeps(tasks: Tasks, step: Step)
    requires Good(tasks) && Enabled(tasks, step)
    ensures Good(Apply(tasks, step))
  {
    match step
    case BeginRead(t) => TryReadKeeps(tasks, t);
    case BeginWrite(t) => TryWriteKeeps(tasks, t);
    case Resume(t) => if tasks[t] == ReadAwake { TryReadKeeps(tasks, t); } else { TryWriteKeeps(tasks, t); }
    case Cancel(t) =>
      if WantsWrite(tasks[t]) {
        WakeAllKeepsHolders(tasks - {t});
      } else {
        var r := tasks - {t};
        forall u | u in tasks && (IsWriter(tasks[u]) || IsReader(tasks[u]) || WantsWrite(tasks[u])) ensures u in r {}
      }
    case Release(t) => WakeAllKeepsHolders(tasks - {t});
  }

  /** Over every interleaving, with cancellation at any wait: exclusion holds and no wake-up is ever lost. */
  lemma {:induction false} RunKeeps(tasks: Tasks, steps: seq<Step>)
    requires Good(tasks) && EnabledRun(tasks, steps)
    ensures Good(Run(tasks, steps))
    decreases |steps|
  {
    if steps != [] {
      StepKeeps(tasks, steps[0]);
      RunKeeps(Apply(tasks, steps[0]), steps[1..]);
    }
  }

  lemma RunFromIdle(steps: seq<Step>)
    requires EnabledRun(map[], steps)
    ensures Good(Run(map[], steps))
  {
    RunKeeps(map[], steps);
  }

  // ---------- What a step leaves alone ----------

  function TaskOf(step: Step): nat {
    match step
    case BeginRead(t) => t
    case BeginWrite(t) => t
    case Resume(t) => t
    case Cancel(t) => t
    case Release(t) => t
  }

  /**
   * A step moves its own task only: it leaves by a release or a cancelled wait and otherwise stays, holding or asleep on its
   * own side. Every other task keeps its place, a holder holding and a sleeper at most woken.
   */
  lemma StepMovesOneTask(tasks: Tasks, step: Step)
    requires Enabled(tasks, step)
    ensures var t, after := TaskOf(step), Apply(tasks, step);
            && after.Keys == (if step.Release? || step.Cancel? then tasks.Keys - {t} else tasks.Keys + {t})
            && (forall u :: u in tasks && u != t ==> after[u] == tasks[u] || after[u] == Woken(tasks[u]))
            && (t in after ==>
                  if step.BeginRead? || (step.Resume? && tasks[t] == ReadAwake) then after[t] == Reading || after[t] == ReadAsleep
                  else after[t] == Writing || after[t] == WriteAsleep)
  {
  }

  // ---------- Progress ----------

  predicate Waiting(p: Phase) { p != Reading && p != Writing }

  /**
   * When nobody holds the lock, nobody eligible is stuck asleep: with writers waiting, each of them is awake and
   * would get in if it ran next; otherwise each waiting reader is awake and would get in.
   */
  lemma FreeLockHasARunnableWaiter(tasks: Tasks)
    requires Good(tasks) && !SomeReading(tasks) && !SomeWriting(tasks)
    ensures forall t :: t in tasks && WantsWrite(tasks[t]) ==>
              tasks[t] == WriteAwake && Enabled(tasks, Resume(t)) && Apply(tasks, Resume(t))[t] == Writing
    ensures !SomeWaitingWriter(tasks) ==> forall t :: t in tasks ==>
              tasks[t] == ReadAwake && Enabled(tasks, Resume(t)) && Apply(tasks, Resume(t))[t] == Reading
    ensures tasks != map[] ==> exists t :: t in tasks && (tasks[t] == ReadAwake || tasks[t] == WriteAwake)
  {
    forall t | t in tasks ensures Waiting(tasks[t]) { assert !IsReader(tasks[t]) && !IsWriter(tasks[t]); }
    if tasks != map[] {
      if SomeWaitingWriter(tasks) {
        var t :| t in tasks && WantsWrite(tasks[t]);
        assert tasks[t] == WriteAwake;
      } else {
        var t :| t in tasks;
        assert !WantsWrite(tasks[t]) && tasks[t] == ReadAwake;
      }
    }
  }

  // ---------- Writer preference ----------

  function Readers(tasks: Tasks): set<nat> {
    set t | t in tasks && tasks[t] == Reading
  }

  /** Some writer is waiting in every state before the last. */
  predicate WriterAlwaysWaits(tasks: Tasks, steps: seq<Step>)
    requires EnabledRun(tasks, steps)
    decreases |steps|
  {
    steps == [] || (SomeWaitingWriter(tasks) && WriterAlwaysWaits(Apply(tasks, steps[0]), steps[1..]))
  }

  lemma NoReaderPasses(tasks: Tasks, step: Step)
    requires Good(tasks) && Enabled(tasks, step) && SomeWaitingWriter(tasks)
    ensures Readers(Apply(tasks, step)) <= Readers(tasks)
  {
    var r := Apply(tasks, step);
    forall t | t in r && r[t] == Reading
      ensures t in tasks && tasks[t] == Reading
    {
    }
  }

  /** While a writer waits, no reader enters: whoever reads now was already reading before. */
  lemma {:induction false} WritersAreNotOvertaken(tasks: Tasks, steps: seq<Step>)
    requires Good(tasks) && EnabledRun(tasks, steps) && WriterAlwaysWaits(tasks, steps)
    ensures Readers(Run(tasks, steps)) <= Readers(tasks)
    decreases |steps|
  {
    if steps != [] {
      NoReaderPasses(tasks, steps[0]);
      StepKeeps(tasks, steps[0]);
      WritersAreNotOvertaken(Apply(tasks, steps[0]), steps[1..]);
    }
  }

  // ---------- The lock's own counters ----------

  function Wanting(tasks: Tasks): set<nat> {
    set t | t in tasks && WantsWrite(tasks[t])
  }

  lemma WakeAllKeepsCounts(tasks: Tasks)
    ensures Readers(WakeAll(tasks)) == Readers(tasks) && Wanting(WakeAll(tasks)) == Wanting(tasks)
  {
  }

  lemma CountsSayWho(tasks: Tasks)
    ensures |Readers(tasks)| > 0 <==> SomeReading(tasks)
    ensures |Wanting(tasks)| > 0 <==> SomeWaitingWriter(tasks)
  {
    if SomeReading(tasks) {
      var t :| t in tasks && IsReader(tasks[t]);
      assert t in Readers(tasks);
    }
    if SomeWaitingWriter(tasks) {
      var t :| t in tasks && WantsWrite(tasks[t]);
      assert t in Wanting(tasks);
    }
    if |Readers(tasks)| > 0 { var t :| t in Readers(tasks); assert IsReader(tasks[t]); }
    if |Wanting(tasks)| > 0 { var t :| t in Wanting(tasks); assert WantsWrite(tasks[t]); }
  }

  lemma Placed(before: Tasks, task: nat, p: Phase)
    requires task in before ==> Waiting(before[task])
    ensures var after := before[task := p];
            && Readers(after) == (if p == Reading then Readers(before) + {task} else Readers(before))
            && Wanting(after) == (if WantsWrite(p) then Wanting(before) + {task} else Wanting(before) - {task})
            && SomeWriting(after) == (p == Writing || SomeWriting(before))
    ensures task !in Readers(before) && (task in Wanting(before) <==> task in before && WantsWrite(before[task]))
  {
    var after := before[task := p];
    assert forall t :: t in before && IsWriter(before[t]) ==> t in after && IsWriter(after[t]);
    assert p == Writing ==> IsWriter(after[task]);
  }

  lemma Removed(before: Tasks, task: nat)
    requires task in before
    ensures task in Readers(before) <==> before[task] == Reading
    ensures task in Wanting(before) <==> WantsWrite(before[task])
    ensures Readers(before - {task}) == Readers(before) - {task}
    ensures Wanting(before - {task}) == Wanting(before) - {task}
    ensures Good(before) ==> SomeWriting(before - {task}) == (SomeWriting(before) && before[task] != Writing)
  {
    var after := before - {task};
    assert forall t :: t in before && IsWriter(before[t]) && t != task ==> t in after && IsWriter(after[t]);
    if Good(before) && before[task] == Writing {
      assert forall t :: t in after ==> !IsWriter(after[t]);
    }
  }

  lemma Woke(tasks: Tasks)
    ensures Readers(WakeAll(tasks)) == Readers(tasks) && Wanting(WakeAll(tasks)) == Wanting(tasks)
    ensures SomeWriting(WakeAll(tasks)) == SomeWriting(tasks)
  {
    WakeAllKeepsCounts(tasks);
    WakeAllKeepsHolders(tasks);
  }

  predicate Counts(tasks: Tasks, readers: int, writer: bool, waitingWriters: int) {
    readers == |Readers(tasks)| && writer == SomeWriting(tasks) && waitingWriters == |Wanting(tasks)|
  }

  lemma CountReader(tasks: Tasks, task: nat, readers: int, writer: bool, waitingWriters: int)
    requires Counts(tasks, readers, writer, waitingWriters) && (task in tasks ==> tasks[task] == ReadAwake)
    ensures Counts(tasks[task := ReadAsleep], readers, writer, waitingWriters)
    ensures Counts(tasks[task := Reading], readers + 1, writer, waitingWriters)
    ensures TryRead(tasks, task) == tasks[task := if writer || waitingWriters > 0 then ReadAsleep else Reading]
  {
    hide Readers, Wanting, SomeWriting, SomeReading, SomeWaitingWriter;
    ReaderPlaced(tasks, task, readers, writer, waitingWriters);
    CountsSayWho(tasks);
  }

  lemma ReaderPlaced(tasks: Tasks, task: nat, readers: int, writer: bool, waitingWriters: int)
    requires Counts(tasks, readers, writer, waitingWriters) && (task in tasks ==> tasks[task] == ReadAwake)
    ensures Counts(tasks[task := ReadAsleep], readers, writer, waitingWriters)
    ensures Counts(tasks[task := Reading], readers + 1, writer, waitingWriters)
  {
    hide Readers, Wanting, SomeWriting;
    Placed(tasks, task, ReadAsleep);
    Placed(tasks, task, Reading);
    assert Wanting(tasks) - {task} == Wanting(tasks);
  }

  lemma CountWriter(tasks: Tasks, task: nat, readers: int, writer: bool, waitingWriters: int)
    requires readers == |Readers(tasks)| && writer == SomeWriting(tasks) && waitingWriters == |Wanting(tasks) + {task}|
    requires task in tasks ==> tasks[task] == WriteAwake
    ensures Counts(tasks[task := WriteAsleep], readers, writer, waitingWriters)
    ensures Counts(WakeAll(tasks[task := Writing]), readers, true, waitingWriters - 1)
    ensures TryWrite(tasks, task) == if writer || readers > 0 then tasks[task := WriteAsleep] else WakeAll(tasks[task := Writing])
  {
    hide Counts, Readers, Wanting, SomeWriting, SomeReading, SomeWaitingWriter, WakeAll;
    WriterWaits(tasks, task, readers, writer, waitingWriters);
    WriterEnters(tasks, task, readers, waitingWriters);
    CountsSayWho(tasks);
  }

  lemma WriterWaits(tasks: Tasks, task: nat, readers: int, writer: bool, waitingWriters: int)
    requires readers == |Readers(tasks)| && writer == SomeWriting(tasks) && waitingWriters == |Wanting(tasks) + {task}|
    requires task in tasks ==> tasks[task] == WriteAwake
    ensures Counts(tasks[task := WriteAsleep], readers, writer, waitingWriters)
  {
    hide Readers, Wanting, SomeWriting;
    Placed(tasks, task, WriteAsleep);
  }

  lemma WriterEnters(tasks: Tasks, task: nat, readers: int, waitingWriters: int)
    requires readers == |Readers(tasks)| && waitingWriters == |Wanting(tasks) + {task}|
    requires task in tasks ==> tasks[task] == WriteAwake
    ensures Counts(WakeAll(tasks[task := Writing]), readers, true, waitingWriters - 1)
  {
    hide Readers, Wanting, SomeWriting, WakeAll;
    Placed(tasks, task, Writing);
    Woke(tasks[task := Writing]);
    assert Wanting(tasks) + {task} == (Wanting(tasks) - {task}) + {task};
  }

  lemma CountLeaver(tasks: Tasks, task: nat, readers: int, writer: bool, waitingWriters: int)
    requires Good(tasks) && task in tasks && Counts(tasks, readers, writer, waitingWriters)
    ensures var (r, w, n) := (if tasks[task] == Reading then readers - 1 else readers,
                              writer && tasks[task] != Writing,
                              if WantsWrite(tasks[task]) then waitingWriters - 1 else waitingWriters);
            Counts(tasks - {task}, r, w, n) && Counts(WakeAll(tasks - {task}), r, w, n)
  {
    hide Readers, Wanting, SomeWriting, WakeAll, WantsWrite, Good;
    Removed(tasks, task);
    Woke(tasks - {task});
  }

  /**
   * The lock keeps three counters; which tasks they count is the ghost map. Each method is one uninterrupted stretch
   * of a task, from entering or being resumed to its next suspension.
   */
  class AsyncReadWriteLock {
    var readers: int
    var writer: bool
    var waitingWriters: int
    ghost var tasks: Tasks

    ghost predicate Valid()
      reads this
    {
      Good(tasks) && Counts(tasks, readers, writer, waitingWriters)
    }

    constructor ()
      ensures Valid() && tasks == map[]
    {
      readers, writer, waitingWriters := 0, false, 0;
      tasks := map[];
    }

    method LookAsReader(ghost task: nat) returns (entered: bool)
      requires Valid() && (task in tasks ==> tasks[task] == ReadAwake)
      modifies this
      ensures Valid() && tasks == TryRead(old(tasks), task) && entered == (tasks[task] == Reading)
    {
      hide Good, Counts, TryRead;
      CountReader(tasks, task, readers, writer, waitingWriters);
      TryReadKeeps(tasks, task);
      if writer || waitingWriters > 0 {
        tasks := tasks[task := ReadAsleep];
        entered := false;
      } else {
        readers := readers + 1;
        tasks := tasks[task := Reading];
        entered := true;
      }
    }

    method BeginRead(ghost task: nat) returns (entered: bool)
      requires Valid() && task !in tasks
      modifies this
      ensures Valid() && tasks == Apply(old(tasks), Step.BeginRead(task)) && entered == (tasks[task] == Reading)
    {
      hide Good, Counts, TryRead;
      entered := LookAsReader(task);
    }

    method ResumeRead(ghost task: nat) returns (entered: bool)
      requires Valid() && task in tasks && tasks[task] == ReadAwake
      modifies this
      ensures Valid() && tasks == Apply(old(tasks), Resume(task)) && entered == (tasks[task] == Reading)
    {
      hide Good, Counts, TryRead;
      entered := LookAsReader(task);
    }

    method ReleaseRead(ghost task: nat)
      requires Valid() && task in tasks && tasks[task] == Reading
      modifies this
      ensures Valid() && tasks == Apply(old(tasks), Release(task))
    {
      hide Good, Counts, WakeAll;
      StepKeeps(tasks, Release(task));
      CountLeaver(tasks, task, readers, writer, waitingWriters);
      readers := readers - 1;
      tasks := WakeAll(tasks - {task});
    }

    /** A writer that is already counted as waiting looks at its guard. */
    method LookAsWriter(ghost task: nat) returns (entered: bool)
      requires Good(tasks) && (task in tasks ==> tasks[task] == WriteAwake)
      requires readers == |Readers(tasks)| && writer == SomeWriting(tasks) && waitingWriters == |Wanting(tasks) + {task}|
      modifies this
      ensures Valid() && tasks == TryWrite(old(tasks), task) && entered == (tasks[task] == Writing)
    {
      hide Good, Counts, TryWrite, Readers, SomeWriting, Wanting;
      CountWriter(tasks, task, readers, writer, waitingWriters);
      TryWriteKeeps(tasks, task);
      if writer || readers > 0 {
        tasks := tasks[task := WriteAsleep];
        entered := false;
      } else {
        writer := true;
        waitingWriters := waitingWriters - 1;
        tasks := WakeAll(tasks[task := Writing]);
        entered := true;
      }
    }

    method BeginWrite(ghost task: nat) returns (entered: bool)
      requires Valid() && task !in tasks
      modifies this
      ensures Valid() && tasks == Apply(old(tasks), Step.BeginWrite(task)) && entered == (tasks[task] == Writing)
    {
      assert task !in Wanting(tasks);
      hide Good, TryWrite, Readers, SomeWriting, Wanting;
      waitingWriters := waitingWriters + 1;
      entered := LookAsWriter(task);
    }

    method ResumeWrite(ghost task: nat) returns (entered: bool)
      requires Valid() && task in tasks && tasks[task] == WriteAwake
      modifies this
      ensures Valid() && tasks == Apply(old(tasks), Resume(task)) && entered == (tasks[task] == Writing)
    {
      assert Wanting(tasks) + {task} == Wanting(tasks);
      hide Good, TryWrite, Readers, SomeWriting, Wanting;
      entered := LookAsWriter(task);
    }

    method ReleaseWrite(ghost task: nat)
      requires Valid() && task in tasks && tasks[task] == Writing
      modifies this
      ensures Valid() && tasks == Apply(old(tasks), Release(task))
    {
      hide Good, Counts, WakeAll;
      StepKeeps(tasks, Release(task));
      CountLeaver(tasks, task, readers, writer, waitingWriters);
      writer := false;
      tasks := WakeAll(tasks - {task});
    }

    /** Only the writer's wait is guarded by a cleanup that uncounts it and signals. */
    method CancelWait(ghost task: nat, writing: bool)
      requires Valid() && task in tasks && Waiting(tasks[task]) && writing == WantsWrite(tasks[task])
      modifies this
      ensures Valid() && tasks == Apply(old(tasks), Cancel(task))
    {
      hide Good, Counts, WakeAll;
      StepKeeps(tasks, Cancel(task));
      CountLeaver(tasks, task, readers, writer, waitingWriters);
      if writing {
        waitingWriters := waitingWriters - 1;
        tasks := WakeAll(tasks - {task});
      } else {
        tasks := tasks - {task};
      }
    }
  }
}
