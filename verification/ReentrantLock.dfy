/**
 * The reentrant read/write lock between threads: every method body is one section under the condition, a wait lets the
 * others in, and every release wakes all who wait.
 */
module ReentrantLock {
  import opened Wrappers

  datatype Wait = Wait(writing: bool, awake: bool)

  datatype Lock = Lock(readers: map<nat, nat>, writer: Option<nat>, depth: nat, waiting: map<nat, Wait>)

  const FREE := Lock(map[], None, 0, map[])

  predicate CanRead(l: Lock, me: nat) {
    l.writer.None? || l.writer == Some(me) || me in l.readers
  }

  predicate CanWrite(l: Lock, me: nat) {
    l.writer == Some(me) || (l.writer.None? && forall r :: r in l.readers ==> r == me)
  }

  function WakeAll(l: Lock): Lock {
    l.(waiting := map t | t in l.waiting :: l.waiting[t].(awake := true))
  }

  function DepthOf(l: Lock, me: nat): nat {
    if me in l.readers then l.readers[me] else 0
  }

  function LookToRead(l: Lock, me: nat): Lock {
    if CanRead(l, me) then l.(readers := l.readers[me := DepthOf(l, me) + 1], waiting := l.waiting - {me})
    else l.(waiting := l.waiting[me := Wait(false, false)])
  }

  function LookToWrite(l: Lock, me: nat): Lock {
    if CanWrite(l, me) then l.(writer := Some(me), depth := l.depth + 1, waiting := l.waiting - {me})
    else l.(waiting := l.waiting[me := Wait(true, false)])
  }

  function ReleaseRead(l: Lock, me: nat): Lock
    requires DepthOf(l, me) > 0
  {
    WakeAll(l.(readers := if l.readers[me] == 1 then l.readers - {me} else l.readers[me := l.readers[me] - 1]))
  }

  function ReleaseWrite(l: Lock): Lock
    requires l.depth > 0
  {
    WakeAll(l.(depth := l.depth - 1, writer := if l.depth == 1 then None else l.writer))
  }

  datatype Step = AcquireRead(me: nat) | AcquireWrite(me: nat) | Resume(me: nat) | ReleaseReadStep(me: nat) | ReleaseWriteStep(me: nat)

  /** A waiting thread only ever resumes; a release without a matching acquisition is refused and changes nothing. */
  predicate Enabled(l: Lock, step: Step) {
    match step
    case Resume(me) => me in l.waiting && l.waiting[me].awake
    case AcquireRead(me) => me !in l.waiting
    case AcquireWrite(me) => me !in l.waiting
    case ReleaseReadStep(me) => me !in l.waiting
    case ReleaseWriteStep(me) => me !in l.waiting
  }

  function Apply(l: Lock, step: Step): Lock
    requires Enabled(l, step)
  {
    match step
    case AcquireRead(me) => LookToRead(l, me)
    case AcquireWrite(me) => LookToWrite(l, me)
    case Resume(me) => if l.waiting[me].writing then LookToWrite(l, me) else LookToRead(l, me)
    case ReleaseReadStep(me) => if DepthOf(l, me) > 0 then ReleaseRead(l, me) else l
    case ReleaseWriteStep(me) => if l.writer == Some(me) && l.depth > 0 then ReleaseWrite(l) else l
  }

  predicate EnabledRun(l: Lock, steps: seq<Step>)
    decreases |steps|
  {
    steps == [] || (Enabled(l, steps[0]) && EnabledRun(Apply(l, steps[0]), steps[1..]))
  }

  function Run(l: Lock, steps: seq<Step>): Lock
    requires EnabledRun(l, steps)
    decreases |steps|
  {
    if steps == [] then l else Run(Apply(l, steps[0]), steps[1..])
  }

  /** A writer is alone but for its own reads. */
  predicate Exclusive(l: Lock) {
    && (l.writer.Some? <==> l.depth > 0)
    && (forall r :: r in l.readers ==> l.readers[r] > 0 && (l.writer.Some? ==> l.writer.value == r))
  }

  /** A thread nobody has woken could not go on. */
  predicate SleepersBlocked(l: Lock) {
    forall t :: t in l.waiting && !l.waiting[t].awake ==> if l.waiting[t].writing then !CanWrite(l, t) else !CanRead(l, t)
  }

  predicate Good(l: Lock) {
    Exclusive(l) && SleepersBlocked(l)
  }

  lemma StepKeeps(l: Lock, step: Step)
    requires Good(l) && Enabled(l, step)
    ensures Good(Apply(l, step))
  {
    var next := Apply(l, step);
    if !step.ReleaseReadStep? && !step.ReleaseWriteStep? {
      forall t | t in next.waiting && !next.waiting[t].awake && next.waiting[t].writing && next.writer.None?
        ensures exists r :: r in next.readers && r != t
      {
        var r :| r in l.readers && r != t;
        assert r in next.readers;
      }
    }
  }

  /** Over every interleaving: the writer is exclusive, and no thread sleeps through its chance. */
  lemma {:induction false} RunKeeps(l: Lock, steps: seq<Step>)
    requires Good(l) && EnabledRun(l, steps)
    ensures Good(Run(l, steps))
    decreases |steps|
  {
    hide Good, Apply, Enabled;
    if steps != [] {
      StepKeeps(l, steps[0]);
      RunKeeps(Apply(l, steps[0]), steps[1..]);
    }
  }

  // ---------- Depths ----------

  /** Whether the thread gets one level of this side by the step. */
  predicate Enters(l: Lock, step: Step, me: nat, writing: bool)
    requires Enabled(l, step)
  {
    match step
    case AcquireRead(t) => t == me && !writing && CanRead(l, me)
    case AcquireWrite(t) => t == me && writing && CanWrite(l, me)
    case Resume(t) => t == me && writing == l.waiting[t].writing && if writing then CanWrite(l, me) else CanRead(l, me)
    case _ => false
  }

  function WriteDepth(l: Lock, me: nat): nat {
    if l.writer == Some(me) then l.depth else 0
  }

  /** A release gives back one level, if there is one. */
  function Released(l: Lock, step: Step, me: nat, writing: bool): nat {
    if step == (if writing then ReleaseWriteStep(me) else ReleaseReadStep(me)) && (if writing then WriteDepth(l, me) else DepthOf(l, me)) > 0
    then 1 else 0
  }

  /** Every step adds at most one level to the one thread that takes it, and gives back one level on a release. */
  lemma StepCounts(l: Lock, step: Step, me: nat)
    requires Good(l) && Enabled(l, step)
    ensures DepthOf(Apply(l, step), me) + Released(l, step, me, false) == DepthOf(l, me) + (if Enters(l, step, me, false) then 1 else 0)
    ensures WriteDepth(Apply(l, step), me) + Released(l, step, me, true) == WriteDepth(l, me) + (if Enters(l, step, me, true) then 1 else 0)
  {
  }

  function EnteredIn(l: Lock, steps: seq<Step>, me: nat, writing: bool): nat
    requires EnabledRun(l, steps)
    decreases |steps|
  {
    if steps == [] then 0
    else (if Enters(l, steps[0], me, writing) then 1 else 0) + EnteredIn(Apply(l, steps[0]), steps[1..], me, writing)
  }

  function ReleasedIn(l: Lock, steps: seq<Step>, me: nat, writing: bool): nat
    requires EnabledRun(l, steps)
    decreases |steps|
  {
    if steps == [] then 0 else Released(l, steps[0], me, writing) + ReleasedIn(Apply(l, steps[0]), steps[1..], me, writing)
  }

  /** Over every run each thread holds exactly what it has entered and not given back, on either side. */
  lemma {:induction false} DepthsBalance(l: Lock, steps: seq<Step>, me: nat)
    requires Good(l) && EnabledRun(l, steps)
    ensures DepthOf(Run(l, steps), me) + ReleasedIn(l, steps, me, false) == DepthOf(l, me) + EnteredIn(l, steps, me, false)
    ensures WriteDepth(Run(l, steps), me) + ReleasedIn(l, steps, me, true) == WriteDepth(l, me) + EnteredIn(l, steps, me, true)
    decreases |steps|
  {
    hide Good, Apply, Enabled, DepthOf, WriteDepth, Enters, Released;
    if steps != [] {
      StepCounts(l, steps[0], me);
      StepKeeps(l, steps[0]);
      DepthsBalance(Apply(l, steps[0]), steps[1..], me);
    }
  }

  /** Two readers that each also want to write, before releasing what they hold. */
  predicate BothUpgrade(l: Lock, a: nat, b: nat) {
    && a != b && a in l.readers && b in l.readers
    && a in l.waiting && l.waiting[a].writing && b in l.waiting && l.waiting[b].writing
  }

  lemma UpgradeStuck(l: Lock, a: nat, b: nat, step: Step)
    requires Good(l) && BothUpgrade(l, a, b) && Enabled(l, step)
    ensures BothUpgrade(Apply(l, step), a, b)
  {
  }

  /** Two readers waiting to write wait for each other for ever, whatever the other threads do. */
  lemma {:induction false} UpgradesDeadlock(l: Lock, a: nat, b: nat, steps: seq<Step>)
    requires Good(l) && BothUpgrade(l, a, b) && EnabledRun(l, steps)
    ensures BothUpgrade(Run(l, steps), a, b)
    decreases |steps|
  {
    hide Good, Apply, Enabled, BothUpgrade;
    if steps != [] {
      StepKeeps(l, steps[0]);
      UpgradeStuck(l, a, b, steps[0]);
      UpgradesDeadlock(Apply(l, steps[0]), a, b, steps[1..]);
    }
  }

  /** Two acquisitions each are enough to get there. */
  lemma UpgradesAreReachable(a: nat, b: nat)
    requires a != b
    ensures var steps := [AcquireRead(a), AcquireRead(b), AcquireWrite(a), AcquireWrite(b)];
            EnabledRun(FREE, steps) && BothUpgrade(Run(FREE, steps), a, b)
  {
    var s1 := Lock(map[a := 1], None, 0, map[]);
    var s2 := Lock(map[a := 1, b := 1], None, 0, map[]);
    var s3 := s2.(waiting := map[a := Wait(true, false)]);
    var s4 := s2.(waiting := map[a := Wait(true, false), b := Wait(true, false)]);
    var r3 := [AcquireWrite(b)];
    var r2 := [AcquireWrite(a)] + r3;
    var r1 := [AcquireRead(b)] + r2;
    assert b in s2.readers && a in s2.readers;
    Leads(s3, AcquireWrite(b), s4, []);
    assert [AcquireWrite(b)] + [] == r3;
    Leads(s2, AcquireWrite(a), s3, r3);
    Leads(s1, AcquireRead(b), s2, r2);
    Leads(FREE, AcquireRead(a), s1, r1);
    assert [AcquireRead(a)] + r1 == [AcquireRead(a), AcquireRead(b), AcquireWrite(a), AcquireWrite(b)];
  }

  lemma Leads(l: Lock, step: Step, next: Lock, rest: seq<Step>)
    requires Enabled(l, step) && Apply(l, step) == next && EnabledRun(next, rest)
    ensures EnabledRun(l, [step] + rest) && Run(l, [step] + rest) == Run(next, rest)
  {
    assert ([step] + rest)[1..] == rest;
  }

  predicate Holds(l: Lock, t: nat) {
    t in l.readers || l.writer == Some(t)
  }

  /** The lock is held, every holder is itself waiting, and nobody who waits has been woken: no one inside can go on. */
  ghost predicate Stuck(l: Lock) {
    && (exists t :: Holds(l, t))
    && (forall t :: Holds(l, t) ==> t in l.waiting)
    && (forall t :: t in l.waiting ==> !l.waiting[t].awake)
  }

  /** At least two readers, no writer, every reader waiting, and every waiter asleep and waiting to write. */
  ghost predicate UpgradeCircle(l: Lock) {
    && l.writer.None? && (exists a, b :: a != b && a in l.readers && b in l.readers)
    && (forall r :: r in l.readers ==> r in l.waiting)
    && (forall t :: t in l.waiting ==> l.waiting[t] == Wait(true, false))
  }

  lemma SleeperIsBlocked(l: Lock, t: nat)
    requires Good(l) && t in l.waiting && !l.waiting[t].awake
    ensures l.writer != Some(t)
    ensures l.writer.None? ==> l.waiting[t].writing && exists r :: r in l.readers && r != t
  {
  }

  lemma StuckIsCircle(l: Lock)
    requires Good(l) && Stuck(l)
    ensures UpgradeCircle(l)
  {
    hide Good;
    var t :| Holds(l, t);
    if l.writer.Some? {
      assert Holds(l, l.writer.value);
      SleeperIsBlocked(l, l.writer.value);
    } else {
      SleeperIsBlocked(l, t);
      var r :| r in l.readers && r != t;
      forall u | u in l.readers ensures u in l.waiting { assert Holds(l, u); }
      forall u | u in l.waiting ensures l.waiting[u] == Wait(true, false) { SleeperIsBlocked(l, u); }
    }
  }

  /** A lock is stuck exactly in a circle of upgrades: that is the only way it can deadlock. */
  lemma StuckExactly(l: Lock)
    requires Good(l)
    ensures Stuck(l) <==> UpgradeCircle(l)
  {
    hide Good, Stuck, UpgradeCircle;
    if Stuck(l) { StuckIsCircle(l); }
    if UpgradeCircle(l) { CircleIsStuck(l); }
  }

  lemma CircleIsStuck(l: Lock)
    requires UpgradeCircle(l)
    ensures Stuck(l)
  {
    var a, b :| a != b && a in l.readers && b in l.readers;
    assert Holds(l, a);
  }

  datatype LockError = ReadNotHeld | WriteNotHeld

  class ReadWriteLock {
    var readers: map<nat, nat>
    var writer: Option<nat>
    var writerDepth: nat
    ghost var waiting: map<nat, Wait>

    ghost function Now(): Lock
      reads this
    {
      Lock(readers, writer, writerDepth, waiting)
    }

    ghost predicate Valid()
      reads this
    {
      Good(Now())
    }

    constructor ()
      ensures Valid() && Now() == FREE
    {
      readers, writer, writerDepth, waiting := map[], None, 0, map[];
    }

    /** One turn of the loop that acquires the read side: in, or waiting. */
    method LookAsReader(me: nat) returns (entered: bool)
      requires Valid() && (me in waiting ==> waiting[me] == Wait(false, true))
      modifies this
      ensures Valid() && Now() == LookToRead(old(Now()), me)
      ensures entered == old(CanRead(Now(), me))
    {
      hide Good;
      StepKeeps(Now(), if me in waiting then Resume(me) else AcquireRead(me));
      entered := writer.None? || writer == Some(me) || me in readers;
      if entered {
        readers := readers[me := (if me in readers then readers[me] else 0) + 1];
        waiting := waiting - {me};
      } else {
        waiting := waiting[me := Wait(false, false)];
      }
    }

    method ReleaseRead(me: nat) returns (r: Outcome<(), LockError>)
      requires Valid() && me !in waiting
      modifies this
      ensures Valid() && Now() == Apply(old(Now()), ReleaseReadStep(me))
      ensures r.Ok? <==> me in old(readers)
    {
      hide Good;
      StepKeeps(Now(), ReleaseReadStep(me));
      GoodCounts(Now());
      var depth := if me in readers then readers[me] else 0;
      if depth <= 0 {
        return Raised(ReadNotHeld);
      }
      if depth == 1 {
        readers := readers - {me};
      } else {
        readers := readers[me := depth - 1];
      }
      waiting := WakeAll(Now()).waiting;
      return Ok(());
    }

    /** One turn of the loop that acquires the write side: in, or waiting. */
    method LookAsWriter(me: nat) returns (entered: bool)
      requires Valid() && (me in waiting ==> waiting[me] == Wait(true, true))
      modifies this
      ensures Valid() && Now() == LookToWrite(old(Now()), me)
      ensures entered == old(CanWrite(Now(), me))
    {
      hide Good;
      StepKeeps(Now(), if me in waiting then Resume(me) else AcquireWrite(me));
      entered := writer == Some(me) || (writer.None? && forall r :: r in readers ==> r == me);
      if entered {
        writer := Some(me);
        writerDepth := writerDepth + 1;
        waiting := waiting - {me};
      } else {
        waiting := waiting[me := Wait(true, false)];
      }
    }

    method ReleaseWrite(me: nat) returns (r: Outcome<(), LockError>)
      requires Valid() && me !in waiting
      modifies this
      ensures Valid() && Now() == Apply(old(Now()), ReleaseWriteStep(me))
      ensures r.Ok? <==> old(writer) == Some(me)
    {
      hide Good;
      StepKeeps(Now(), ReleaseWriteStep(me));
      GoodCounts(Now());
      if writer != Some(me) || writerDepth <= 0 {
        return Raised(WriteNotHeld);
      }
      writerDepth := writerDepth - 1;
      if writerDepth == 0 {
        writer := None;
      }
      waiting := WakeAll(Now()).waiting;
      return Ok(());
    }
  }

  lemma GoodCounts(l: Lock)
    requires Good(l)
    ensures l.writer.Some? <==> l.depth > 0
    ensures forall r :: r in l.readers ==> l.readers[r] > 0
  {
  }
}
