/** What every run of the scheduler keeps. */
module SchedulerProofs {
  import opened Wrappers
  import opened Sequences
  import opened SchedulerSteps

  // ---------- The invariant ----------

  predicate KeysSound(s: State) {
    && Consistent(s) && NoDuplicates(s.order)
    && forall id :: id in s.handles ==> s.handles[id].request.id == id
  }

  /** The mailbox holds exactly the queued requests in acceptance order, and at most one exit behind them. */
  predicate MailboxSound(c: Config, s: State)
    requires KeysSound(s)
  {
    var queue := Queue(s.order, s.handles);
    && |queue| <= c.capacity
    && (s.mailbox == Works(queue) || (s.exitRequested && s.mailbox == Works(queue) + [Exit]))
    && (s.exitRequested ==> !s.accepting)
  }

  /** The retained completions are distinct, known and done, and no more than the limit. */
  predicate CompletedSound(c: Config, s: State) {
    && NoDuplicates(s.completed) && |s.completed| <= c.retained
    && forall id :: id in s.completed ==> id in s.handles && Done(s.handles[id])
  }

  /** While requests are accepted nobody has closed, and what is executing is still undecided. */
  predicate OpenSound(s: State) {
    s.accepting ==>
      && s.closer.NotClosing?
      && (s.loop.Executing? ==> s.loop.id in s.handles && !Done(s.handles[s.loop.id]) && s.loop.id !in s.finishing)
  }

  /** The registered publication is running. */
  predicate InFlight(s: State, id: Id) {
    id in s.finishing && Live(s, Registered(s, id))
  }

  predicate IsExecuting(s: State, id: Id) {
    s.loop.Executing? && s.loop.id == id
  }

  /** Somebody is suspended on this publication: a cancelling caller, the loop or the closer. */
  predicate Awaiting(s: State, task: Task) {
    task in s.joiners || (s.loop.Joining? && s.loop.task == task) || (s.closer.Closing? && s.closer.current == Some(task))
  }

  predicate ToClose(s: State, id: Id) {
    s.closer.Closing? && (id in s.closer.rest || (s.closer.current.Some? && s.closer.current.value.id == id))
  }

  predicate Decided(id: Id, h: Handle, r: Result) {
    !Done(h) && r.requestId == id && r.turnId == h.turnId
  }

  /** A running publication is the registered one and carries the one result its handle is waiting for; none is refused. */
  predicate TaskSound(s: State, task: Task)
    requires IsTask(s, task)
  {
    match Progress(s, task)
    case Pending(r) => task.id in s.finishing && Registered(s, task.id) == task && task.id in s.handles && Decided(task.id, s.handles[task.id], r)
    case Checked(r) => task.id in s.finishing && Registered(s, task.id) == task && task.id in s.handles && Decided(task.id, s.handles[task.id], r)
    case Published => true
    case Refused => false
  }

  ghost predicate TasksSound(s: State, id: Id) {
    && (id in s.finishing ==> IsTask(s, Registered(s, id)))
    && (forall n: nat :: IsTask(s, Task(id, n)) ==> TaskSound(s, Task(id, n)))
    && (forall n: nat :: Awaiting(s, Task(id, n)) ==> IsTask(s, Task(id, n)))
  }

  /** A queued handle is untouched: no turn, no task, nobody executing or finishing it. */
  predicate QueuedUntouched(s: State, id: Id)
    requires id in s.handles
  {
    s.handles[id].activity == Queued ==>
      s.handles[id].turnId.None? && !s.handles[id].taskEnded && id !in s.finishing && !IsExecuting(s, id)
  }

  /** A done handle is a retained completion whose result names its own request and the turn that request was given. */
  predicate DoneSound(s: State, id: Id)
    requires id in s.handles && Done(s.handles[id])
  {
    && id in s.completed && s.handles[id].activity != Queued
    && s.handles[id].result.value.requestId == id && s.handles[id].result.value.turnId == s.handles[id].turnId
  }

  /**
   * No accepted request is lost: until it is done it is queued, executing or being published, whoever has joined its
   * publication has joined a live one, and a close under way still has it ahead.
   */
  ghost predicate OpenHandleSound(s: State, id: Id)
    requires id in s.handles && !Done(s.handles[id])
  {
    && (s.handles[id].activity == Queued || IsExecuting(s, id) || InFlight(s, id))
    && (id in s.finishing ==> InFlight(s, id))
    && (forall n: nat :: Awaiting(s, Task(id, n)) ==> Live(s, Task(id, n)))
    && (s.closer.Closing? ==> ToClose(s, id))
    && !s.closer.Closed?
  }

  ghost predicate IdSound(s: State, id: Id) {
    && TasksSound(s, id)
    && (id in s.handles ==>
          QueuedUntouched(s, id) && if Done(s.handles[id]) then DoneSound(s, id) else OpenHandleSound(s, id))
  }

  ghost predicate Good(c: Config, s: State) {
    && KeysSound(s) && MailboxSound(c, s) && CompletedSound(c, s) && OpenSound(s)
    && forall id :: IdSound(s, id)
  }

  /** Some earlier request of this identity still has a publication entry or a joiner that has not resumed. */
  ghost predicate Lingering(s: State, id: Id) {
    id in s.finishing || exists n: nat :: Awaiting(s, Task(id, n))
  }

  /**
   * The two races the source does not exclude: an identity evicted after completion is accepted again while a caller
   * is still joined to its old publication, and a turn is bound to a handle whose result is already decided.
   */
  ghost predicate Benign(c: Config, s: State, step: Step)
    requires Consistent(s)
  {
    match step
    case SubmitStep(requests) =>
      SubmitBatch(c, s, requests).Ok? ==> forall r :: r in requests && r.id !in s.handles ==> !Lingering(s, r.id)
    case BindTurnStep(_) =>
      s.loop.Executing? && s.loop.id in s.handles && s.handles[s.loop.id].turnId.None? ==>
        !Done(s.handles[s.loop.id]) && !InFlight(s, s.loop.id)
    case _ => true
  }

  predicate EnabledRun(c: Config, s: State, steps: seq<Step>)
    decreases |steps|
  {
    steps == [] || (Consistent(s) && Enabled(s, steps[0]) && EnabledRun(c, Apply(c, s, steps[0]), steps[1..]))
  }

  function Run(c: Config, s: State, steps: seq<Step>): State
    requires EnabledRun(c, s, steps)
    decreases |steps|
  {
    if steps == [] then s else Run(c, Apply(c, s, steps[0]), steps[1..])
  }

  ghost predicate AllBenign(c: Config, s: State, steps: seq<Step>)
    requires EnabledRun(c, s, steps)
    decreases |steps|
  {
    steps == [] || (Benign(c, s, steps[0]) && AllBenign(c, Apply(c, s, steps[0]), steps[1..]))
  }

  // ---------- Queues and sequences ----------

  lemma {:induction false} RemoveFirstMembers<T>(xs: seq<T>, x: T)
    ensures forall y :: y in RemoveFirst(xs, x) ==> y in xs
    ensures forall y :: y in xs && y != x ==> y in RemoveFirst(xs, x)
    ensures x !in xs ==> RemoveFirst(xs, x) == xs
    ensures NoDuplicates(xs) ==> NoDuplicates(RemoveFirst(xs, x)) && x !in RemoveFirst(xs, x)
  {
    if xs != [] && xs[0] != x {
      RemoveFirstMembers(xs[1..], x);
      assert xs == [xs[0]] + xs[1..];
      var r := RemoveFirst(xs[1..], x);
      if NoDuplicates(xs) {
        assert NoDuplicates(xs[1..]);
        assert xs[0] !in xs[1..];
        assert NoDuplicates([xs[0]] + r);
      }
    } else if xs != [] {
      assert xs == [xs[0]] + xs[1..];
      if NoDuplicates(xs) { assert xs[0] !in xs[1..] && NoDuplicates(xs[1..]); }
    }
  }

  predicate Listed(order: seq<Id>, handles: map<Id, Handle>) {
    forall id :: id in order ==> id in handles && handles[id].request.id == id
  }

  lemma {:induction false} QueueMember(order: seq<Id>, handles: map<Id, Handle>, r: Request)
    requires Listed(order, handles)
    ensures r in Queue(order, handles) <==> r.id in order && handles[r.id].activity == Queued && handles[r.id].request == r
  {
    if order != [] {
      assert order == [order[0]] + order[1..];
      QueueMember(order[1..], handles, r);
    }
  }

  lemma {:induction false} QueueSame(order: seq<Id>, handles: map<Id, Handle>, handles': map<Id, Handle>)
    requires Listed(order, handles) && Listed(order, handles')
    requires forall id :: id in order ==>
               (handles[id].activity == Queued <==> handles'[id].activity == Queued) && handles'[id].request == handles[id].request
    ensures Queue(order, handles') == Queue(order, handles)
  {
    if order != [] { QueueSame(order[1..], handles, handles'); }
  }

  /** A queued handle that stops being queued leaves the queue; the rest keep their order. */
  lemma {:induction false} QueueLeave(order: seq<Id>, handles: map<Id, Handle>, id: Id, h: Handle)
    requires Listed(order, handles) && NoDuplicates(order) && id in order
    requires handles[id].activity == Queued && h.activity != Queued && h.request == handles[id].request
    ensures Queue(order, handles[id := h]) == RemoveFirst(Queue(order, handles), h.request)
  {
    var rest := order[1..];
    assert order == [order[0]] + rest;
    if order[0] == id {
      assert id !in rest;
      QueueSame(rest, handles, handles[id := h]);
      assert Queue(order, handles) == [h.request] + Queue(rest, handles);
    } else {
      QueueLeave(rest, handles, id, h);
      var head := handles[order[0]];
      assert head.request != h.request;
      if head.activity == Queued {
        assert Queue(order, handles) == [head.request] + Queue(rest, handles);
        assert Queue(order, handles[id := h]) == [head.request] + Queue(rest, handles[id := h]);
      } else {
        assert Queue(order, handles) == [] + Queue(rest, handles) == Queue(rest, handles);
        assert Queue(order, handles[id := h]) == [] + Queue(rest, handles[id := h]) == Queue(rest, handles[id := h]);
      }
    }
  }

  lemma QueueKeep(order: seq<Id>, handles: map<Id, Handle>, id: Id, h: Handle)
    requires Listed(order, handles) && id in handles
    requires (handles[id].activity == Queued <==> h.activity == Queued) && h.request == handles[id].request
    ensures Queue(order, handles[id := h]) == Queue(order, handles)
  {
    QueueSame(order, handles, handles[id := h]);
  }

  lemma {:induction false} QueueEvict(order: seq<Id>, handles: map<Id, Handle>, id: Id)
    requires Listed(order, handles) && NoDuplicates(order) && id in order && handles[id].activity != Queued
    ensures Listed(RemoveFirst(order, id), handles - {id})
    ensures Queue(RemoveFirst(order, id), handles - {id}) == Queue(order, handles)
  {
    var rest := order[1..];
    assert order == [order[0]] + rest;
    RemoveFirstMembers(order, id);
    if order[0] == id {
      QueueSame(rest, handles, handles - {id});
    } else {
      QueueEvict(rest, handles, id);
    }
  }

  lemma {:induction false} QueueConcat(a: seq<Id>, b: seq<Id>, handles: map<Id, Handle>)
    requires Listed(a + b, handles)
    ensures Listed(a, handles) && Listed(b, handles)
    ensures Queue(a + b, handles) == Queue(a, handles) + Queue(b, handles)
  {
    assert forall id :: id in a || id in b ==> id in a + b;
    if a == [] {
      assert a + b == b;
    } else {
      assert (a + b)[1..] == a[1..] + b;
      QueueConcat(a[1..], b, handles);
    }
  }

  lemma {:induction false} QueueOfNew(rs: seq<Request>, handles: map<Id, Handle>)
    requires Listed(Ids(rs), handles)
    requires forall i :: 0 <= i < |rs| ==> rs[i].id in handles && handles[rs[i].id] == NewHandle(rs[i])
    ensures Queue(Ids(rs), handles) == rs
  {
    if rs != [] {
      assert Ids(rs)[1..] == Ids(rs[1..]);
      QueueOfNew(rs[1..], handles);
    }
  }

  lemma {:induction false} DropWork(queue: seq<Request>, tail: seq<Entry>, r: Request)
    requires forall e :: e in tail ==> e.Exit?
    ensures RemoveFirst(Works(queue) + tail, Work(r)) == Works(RemoveFirst(queue, r)) + tail
  {
    if queue == [] {
      assert Works(queue) + tail == tail;
      RemoveFirstMembers(tail, Work(r));
    } else {
      var all := Works(queue) + tail;
      assert all[0] == Work(queue[0]) && all[1..] == Works(queue[1..]) + tail;
      DropWork(queue[1..], tail, r);
      if queue[0] != r {
        var q := RemoveFirst(queue[1..], r);
        assert Works([queue[0]] + q) == [Work(queue[0])] + Works(q);
      }
    }
  }
}
