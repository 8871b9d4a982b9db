/** Admission of a batch and publication of a result: the steps that add handles and forget them. */
module SchedulerAdmission {
  import opened Wrappers
  import opened Sequences
  import opened SchedulerSteps
  import opened SchedulerProofs
  import opened SchedulerKeeps

  // ---------- Publication and eviction ----------

  lemma EvictKeys(s: State)
    requires KeysSound(s) && s.completed != [] && s.completed[0] in s.handles
    ensures KeysSound(EvictOldest(s))
  {
    hide NoDuplicates, RemoveFirst;
    RemoveFirstMembers(s.order, s.completed[0]);
  }

  lemma EvictQueue(c: Config, s: State)
    requires KeysSound(s) && MailboxSound(c, s) && s.completed != []
    requires s.completed[0] in s.handles && s.handles[s.completed[0]].activity != Queued
    ensures KeysSound(EvictOldest(s)) && MailboxSound(c, EvictOldest(s))
  {
    hide NoDuplicates, RemoveFirst, Queue;
    EvictKeys(s);
    QueueEvict(s.order, s.handles, s.completed[0]);
  }

  /** The identity to forget is always still known: forgetting never misses. */
  lemma EvictionKeeps(c: Config, s: State)
    requires Good(c, s) && s.completed != []
    ensures s.completed[0] in s.handles && Done(s.handles[s.completed[0]]) && Good(c, EvictOldest(s))
  {
    hide KeysSound, MailboxSound, NoDuplicates, RemoveFirst;
    var id, t := s.completed[0], EvictOldest(s);
    assert IdSound(s, id) && Done(s.handles[id]);
    assert s.completed == [id] + s.completed[1..];
    GoodQueue(c, s);
    EvictQueue(c, s);
    TailUnique(s.completed);
    ForgottenIsSound(s, t, id);
    KeepsElsewhere(c, s, t, id);
  }

  lemma ForgottenIsSound(s: State, t: State, id: Id)
    requires IdSound(s, id) && id in s.handles && Done(s.handles[id])
    requires t == s.(completed := t.completed, handles := s.handles - {id}, order := t.order)
    ensures IdSound(t, id)
  {
    assert forall n: nat :: Awaiting(t, Task(id, n)) <==> Awaiting(s, Task(id, n));
    hide Awaiting;
    forall n: nat | IsTask(t, Task(id, n)) ensures TaskSound(t, Task(id, n)) { assert IsTask(s, Task(id, n)) && TaskSound(s, Task(id, n)); }
  }

  lemma Retaining(c: Config, s: State, n: nat)
    requires Good(Config(c.capacity, n), s)
    ensures |s.completed| <= c.retained ==> Good(c, s)
  {
  }

  lemma {:induction false} EvictKeeps(c: Config, s: State, n: nat)
    requires Good(Config(c.capacity, n), s)
    ensures Good(c, Evict(c, s))
    decreases |s.completed|
  {
    hide Good, EvictOldest;
    if |s.completed| > c.retained {
      EvictionKeeps(Config(c.capacity, n), s);
      assert |EvictOldest(s).completed| < |s.completed| by { EvictShrinks(s); }
      EvictKeeps(c, EvictOldest(s), n);
    } else {
      Retaining(c, s, n);
    }
  }

  lemma EvictShrinks(s: State)
    requires s.completed != []
    ensures |EvictOldest(s).completed| == |s.completed| - 1
  {
  }

  /** In a good state a publication past its check finds its handle waiting. */
  lemma CheckedIsAwaited(s: State, task: Task)
    requires IdSound(s, task.id) && IsTask(s, task) && Progress(s, task).Checked?
    ensures Joins(s, task.id) && task.id in s.finishing && Registered(s, task.id) == task
    ensures s.handles[task.id].activity != Queued
    ensures Decided(task.id, s.handles[task.id], Progress(s, task).result)
  {
    assert Task(task.id, task.number) == task && TaskSound(s, task);
  }

  lemma DeliverKeeps(c: Config, s: State, task: Task)
    requires Good(c, s) && IsTask(s, task) && Progress(s, task).Checked?
    ensures Joins(s, task.id) && Good(Config(c.capacity, c.retained + 1), Deliver(s, task))
  {
    var id := task.id;
    assert IdSound(s, id);
    CheckedIsAwaited(s, task);
    var d, t := Config(c.capacity, c.retained + 1), Deliver(s, task);
    assert id !in s.completed;
    assert NoDuplicates(t.completed);
    hide NoDuplicates, RemoveFirst, Queue;
    StaysOutOfQueue(c, s, t, id);
    assert MailboxSound(d, t) && MailboxSound(d, s);
    hide KeysSound, MailboxSound;
    assert Good(d, s);
    DeliveredIsSound(s, task);
    KeepsElsewhere(d, s, t, id);
  }

  lemma DeliveredIsSound(s: State, task: Task)
    requires IdSound(s, task.id) && IsTask(s, task) && Progress(s, task).Checked? && Joins(s, task.id)
    ensures IdSound(Deliver(s, task), task.id)
  {
    var id, t := task.id, Deliver(s, task);
    CheckedIsAwaited(s, task);
    assert forall n: nat :: Awaiting(t, Task(id, n)) <==> Awaiting(s, Task(id, n));
    assert forall n: nat :: IsTask(t, Task(id, n)) <==> IsTask(s, Task(id, n));
    hide Awaiting;
    forall n: nat | IsTask(t, Task(id, n)) ensures TaskSound(t, Task(id, n)) { assert IsTask(s, Task(id, n)) && TaskSound(s, Task(id, n)); }
  }

  lemma PublishKeeps(c: Config, s: State, task: Task)
    requires Good(c, s) && IsTask(s, task) && Progress(s, task).Checked?
    ensures Good(c, Publish(c, s, task))
  {
    hide Good;
    DeliverKeeps(c, s, task);
    EvictKeeps(c, Deliver(s, task), c.retained + 1);
  }

  // ---------- Which batches are admitted ----------

  /** Nothing in the batch is unacceptable work, and no identity stands for two different requests. */
  predicate Admissible(handles: map<Id, Handle>, requests: seq<Request>) {
    && (forall r :: r in requests ==> Acceptable(r))
    && (forall r :: r in requests && r.id in handles ==> handles[r.id].request == r)
    && (forall p, q :: p in requests && q in requests && p.id == q.id ==> p == q)
  }

  /** The requests of identities not known before, each at its first occurrence. */
  function FirstNew(handles: map<Id, Handle>, requests: seq<Request>): seq<Request> {
    if requests == [] then []
    else
      var n := |requests| - 1;
      var r := requests[n];
      FirstNew(handles, requests[..n]) + if r.id in handles || FindRequest(requests[..n], r.id).Some? then [] else [r]
  }

  lemma {:induction false} FindAppend(rs: seq<Request>, r: Request, id: Id)
    ensures FindRequest(rs + [r], id) ==
            if FindRequest(rs, id).Some? then FindRequest(rs, id) else if r.id == id then Some(r) else None
  {
    if rs != [] {
      assert (rs + [r])[1..] == rs[1..] + [r];
      FindAppend(rs[1..], r, id);
    }
  }

  lemma FindOrNot(rs: seq<Request>, id: Id)
    ensures FindRequest(rs, id).Some? <==> id in Ids(rs)
  {
    if id in Ids(rs) {
      var i :| 0 <= i < |rs| && Ids(rs)[i] == id;
      assert rs[i] in rs;
    }
    if FindRequest(rs, id).Some? {
      var i :| 0 <= i < |rs| && rs[i] == FindRequest(rs, id).value;
      assert Ids(rs)[i] == id;
    }
  }

  /** Looking an identity up among the new requests is looking it up in the batch. */
  lemma {:induction false} FindFirstNew(handles: map<Id, Handle>, requests: seq<Request>, id: Id)
    ensures FindRequest(FirstNew(handles, requests), id) == if id in handles then None else FindRequest(requests, id)
    decreases |requests|
  {
    if requests != [] {
      var n := |requests| - 1;
      var r, front := requests[n], requests[..n];
      assert requests == front + [r];
      FindFirstNew(handles, front, id);
      FindAppend(front, r, id);
      FindAppend(FirstNew(handles, front), r, id);
      assert FirstNew(handles, front) + [] == FirstNew(handles, front);
    }
  }

  predicate Fresh(handles: map<Id, Handle>, rs: seq<Request>) {
    NoDuplicates(Ids(rs)) && forall id :: id in Ids(rs) ==> id !in handles
  }

  lemma FreshAppend(handles: map<Id, Handle>, rs: seq<Request>, r: Request)
    requires Fresh(handles, rs) && r.id !in Ids(rs) && r.id !in handles
    ensures Fresh(handles, rs + [r])
  {
    assert Ids(rs + [r]) == Ids(rs) + [r.id];
  }

  lemma {:induction false} FirstNewIsFresh(handles: map<Id, Handle>, requests: seq<Request>)
    ensures Fresh(handles, FirstNew(handles, requests))
    decreases |requests|
  {
    if requests != [] {
      var n := |requests| - 1;
      var r, front, before := requests[n], requests[..n], FirstNew(handles, requests[..n]);
      FirstNewIsFresh(handles, front);
      if r.id in handles || FindRequest(front, r.id).Some? {
        assert before + [] == before;
      } else {
        FindFirstNew(handles, front, r.id);
        FindOrNot(before, r.id);
        hide FirstNew, FindRequest;
        FreshAppend(handles, before, r);
      }
    }
  }

  /** What the pass over the batch compares a request with. */
  function Known(handles: map<Id, Handle>, seen: seq<Request>, id: Id): Option<Request> {
    if id in handles then Some(handles[id].request) else FindRequest(seen, id)
  }

  lemma ExtendAdmissible(handles: map<Id, Handle>, front: seq<Request>, r: Request)
    requires Admissible(handles, front)
    ensures Admissible(handles, front + [r]) <==>
            Acceptable(r) && (Known(handles, front, r.id).Some? ==> Known(handles, front, r.id).value == r)
  {
    var all := front + [r];
    assert r in all && forall q :: q in all <==> q in front || q == r;
    if r.id !in handles && FindRequest(front, r.id).Some? {
      assert FindRequest(front, r.id).value in front;
    }
  }

  lemma PrefixAdmissible(handles: map<Id, Handle>, front: seq<Request>, rest: seq<Request>)
    requires Admissible(handles, front + rest)
    ensures Admissible(handles, front)
  {
    assert forall q :: q in front ==> q in front + rest;
  }

  /**
   * The one pass over the batch, after `front` of it: it ends well exactly when the whole batch is admissible, with the
   * new requests at their first occurrence.
   */
  lemma {:induction false} AdmitFrom(handles: map<Id, Handle>, front: seq<Request>, rest: seq<Request>)
    requires Admissible(handles, front)
    ensures var a := Admit(handles, rest, FirstNew(handles, front));
            && (a.Ok? <==> Admissible(handles, front + rest))
            && (a.Ok? ==> a.value == FirstNew(handles, front + rest))
    decreases |rest|
  {
    hide Admissible;
    if rest == [] {
      assert front + rest == front;
    } else {
      var r := rest[0];
      assert front + rest == (front + [r]) + rest[1..];
      assert (front + [r])[..|front|] == front;
      FindFirstNew(handles, front, r.id);
      ExtendAdmissible(handles, front, r);
      assert FirstNew(handles, front) + [] == FirstNew(handles, front);
      if Admissible(handles, front + [r]) {
        AdmitFrom(handles, front + [r], rest[1..]);
      } else if Admissible(handles, front + rest) {
        PrefixAdmissible(handles, front + [r], rest[1..]);
      }
    }
  }

  /**
   * A batch is accepted exactly when requests are being accepted, every request is admissible, and the queue has room
   * for the identities that are new; accepting it queues those, once each, in the order they were given.
   */
  lemma BatchAcceptedExactly(c: Config, s: State, requests: seq<Request>)
    requires KeysSound(s)
    ensures var added := FirstNew(s.handles, requests);
            && (SubmitBatch(c, s, requests).Ok? <==>
                  s.accepting && Admissible(s.handles, requests) && |Queue(s.order, s.handles)| + |added| <= c.capacity)
            && (SubmitBatch(c, s, requests).Ok? ==> SubmitBatch(c, s, requests).value == Install(s, added))
  {
    AdmitFrom(s.handles, [], requests);
    assert [] + requests == requests;
  }

  /** A batch with a reflection of a whole day in it is refused whole. */
  lemma DailyReflectionIsRefused(c: Config, s: State, requests: seq<Request>, r: Request)
    requires KeysSound(s) && r in requests && r.Reflection? && r.daily
    ensures SubmitBatch(c, s, requests).Raised?
    ensures s.accepting && requests[0] == r ==> SubmitBatch(c, s, requests) == Raised(InvalidRequest)
  {
    BatchAcceptedExactly(c, s, requests);
  }

  // ---------- What an admitted batch does ----------

  lemma {:induction false} AddedHandles(handles: map<Id, Handle>, rs: seq<Request>)
    requires NoDuplicates(Ids(rs))
    ensures forall id :: id in AddHandles(handles, rs) <==> id in handles || id in Ids(rs)
    ensures forall id :: id in handles && id !in Ids(rs) ==> AddHandles(handles, rs)[id] == handles[id]
    ensures forall i :: 0 <= i < |rs| ==> rs[i].id in AddHandles(handles, rs) && AddHandles(handles, rs)[rs[i].id] == NewHandle(rs[i])
    decreases |rs|
  {
    if rs != [] {
      var ids := Ids(rs);
      assert ids == [rs[0].id] + Ids(rs[1..]);
      TailUnique(ids);
      assert ids[1..] == Ids(rs[1..]);
      AddedHandles(handles[rs[0].id := NewHandle(rs[0])], rs[1..]);
    }
  }

  lemma InstallKeys(s: State, rs: seq<Request>)
    requires KeysSound(s) && Fresh(s.handles, rs)
    ensures KeysSound(Install(s, rs))
  {
    var t, ids := Install(s, rs), Ids(rs);
    AddedHandles(s.handles, rs);
    hide AddHandles;
    assert NoDuplicates(t.order) by {
      assert forall id :: id in ids ==> id !in s.order;
      forall i, j | 0 <= i < j < |t.order| ensures t.order[i] != t.order[j] {
        if j >= |s.order| { assert t.order[j] == ids[j - |s.order|] && t.order[j] in ids; }
      }
    }
    hide NoDuplicates;
    forall id | id in t.handles ensures id in t.order && t.handles[id].request.id == id {
      if id in ids { var i :| 0 <= i < |rs| && ids[i] == id; assert t.handles[rs[i].id] == NewHandle(rs[i]); }
    }
  }

  lemma InstallOrder(s: State, rs: seq<Request>)
    requires KeysSound(s) && Fresh(s.handles, rs)
    ensures Listed(s.order, s.handles) && Listed(s.order + Ids(rs), AddHandles(s.handles, rs))
    ensures Queue(s.order + Ids(rs), AddHandles(s.handles, rs)) == Queue(s.order, s.handles) + rs
  {
    var ids, handles := Ids(rs), AddHandles(s.handles, rs);
    assert Listed(s.order + ids, handles) by { InstallKeys(s, rs); }
    AddedHandles(s.handles, rs);
    hide NoDuplicates, Queue, AddHandles;
    QueueConcat(s.order, ids, handles);
    QueueSame(s.order, s.handles, handles);
    QueueOfNew(rs, handles);
  }

  lemma WorksConcat(a: seq<Request>, b: seq<Request>)
    ensures Works(a + b) == Works(a) + Works(b)
  {
  }

  lemma InstallQueue(c: Config, s: State, rs: seq<Request>)
    requires KeysSound(s) && MailboxSound(c, s) && s.accepting && Fresh(s.handles, rs)
    requires |Queue(s.order, s.handles)| + |rs| <= c.capacity
    ensures KeysSound(Install(s, rs)) && MailboxSound(c, Install(s, rs))
    ensures Queue(Install(s, rs).order, Install(s, rs).handles) == Queue(s.order, s.handles) + rs
  {
    hide NoDuplicates, Queue, AddHandles, Listed, Works, Ids, Fresh;
    InstallKeys(s, rs);
    InstallOrder(s, rs);
    WorksConcat(Queue(s.order, s.handles), rs);
  }

  lemma NewHandleSound(s: State, t: State, r: Request)
    requires IdSound(s, r.id) && OpenSound(s) && s.accepting && r.id !in s.handles
    requires t == s.(handles := t.handles, order := t.order, mailbox := t.mailbox)
    requires r.id in t.handles && t.handles[r.id] == NewHandle(r)
    ensures IdSound(t, r.id) <==> !Lingering(s, r.id)
  {
    var id := r.id;
    assert forall n: nat :: Awaiting(t, Task(id, n)) <==> Awaiting(s, Task(id, n));
    hide Awaiting;
    if Lingering(s, id) {
      if n: nat :| Awaiting(s, Task(id, n)) {
        assert Awaiting(t, Task(id, n)) && IsTask(s, Task(id, n)) && TaskSound(s, Task(id, n));
      }
    } else {
      forall n: nat | IsTask(t, Task(id, n)) ensures TaskSound(t, Task(id, n)) { assert IsTask(s, Task(id, n)) && TaskSound(s, Task(id, n)); }
    }
  }

  /** A new handle fits in exactly when nothing is left over from an earlier request of its identity. */
  lemma InstallExact(c: Config, s: State, rs: seq<Request>)
    requires Good(c, s) && s.accepting && Fresh(s.handles, rs) && |Queue(s.order, s.handles)| + |rs| <= c.capacity
    ensures Good(c, Install(s, rs)) <==> forall id :: id in Ids(rs) ==> !Lingering(s, id)
  {
    var t := Install(s, rs);
    GoodQueue(c, s);
    InstallQueue(c, s, rs);
    AddedHandles(s.handles, rs);
    hide KeysSound, NoDuplicates, AddHandles, Queue, MailboxSound, IdSound, CompletedSound;
    forall id | id !in Ids(rs) ensures IdSound(t, id) {
      ViewKeeps(s, t, id);
    }
    forall id | id in Ids(rs) ensures IdSound(t, id) <==> !Lingering(s, id) {
      var i :| 0 <= i < |rs| && Ids(rs)[i] == id;
      NewHandleSound(s, t, rs[i]);
    }
    InstallBeside(c, s, rs);
  }

  lemma InstallBeside(c: Config, s: State, rs: seq<Request>)
    requires CompletedSound(c, s) && OpenSound(s) && Fresh(s.handles, rs)
    ensures CompletedSound(c, Install(s, rs)) && OpenSound(Install(s, rs))
  {
    AddedHandles(s.handles, rs);
    hide AddHandles, NoDuplicates;
  }

  lemma SubmitExact(c: Config, s: State, requests: seq<Request>)
    requires KeysSound(s) && Good(c, s)
    ensures Good(c, Apply(c, s, SubmitStep(requests))) <==> Benign(c, s, SubmitStep(requests))
  {
    hide Good, Queue, FirstNew, Install, SubmitBatch, Lingering, NoDuplicates;
    BatchAcceptedExactly(c, s, requests);
    if SubmitBatch(c, s, requests).Ok? {
      var rs := FirstNew(s.handles, requests);
      FirstNewIsFresh(s.handles, requests);
      InstallExact(c, s, rs);
      forall id ensures id in Ids(rs) <==> id !in s.handles && id in Ids(requests) {
        FindOrNot(rs, id);
        FindOrNot(requests, id);
        FindFirstNew(s.handles, requests, id);
      }
      forall r | r in requests ensures r.id in Ids(requests) {
        var i :| 0 <= i < |requests| && requests[i] == r;
        assert Ids(requests)[i] == r.id;
      }
      forall id | id in Ids(requests) ensures exists r :: r in requests && r.id == id {
        FindOrNot(requests, id);
        assert FindRequest(requests, id).value in requests;
      }
    }
  }
}
