/** The scheduler as an object: each atomic section of its methods, tied to its step. */
module RootScheduler {
  import opened Wrappers
  import opened Sequences
  import S = SchedulerSteps
  import P = SchedulerProofs
  import K = SchedulerKeeps
  import A = SchedulerAdmission
  import R = SchedulerRuns
  import E = SchedulerEndings
  import F = SchedulerForward

  class RootScheduler {
    const config: S.Config
    var order: seq<S.Id>
    var handles: map<S.Id, S.Handle>
    var mailbox: seq<S.Entry>
    var completed: seq<S.Id>
    var tasks: map<S.Id, seq<S.Publication>>
    var finishing: map<S.Id, nat>
    var joiners: multiset<S.Task>
    var accepting: bool
    var exitRequested: bool
    var loop: S.Loop
    var closer: S.Closer

    ghost function State(): S.State
      reads this
    {
      S.State(order, handles, mailbox, completed, tasks, finishing, joiners, accepting, exitRequested, loop, closer)
    }

    ghost predicate Valid()
      reads this
    {
      P.KeysSound(State()) && P.MailboxSound(config, State()) && P.Good(config, State())
    }

    constructor (capacity: nat, retained: nat)
      requires capacity > 0 && retained > 0
      ensures Valid() && config == S.Config(capacity, retained) && State() == S.INITIAL
    {
      config := S.Config(capacity, retained);
      order, handles, mailbox, completed := [], map[], [], [];
      tasks, finishing, joiners := map[], map[], multiset{};
      accepting, exitRequested, loop, closer := true, false, S.Idle, S.NotClosing;
      new;
      R.StartIsGood(config);
    }

    /** The first pass over a batch: what is new, or why the batch is refused. Nothing is changed. */
    method Examine(requests: seq<S.Request>) returns (r: Outcome<seq<S.Request>, S.SchedulerError>)
      ensures r == S.Admit(handles, requests, [])
    {
      var pending: seq<S.Request> := [];
      assert requests[0..] == requests;
      for i := 0 to |requests|
        invariant S.Admit(handles, requests, []) == S.Admit(handles, requests[i..], pending)
      {
        var request := requests[i];
        assert requests[i..][0] == request && requests[i..][1..] == requests[i + 1..];
        if !S.Acceptable(request) {
          return Raised(S.InvalidRequest);
        }
        var previous := if request.id in handles then Some(handles[request.id].request) else S.FindRequest(pending, request.id);
        if previous.Some? && previous.value != request {
          return Raised(S.IdentityReused);
        }
        if previous.None? {
          pending := pending + [request];
        }
      }
      return Ok(pending);
    }

    method CountQueued() returns (queued: nat)
      requires P.KeysSound(State())
      ensures queued == |S.Queue(order, handles)|
    {
      queued := 0;
      assert order[0..] == order;
      for i := 0 to |order|
        invariant queued + |S.Queue(order[i..], handles)| == |S.Queue(order, handles)|
      {
        assert order[i..][0] == order[i] && order[i..][1..] == order[i + 1..];
        if handles[order[i]].activity == S.Queued {
          queued := queued + 1;
        }
      }
    }

    method Install(pending: seq<S.Request>)
      modifies this`order, this`handles, this`mailbox
      ensures State() == S.Install(old(State()), pending)
    {
      assert pending[0..] == pending;
      for i := 0 to |pending|
        invariant order == old(order) + S.Ids(pending[..i])
        invariant mailbox == old(mailbox) + S.Works(pending[..i])
        invariant S.AddHandles(handles, pending[i..]) == S.AddHandles(old(handles), pending)
      {
        var request := pending[i];
        assert pending[i..][0] == request && pending[i..][1..] == pending[i + 1..];
        assert S.Ids(pending[..i + 1]) == S.Ids(pending[..i]) + [request.id];
        assert S.Works(pending[..i + 1]) == S.Works(pending[..i]) + [S.Work(request)];
        handles := handles[request.id := S.NewHandle(request)];
        order := order + [request.id];
        mailbox := mailbox + [S.Work(request)];
      }
      assert pending[..|pending|] == pending;
    }

    /** A batch is accepted whole or refused with nothing changed; accepted, each request answers with its own handle. */
    method SubmitBatch(requests: seq<S.Request>) returns (r: Outcome<seq<S.Handle>, S.SchedulerError>)
      requires Valid()
      modifies this`order, this`handles, this`mailbox
      ensures match S.SubmitBatch(config, old(State()), requests)
              case Raised(e) => r == Raised(e) && State() == old(State())
              case Ok(t) => State() == t && r.Ok? && |r.value| == |requests|
                            && forall i :: 0 <= i < |requests| ==>
                                 requests[i].id in handles && r.value[i] == handles[requests[i].id] && r.value[i].request == requests[i]
      ensures P.Benign(config, old(State()), S.SubmitStep(requests)) ==> Valid()
    {
      hide P.MailboxSound, P.Good, NoDuplicates, P.Benign, S.Install;
      ghost var step := S.SubmitStep(requests);
      A.SubmitExact(config, State(), requests);
      if P.Benign(config, State(), step) { R.GoodStaysSound(config, S.Apply(config, State(), step)); }
      if !accepting {
        return Raised(S.ClosedError);
      }
      var examined := Examine(requests);
      if examined.Raised? {
        return Raised(examined.error);
      }
      var queued := CountQueued();
      if queued + |examined.value| > config.capacity {
        return Raised(S.QueueFull);
      }
      R.AcceptedAreKnown(config, State(), requests);
      Install(examined.value);
      r := Ok(seq(|requests|, i requires 0 <= i < |requests| && requests[i].id in handles reads this => handles[requests[i].id]));
    }

    /** Exit cancels every handle, then queues itself behind all work; a second exit changes nothing. */
    method RequestExit() returns (r: Outcome<(), S.SchedulerError>)
      requires Valid()
      modifies this`exitRequested, this`accepting, this`handles, this`mailbox
      ensures match S.RequestExit(old(State()))
              case Raised(e) => r == Raised(e) && State() == old(State())
              case Ok(t) => r == Ok(()) && State() == t
      ensures Valid()
    {
      hide P.MailboxSound, P.Good, NoDuplicates, S.SubmitBatch, S.CancelRequest, S.TakeNext, S.DispatchResume, S.CloseNext, S.Publish, S.Check;
      K.ExitKeeps(config, State());
      R.GoodStaysSound(config, S.Apply(config, State(), S.ExitStep));
      if exitRequested {
        return Ok(());
      }
      if !accepting {
        return Raised(S.ClosedError);
      }
      exitRequested, accepting := true, false;
      CancelHandles();
      mailbox := mailbox + [S.Exit];
      return Ok(());
    }

    /** Every retained handle is asked to stop. */
    method CancelHandles()
      requires S.Consistent(State())
      modifies this`handles
      ensures handles == map id | id in old(handles) :: S.RequestCancel(old(handles)[id])
    {
      hide S.RequestCancel;
      for i := 0 to |order|
        invariant handles.Keys == old(handles).Keys
        invariant forall id :: id in handles ==>
                    handles[id] == if id in order[..i] then S.RequestCancel(old(handles)[id]) else old(handles)[id]
      {
        assert order[..i + 1] == order[..i] + [order[i]];
        RequestCancelIdempotent(old(handles)[order[i]]);
        handles := handles[order[i] := S.RequestCancel(handles[order[i]])];
      }
      assert order[..|order|] == order;
    }

    /**
     * A completion up to its first suspension: the first caller decides the result, later ones join it. The answer is the
     * task to await; a registered task that is already over is taken off the table without waiting, its refusal raised.
     */
    method BeginFinish(id: S.Id, result: S.Result) returns (awaited: Option<S.Task>, raised: bool)
      modifies this`handles, this`tasks, this`finishing
      ensures State() == S.BeginFinish(old(State()), id, result)
      ensures awaited == S.Awaited(old(State()), State(), id) && raised == S.JoinRaises(old(State()), id)
    {
      if id !in handles || S.Done(handles[id]) {
        return None, false;
      }
      var known := if id in tasks then tasks[id] else [];
      if id !in finishing {
        handles := handles[id := handles[id].(activity := S.Finalizing)];
        tasks := tasks[id := known + [S.Pending(result)]];
        finishing := finishing[id := |known|];
        return Some(S.Task(id, |known|)), false;
      }
      var number := finishing[id];
      if number < |known| && S.Unfinished(known[number]) {
        return Some(S.Task(id, number)), false;
      }
      finishing := finishing - {id};
      return None, number < |known| && known[number].Refused?;
    }

    /** Cancelling up to its first suspension: a queued request leaves the mailbox and starts its completion. */
    method CancelRequest(id: S.Id) returns (cancelled: bool)
      requires Valid()
      modifies this`handles, this`mailbox, this`tasks, this`finishing, this`joiners
      ensures Valid() && State() == S.CancelRequest(old(State()), id)
      ensures cancelled == (id in old(handles) && S.Cancellable(old(handles)[id]))
    {
      hide P.MailboxSound, P.Good, P.KeysSound, NoDuplicates, RemoveFirst, S.Queue, S.BeginFinish, S.Awaited, S.JoinRaises, S.Cancellable;
      K.CancelKeeps(config, State(), id);
      R.GoodStaysSound(config, S.CancelRequest(State(), id));
      CancelInSteps(State(), id);
      hide S.CancelRequest;
      if id !in handles || !S.Cancellable(handles[id]) {
        return false;
      }
      handles := handles[id := handles[id].(cancelRequested := true)];
      if handles[id].activity == S.Queued {
        mailbox := RemoveFirst(mailbox, S.Work(handles[id].request));
        var awaited, _ := BeginFinish(id, S.Result(id, None, S.Cancelled));
        joiners := joiners + if awaited.Some? then multiset{awaited.value} else multiset{};
      }
      return true;
    }

    /** The end of a publication: the result is set once, and the oldest completions beyond the limit are forgotten. */
    method Publish(task: S.Task)
      requires Valid() && task.id in tasks && task.number < |tasks[task.id]| && tasks[task.id][task.number].Checked?
      modifies this`handles, this`tasks, this`completed, this`order
      ensures Valid() && State() == S.Publish(config, old(State()), task)
      ensures |completed| <= config.retained
    {
      hide P.MailboxSound, P.Good, NoDuplicates, RemoveFirst;
      A.PublishKeeps(config, State(), task);
      R.GoodStaysSound(config, S.Publish(config, State(), task));
      A.DeliverKeeps(config, State(), task);
      ghost var wide := S.Config(config.capacity, config.retained + 1);
      var id, result := task.id, tasks[task.id][task.number].result;
      handles := handles[id := handles[id].(activity := S.Finished, taskEnded := false, result := Some(result))];
      tasks := tasks[id := tasks[id][task.number := S.Published]];
      completed := completed + [id];
      while |completed| > config.retained
        invariant P.Good(wide, State())
        invariant S.Evict(config, State()) == S.Publish(config, old(State()), task)
        decreases |completed|
      {
        ghost var before := State();
        A.EvictionKeeps(wide, before);
        var oldest := completed[0];
        completed := completed[1..];
        handles := handles - {oldest};
        order := RemoveFirst(order, oldest);
        assert State() == S.EvictOldest(before);
      }
    }

    /**
     * The dispatch goes on after its execution: an undecided request gets exactly the ending the execution had, under the
     * turn it was given, and the loop ends exactly if the dispatch raises.
     */
    method DispatchResume(ending: S.Ending, raising: bool)
      requires Valid() && loop.Executing? && loop.ended
      modifies this`loop, this`handles, this`tasks, this`finishing
      ensures Valid() && State() == S.DispatchResume(old(State()), ending, raising)
      ensures var id := old(loop.id);
              S.Joins(old(State()), id) && old(E.DecidedResult(State(), id)).None? ==>
                E.DecidedResult(State(), id) == Some(S.Result(id, old(handles)[id].turnId, ending))
      ensures F.LoopIsOver(State()) <==> raising
    {
      hide P.MailboxSound, P.Good, P.KeysSound, NoDuplicates, S.Queue, S.BeginFinish, E.DecidedResult;
      ghost var before := State();
      DispatchInSteps(before, ending, raising);
      E.DispatchDecides(config, before, ending, raising, loop.id);
      F.DispatchEndsLoopExactly(config, before, ending, raising);
      K.DispatchResumeKeeps(config, before, ending, raising);
      R.GoodStaysSound(config, S.DispatchResume(before, ending, raising));
      hide S.DispatchResume, S.Awaited, S.JoinRaises, S.Done, F.LoopIsOver;
      var id := loop.id;
      var turnId := if id in handles then handles[id].turnId else None;
      var awaited, raised := BeginFinish(id, S.Result(id, turnId, ending));
      loop := if awaited.Some? then S.Joining(awaited.value, raising) else if raising || raised then S.Stopped else S.Idle;
      assert State() == S.DispatchResume(before, ending, raising);
    }

    /** The loop takes its next entry: it ends on an exit, settles a cancelled request, or binds and executes it. */
    method TakeNext()
      requires Valid() && loop.Idle? && mailbox != []
      modifies this`mailbox, this`loop, this`handles, this`tasks, this`finishing
      ensures Valid() && State() == S.TakeNext(old(State()))
      ensures loop.Stopped? ==> old(mailbox)[0].Exit? && forall id :: id in handles ==> handles[id].activity != S.Queued
    {
      hide P.MailboxSound, P.Good, P.KeysSound, NoDuplicates, S.Queue, S.Cancellable, S.RequestCancel, S.BeginFinish;
      R.StopsOnExitOnly(config, State());
      TakeInSteps(State());
      hide S.TakeNext, S.Awaited, S.JoinRaises, S.Done;
      K.TakeNextKeeps(config, State());
      R.GoodStaysSound(config, S.TakeNext(State()));
      var entry := mailbox[0];
      mailbox := mailbox[1..];
      if entry.Exit? {
        loop := S.Stopped;
        assert State() == S.TakeNext(old(State()));
        return;
      }
      var id := entry.request.id;
      var handle := handles[id];
      if handle.cancelRequested {
        var awaited, raised := BeginFinish(id, S.Result(id, None, S.Cancelled));
        loop := if awaited.Some? then S.Joining(awaited.value, false) else if raised then S.Stopped else S.Idle;
        assert State() == S.TakeNext(old(State()));
      } else {
        handles := handles[id := handle.(activity := S.Preparing)];
        loop := S.Executing(id, false);
        assert State() == S.TakeNext(old(State()));
      }
    }
  }

  lemma DispatchInSteps(s: S.State, e: S.Ending, raising: bool)
    requires s.loop.Executing?
    ensures var id := s.loop.id;
            var t := S.BeginFinish(s, id, S.Result(id, if id in s.handles then s.handles[id].turnId else None, e));
            var awaited := S.Awaited(s, t, id);
            S.DispatchResume(s, e, raising)
            == t.(loop := if awaited.Some? then S.Joining(awaited.value, raising)
                          else if raising || S.JoinRaises(s, id) then S.Stopped else S.Idle)
  {
    hide S.BeginFinish, S.Awaited, S.JoinRaises;
  }

  lemma CancelInSteps(s: S.State, id: S.Id)
    ensures !(id in s.handles && S.Cancellable(s.handles[id])) ==> S.CancelRequest(s, id) == s
    ensures id in s.handles && S.Cancellable(s.handles[id]) ==>
              var t := s.(handles := s.handles[id := s.handles[id].(cancelRequested := true)]);
              var u := t.(mailbox := RemoveFirst(s.mailbox, S.Work(s.handles[id].request)));
              var v := S.BeginFinish(u, id, S.Result(id, None, S.Cancelled));
              var awaited := S.Awaited(u, v, id);
              S.CancelRequest(s, id) == if s.handles[id].activity != S.Queued then t
                                        else v.(joiners := v.joiners + if awaited.Some? then multiset{awaited.value} else multiset{})
  {
    hide RemoveFirst, S.BeginFinish, S.Awaited;
  }

  lemma TakeInSteps(s: S.State)
    requires s.mailbox != []
    ensures s.mailbox[0].Exit? ==> S.TakeNext(s) == s.(mailbox := s.mailbox[1..], loop := S.Stopped)
    ensures s.mailbox[0].Work? && s.mailbox[0].request.id in s.handles ==>
              var id, t := s.mailbox[0].request.id, s.(mailbox := s.mailbox[1..]);
              var u := S.BeginFinish(t, id, S.Result(id, None, S.Cancelled));
              var awaited := S.Awaited(t, u, id);
              && (s.handles[id].cancelRequested ==>
                    S.TakeNext(s) == u.(loop := if awaited.Some? then S.Joining(awaited.value, false)
                                                else if S.JoinRaises(t, id) then S.Stopped else S.Idle))
              && (!s.handles[id].cancelRequested && s.handles[id].activity == S.Queued ==>
                    S.TakeNext(s) == t.(handles := t.handles[id := t.handles[id].(activity := S.Preparing)], loop := S.Executing(id, false)))
  {
    hide S.BeginFinish, S.Awaited, S.JoinRaises;
  }

  lemma RequestCancelIdempotent(h: S.Handle)
    ensures S.RequestCancel(S.RequestCancel(h)) == S.RequestCancel(h)
  {
  }
}
