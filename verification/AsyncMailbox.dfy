/**
 * The mailbox between producers on any thread and one consumer on its event loop. The locked sections are atomic; a
 * producer may run between any two of them, and the consumer's loop runs the scheduled wake-ups when it gets to them.
 */
module AsyncMailbox {
  import opened Wrappers
  import opened Sequences

  /** The consumer is elsewhere, or suspended on the event. */
  datatype Consumer = Away | Suspended

  /**
   * `accepted` and `settled` keep the history: everything put, and everything that has left, each entry with whether it
   * was delivered or discarded.
   */
  datatype State<T> = State(
    items: seq<T>,
    bound: bool,
    loopClosed: bool,
    ready: bool,
    wakeUps: nat,
    consumer: Consumer,
    accepted: seq<T>,
    delivered: seq<T>,
    discarded: multiset<T>)

  function Fresh<T>(): State<T> {
    State([], false, false, false, 0, Away, [], [], multiset{})
  }

  /** A put may find the loop open and have it close before its wake-up is scheduled. */
  datatype Step<T> = Put(item: T, closes: bool) | Look | WakeUp | Discard(item: T) | TakeNow | CancelGet | CloseLoop

  predicate Enabled<T(==)>(s: State<T>, step: Step<T>) {
    match step
    case Put(_, _) => !(s.bound && s.loopClosed)
    // The consumer looks when it starts to get, or resumes because the event was set.
    case Look => !s.loopClosed && (s.consumer.Away? || s.ready)
    case WakeUp => s.wakeUps > 0 && !s.loopClosed
    case Discard(_) => true
    case TakeNow => s.items != []
    case CancelGet => s.consumer.Suspended?
    case CloseLoop => true
  }

  function Take<T>(s: State<T>): State<T>
    requires s.items != []
  {
    s.(items := s.items[1..], delivered := s.delivered + [s.items[0]])
  }

  function Apply<T(==)>(s: State<T>, step: Step<T>): State<T>
    requires Enabled(s, step)
  {
    match step
    case Put(item, closes) =>
      var t := s.(items := s.items + [item], accepted := s.accepted + [item]);
      if !s.bound then t else if closes then t.(loopClosed := true) else t.(wakeUps := s.wakeUps + 1)
    case Look =>
      if s.items != [] then Take(s).(bound := true, consumer := Away)
      else s.(bound := true, ready := false, consumer := Suspended)
    case WakeUp => s.(wakeUps := s.wakeUps - 1, ready := true)
    case Discard(item) =>
      if item in s.items then s.(items := RemoveFirst(s.items, item), discarded := s.discarded + multiset{item}) else s
    case TakeNow => Take(s)
    case CancelGet => s.(consumer := Away)
    case CloseLoop => s.(loopClosed := true)
  }

  predicate EnabledRun<T(==)>(s: State<T>, steps: seq<Step<T>>)
    decreases |steps|
  {
    steps == [] || (Enabled(s, steps[0]) && EnabledRun(Apply(s, steps[0]), steps[1..]))
  }

  function Run<T(==)>(s: State<T>, steps: seq<Step<T>>): State<T>
    requires EnabledRun(s, steps)
    decreases |steps|
  {
    if steps == [] then s else Run(Apply(s, steps[0]), steps[1..])
  }

  /** On an open loop, a suspended consumer with something to take has its event set or a wake-up on the way. */
  predicate Awake<T(==)>(s: State<T>) {
    s.consumer.Suspended? && !s.loopClosed ==> s.bound && (s.items != [] ==> s.ready || s.wakeUps > 0)
  }

  /** What was put is what was delivered, what was discarded, and what is still there. */
  ghost predicate Conserved<T>(s: State<T>) {
    multiset(s.accepted) == multiset(s.delivered) + s.discarded + multiset(s.items)
  }

  /** What was delivered, then what is still there, come in the order they were put. */
  ghost predicate InOrder<T>(s: State<T>) {
    IsSublist(s.delivered + s.items, s.accepted)
  }

  ghost predicate Good<T>(s: State<T>) {
    Awake(s) && Conserved(s) && InOrder(s)
  }

  lemma {:induction false} RemovedOne<T>(items: seq<T>, item: T)
    requires item in items
    ensures multiset(items) == multiset(RemoveFirst(items, item)) + multiset{item}
  {
    assert items == [items[0]] + items[1..];
    if items[0] != item {
      RemovedOne(items[1..], item);
      var rest := RemoveFirst(items[1..], item);
      assert multiset([items[0]] + rest) == multiset{items[0]} + multiset(rest);
    }
  }

  lemma {:induction false} RemoveOneAt<T>(items: seq<T>, item: T) returns (i: nat)
    requires item in items
    ensures i < |items| && RemoveFirst(items, item) == items[..i] + items[i + 1..]
  {
    if items[0] == item {
      i := 0;
    } else {
      assert items == [items[0]] + items[1..];
      var j := RemoveOneAt(items[1..], item);
      i := j + 1;
    }
  }

  lemma StepKeeps<T>(s: State<T>, step: Step<T>)
    requires Good(s) && Enabled(s, step)
    ensures Good(Apply(s, step))
  {
    var t := Apply(s, step);
    match step
    case Put(item, closes) =>
      PutKeeps(s, item);
    case Look => if s.items != [] { TakeKeeps(s); }
    case TakeNow => TakeKeeps(s);
    case Discard(item) => if item in s.items { DiscardKeeps(s, item); }
    case WakeUp =>
    case CancelGet =>
    case CloseLoop =>
  }

  lemma CountOne<T>(items: seq<T>, item: T)
    ensures multiset(items + [item]) == multiset(items) + multiset{item}
    ensures multiset([item] + items) == multiset(items) + multiset{item}
  {
  }

  lemma PutKeeps<T>(s: State<T>, item: T)
    requires Conserved(s) && InOrder(s)
    ensures var t := s.(items := s.items + [item], accepted := s.accepted + [item]); Conserved(t) && InOrder(t)
  {
    PutOrdered(s.delivered, s.items, s.accepted, item);
    hide IsSublist;
    CountOne(s.items, item);
    CountOne(s.accepted, item);
  }

  lemma PutOrdered<T>(delivered: seq<T>, items: seq<T>, accepted: seq<T>, item: T)
    requires IsSublist(delivered + items, accepted)
    ensures IsSublist(delivered + (items + [item]), accepted + [item])
  {
    AppendSublist(delivered + items, accepted, item);
    assert delivered + items + [item] == delivered + (items + [item]);
  }

  lemma TakeKeeps<T>(s: State<T>)
    requires Conserved(s) && InOrder(s) && s.items != []
    ensures Conserved(Take(s)) && InOrder(Take(s))
  {
    hide IsSublist;
    var first, rest := s.items[0], s.items[1..];
    assert s.items == [first] + rest;
    assert s.delivered + s.items == s.delivered + [first] + rest;
    CountOne(s.delivered, first);
    CountOne(rest, first);
  }

  lemma DiscardOrdered<T>(delivered: seq<T>, items: seq<T>, accepted: seq<T>, item: T)
    requires IsSublist(delivered + items, accepted) && item in items
    ensures IsSublist(delivered + RemoveFirst(items, item), accepted)
  {
    hide IsSublist, RemoveFirst;
    var i := RemoveOneAt(items, item);
    var part := delivered + items;
    DropFromSublist(part, |delivered| + i, accepted);
    assert part[..|delivered| + i] + part[|delivered| + i + 1..] == delivered + RemoveFirst(items, item);
  }

  lemma DiscardKeeps<T>(s: State<T>, item: T)
    requires Conserved(s) && InOrder(s) && item in s.items
    ensures var t := s.(items := RemoveFirst(s.items, item), discarded := s.discarded + multiset{item}); Conserved(t) && InOrder(t)
  {
    hide IsSublist, RemoveFirst;
    RemovedOne(s.items, item);
    DiscardOrdered(s.delivered, s.items, s.accepted, item);
  }

  /**
   * Over every interleaving of producers, the consumer, its loop's wake-ups, cancellations and discards: entries are
   * delivered in the order they were put, none lost or doubled, and a suspended consumer is never forgotten.
   */
  lemma {:induction false} RunKeeps<T>(s: State<T>, steps: seq<Step<T>>)
    requires Good(s) && EnabledRun(s, steps)
    ensures Good(Run(s, steps))
    decreases |steps|
  {
    hide Good, Apply, Enabled;
    if steps != [] {
      StepKeeps(s, steps[0]);
      RunKeeps(Apply(s, steps[0]), steps[1..]);
    }
  }

  lemma FreshIsGood<T>()
    ensures Good<T>(Fresh())
  {
  }

  // ---------- The mailbox as an object ----------

  datatype MailboxError = LoopClosed | Empty

  class AsyncMailbox<T(==)> {
    var items: seq<T>
    var bound: bool
    var loopClosed: bool
    var ready: bool
    var wakeUps: nat
    var consumer: Consumer
    ghost var accepted: seq<T>
    ghost var delivered: seq<T>
    ghost var discarded: multiset<T>

    ghost function Now(): State<T>
      reads this
    {
      State(items, bound, loopClosed, ready, wakeUps, consumer, accepted, delivered, discarded)
    }

    ghost predicate Valid()
      reads this
    {
      Good(Now())
    }

    constructor ()
      ensures Valid() && Now() == Fresh()
    {
      items, bound, loopClosed, ready, wakeUps, consumer := [], false, false, false, 0, Away;
      accepted, delivered, discarded := [], [], multiset{};
      new;
      FreshIsGood<T>();
    }

    /** A put on a closed loop changes nothing; one whose loop closes under it raises with its item already queued. */
    method Put(item: T, closes: bool) returns (r: Outcome<(), MailboxError>)
      requires Valid()
      modifies this
      ensures Valid()
      ensures r.Ok? <==> old(Enabled(Now(), Step.Put(item, closes))) && !(old(bound) && closes)
      ensures Now() == if old(Enabled(Now(), Step.Put(item, closes))) then Apply(old(Now()), Step.Put(item, closes)) else old(Now())
    {
      hide Conserved, InOrder;
      if bound && loopClosed {
        return Raised(LoopClosed);
      }
      StepKeeps(Now(), Step.Put(item, closes));
      items := items + [item];
      accepted := accepted + [item];
      if bound {
        if closes {
          loopClosed := true;
          return Raised(LoopClosed);
        }
        wakeUps := wakeUps + 1;
      }
      return Ok(());
    }

    /** One locked section of a get: an entry, or a suspension on the cleared event. */
    method Look() returns (r: Option<T>)
      requires Valid() && Enabled(Now(), Step.Look)
      modifies this
      ensures Valid() && Now() == Apply(old(Now()), Step.Look)
      ensures r == if old(items) == [] then None else Some(old(items)[0])
    {
      hide Conserved, InOrder;
      StepKeeps(Now(), Step.Look);
      bound := true;
      if items != [] {
        r := Some(items[0]);
        delivered := delivered + [items[0]];
        items := items[1..];
        consumer := Away;
      } else {
        r := None;
        ready := false;
        consumer := Suspended;
      }
    }

    method Discard(item: T) returns (removed: bool)
      requires Valid()
      modifies this
      ensures Valid() && Now() == Apply(old(Now()), Step.Discard(item)) && removed == (item in old(items))
    {
      hide Conserved, InOrder;
      StepKeeps(Now(), Step.Discard(item));
      removed := item in items;
      if removed {
        items := RemoveFirst(items, item);
        discarded := discarded + multiset{item};
      }
    }
  }
}
