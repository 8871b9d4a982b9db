/**
 * A bounded observation stream: producers offer records, one reader takes them, and what does not fit is dropped
 * oldest first and merged into one gap marker. Every lock-protected section is one atomic step; the reader's only
 * suspension is its wait for `ready`, which a callback scheduled on the event loop sets.
 */
module Observations {
  import opened Wrappers
  import opened StreamAccounting

  datatype Entry = Entry(record: Record, size: nat)

  datatype Config = Config(selection: Filter, capacity: nat, maxBytes: nat)

  predicate ValidConfig(c: Config) {
    c.capacity >= 1 && c.maxBytes >= 1
  }

  /** The fields of a subscription, and the history its accounting is about. */
  datatype State = State(
    records: seq<Entry>,
    bytes: int,
    gap: Option<Gap>,
    ready: bool,
    notified: bool,
    closed: bool,
    reading: bool,
    loopOpen: bool,
    accepted: seq<Record>,
    delivered: seq<Item>,
    discarded: seq<Item>)

  const FRESH := State([], 0, None, false, false, false, false, true, [], [], [])

  // ---------- Steps ----------

  function DropOldest(s: State): State
    requires s.records != []
  {
    var oldest := s.records[0];
    s.(records := s.records[1..], bytes := s.bytes - oldest.size, gap := Some(Extended(s.gap, oldest.record.sequence)))
  }

  /** Oldest records go until the new one fits or none is left. */
  function MakeRoom(c: Config, s: State, size: nat): (r: State)
    ensures r.accepted == s.accepted && r.closed == s.closed
    decreases |s.records|
  {
    if s.records != [] && (|s.records| >= c.capacity || s.bytes + size > c.maxBytes) then
      MakeRoom(c, DropOldest(s), size)
    else s
  }

  /** The new record is queued, or lost itself when it could never fit. */
  function Admit(c: Config, s: State, record: Record, size: nat): State {
    if size > c.maxBytes then s.(gap := Some(Extended(s.gap, record.sequence)), accepted := s.accepted + [record])
    else s.(records := s.records + [Entry(record, size)], bytes := s.bytes + size, accepted := s.accepted + [record])
  }

  /** At most one wake-up callback is pending; `race` is the loop closing just before it is scheduled. */
  function Notify(s: State, race: bool): State {
    if s.notified || !s.loopOpen then s
    else if race then s.(closed := true, loopOpen := false)
    else s.(notified := true)
  }

  function Offer(c: Config, s: State, record: Record, size: nat, race: bool): State {
    if s.closed || !c.selection.Accepts(record.event) then s
    else Notify(Admit(c, MakeRoom(c, s, size), record, size), race)
  }

  /** The locked section of a read. */
  function Take(s: State): State {
    match s.gap
    case Some(g) => s.(gap := None, delivered := s.delivered + [Lost(g)], reading := false)
    case None =>
      if s.records != [] then
        s.(records := s.records[1..], bytes := s.bytes - s.records[0].size,
           delivered := s.delivered + [Delivered(s.records[0].record)], reading := false)
      else if s.closed then s.(reading := false)
      else s.(ready := false, reading := true)
  }

  /** A second reader is refused. */
  function StartRead(s: State): State {
    if s.reading then s else Take(s)
  }

  /** A suspended reader goes on once `ready` is set. */
  function ResumeRead(s: State): State {
    if s.reading && s.ready then Take(s) else s
  }

  function CancelRead(s: State): State {
    s.(reading := false)
  }

  function Finish(s: State, discard: bool, race: bool): State {
    var t := s.(closed := true);
    var u := if discard then t.(records := [], bytes := 0, gap := None, discarded := t.discarded + Pending(t)) else t;
    Notify(u, race)
  }

  /** The scheduled callback runs. */
  function Wake(s: State): State {
    if s.notified && s.loopOpen then s.(notified := false, ready := true) else s
  }

  function CloseLoop(s: State): State {
    s.(loopOpen := false)
  }

  datatype Step =
    | OfferStep(record: Record, size: nat, race: bool)
    | StartReadStep
    | ResumeReadStep
    | CancelReadStep
    | FinishStep(discard: bool, closeRace: bool)
    | WakeStep
    | CloseLoopStep

  function Apply(c: Config, s: State, step: Step): State {
    match step
    case OfferStep(record, size, race) => Offer(c, s, record, size, race)
    case StartReadStep => StartRead(s)
    case ResumeReadStep => ResumeRead(s)
    case CancelReadStep => CancelRead(s)
    case FinishStep(discard, race) => Finish(s, discard, race)
    case WakeStep => Wake(s)
    case CloseLoopStep => CloseLoop(s)
  }

  function Run(c: Config, s: State, steps: seq<Step>): State
    decreases |steps|
  {
    if steps == [] then s else Run(c, Apply(c, s, steps[0]), steps[1..])
  }

  // ---------- Accounting ----------

  /** What the reader would still get: the gap, then the queue. */
  function Pending(s: State): seq<Item> {
    GapItem(s.gap) + Queue(s.records)
  }

  function GapItem(gap: Option<Gap>): seq<Item> {
    if gap.Some? then [Lost(gap.value)] else []
  }

  function Queue(entries: seq<Entry>): seq<Item> {
    if entries == [] then [] else [Delivered(entries[0].record)] + Queue(entries[1..])
  }

  lemma {:induction false} QueueAppend(entries: seq<Entry>, e: Entry)
    ensures Queue(entries + [e]) == Queue(entries) + [Delivered(e.record)]
    ensures Bytes(entries + [e]) == Bytes(entries) + e.size
  {
    if entries == [] {
      assert entries + [e] == [e];
    } else {
      assert (entries + [e])[1..] == entries[1..] + [e];
      QueueAppend(entries[1..], e);
    }
  }

  function Bytes(entries: seq<Entry>): nat {
    if entries == [] then 0 else entries[0].size + Bytes(entries[1..])
  }

  predicate HasNews(s: State) {
    s.gap.Some? || s.records != [] || s.closed
  }

  /** Sequences only grow: gap, then queue, then nothing newer than the last accepted record. */
  predicate InOrder(s: State) {
    && (forall i, j :: 0 <= i < j < |s.records| ==> s.records[i].record.sequence < s.records[j].record.sequence)
    && (forall i :: 0 <= i < |s.records| ==> 1 <= s.records[i].record.sequence <= Latest(s.accepted))
    && (s.gap.Some? ==> GapAllowed(s.gap.value) && s.gap.value.last <= Latest(s.accepted)
                        && forall i :: 0 <= i < |s.records| ==> s.gap.value.last < s.records[i].record.sequence)
  }

  predicate Bounded(c: Config, s: State) {
    |s.records| <= c.capacity && s.bytes == Bytes(s.records) && s.bytes <= c.maxBytes
  }

  predicate Accounted(s: State) {
    && Increasing(s.accepted)
    && Explains(s.delivered + s.discarded + Pending(s), s.accepted)
    && (s.discarded != [] ==> s.closed && Pending(s) == [])
  }

  /** No wake-up is lost: a suspended reader with news has been signalled, or a callback that will is pending. */
  predicate Awake(s: State) {
    s.loopOpen && s.reading && HasNews(s) ==> s.ready || s.notified
  }

  predicate Good(c: Config, s: State) {
    Bounded(c, s) && InOrder(s) && Accounted(s) && Awake(s)
  }

  /** Producers number records upwards from one. */
  predicate Admissible(s: State, step: Step) {
    step.OfferStep? ==> step.record.sequence > Latest(s.accepted)
  }

  predicate AdmissibleRun(c: Config, s: State, steps: seq<Step>)
    decreases |steps|
  {
    steps == [] || (Admissible(s, steps[0]) && AdmissibleRun(c, Apply(c, s, steps[0]), steps[1..]))
  }

  // ---------- Every step keeps the invariant ----------

  lemma DropKeeps(c: Config, s: State)
    requires s.records != [] && Bounded(c, s) && InOrder(s) && Accounted(s)
    ensures Bounded(c, DropOldest(s)) && InOrder(DropOldest(s)) && Accounted(DropOldest(s))
  {
    hide Explains, Increasing;
    var t, oldest := DropOldest(s), s.records[0].record;
    assert Accounted(t) by {
      var rest := Queue(s.records[1..]);
      assert Pending(s) == (GapItem(s.gap) + [Delivered(oldest)]) + rest;
      assert Pending(t) == [Lost(t.gap.value)] + rest;
      Merge(s.delivered + s.discarded, s.gap, oldest, rest, s.accepted);
    }
  }

  lemma {:induction false} RoomKeeps(c: Config, s: State, size: nat)
    requires ValidConfig(c) && Bounded(c, s) && InOrder(s) && Accounted(s)
    ensures var r := MakeRoom(c, s, size);
            && Bounded(c, r) && InOrder(r) && Accounted(r)
            && (r.records == [] || (|r.records| < c.capacity && r.bytes + size <= c.maxBytes))
            && r == s.(records := r.records, bytes := r.bytes, gap := r.gap)
    decreases |s.records|
  {
    hide Accounted, Bounded, InOrder;
    if s.records != [] && (|s.records| >= c.capacity || s.bytes + size > c.maxBytes) {
      DropKeeps(c, s);
      RoomKeeps(c, DropOldest(s), size);
    }
  }

  lemma NewerIsIncreasing(records: seq<Record>, record: Record)
    requires Increasing(records) && record.sequence > Latest(records)
    ensures Increasing(records + [record])
  {
  }

  lemma AppendAccounted(s: State, record: Record)
    requires Accounted(s) && s.discarded == [] && record.sequence > Latest(s.accepted)
    ensures Increasing(s.accepted + [record])
    ensures Explains(s.delivered + s.discarded + (Pending(s) + [Delivered(record)]), s.accepted + [record])
  {
    NewerIsIncreasing(s.accepted, record);
    ExplainsOne(Delivered(record), [record]);
    hide Explains, Increasing, Pending;
    var before := s.delivered + s.discarded;
    ExplainsConcat(before + Pending(s), s.accepted, [Delivered(record)], [record]);
    assert before + Pending(s) + [Delivered(record)] == before + (Pending(s) + [Delivered(record)]);
  }

  lemma AdmitAccounted(c: Config, s: State, record: Record, size: nat)
    requires Accounted(s) && s.discarded == []
    requires size > c.maxBytes ==> s.records == []
    requires record.sequence > Latest(s.accepted)
    ensures Accounted(Admit(c, s, record, size))
  {
    hide Latest;
    var r := Admit(c, s, record, size);
    AppendAccounted(s, record);
    if size > c.maxBytes {
      assert Queue(s.records) == [];
      hide Explains, Extended, Increasing, Queue;
      var before, lost := s.delivered + s.discarded, GapItem(s.gap) + [Delivered(record)];
      assert Pending(s) + [Delivered(record)] == lost + [];
      Merge(before, s.gap, record, [], r.accepted);
      assert Pending(r) == [Lost(r.gap.value)] + [];
    } else {
      QueueAppend(s.records, Entry(record, size));
      hide Explains, Increasing, Queue;
      assert Pending(r) == Pending(s) + [Delivered(record)];
    }
  }

  lemma AdmitKeeps(c: Config, s: State, record: Record, size: nat)
    requires ValidConfig(c) && Bounded(c, s) && InOrder(s) && Accounted(s) && s.discarded == []
    requires s.records == [] || (|s.records| < c.capacity && s.bytes + size <= c.maxBytes)
    requires record.sequence > Latest(s.accepted)
    ensures var r := Admit(c, s, record, size); Bounded(c, r) && InOrder(r) && Accounted(r)
  {
    hide Accounted, InOrder;
    AdmitAccounted(c, s, record, size);
    AdmitInOrder(c, s, record, size);
    QueueAppend(s.records, Entry(record, size));
  }

  lemma AdmitInOrder(c: Config, s: State, record: Record, size: nat)
    requires InOrder(s) && record.sequence > Latest(s.accepted)
    requires size > c.maxBytes ==> s.records == []
    ensures InOrder(Admit(c, s, record, size))
  {
    var r := Admit(c, s, record, size);
    assert Latest(r.accepted) == record.sequence;
    forall i | 0 <= i < |r.records| ensures i < |s.records| ==> r.records[i] == s.records[i] {}
  }

  lemma TakeAccounted(s: State)
    requires Accounted(s)
    ensures Accounted(Take(s))
  {
    hide Explains, Increasing;
    var t := Take(s);
    if s.gap.Some? {
      assert Pending(s) == [Lost(s.gap.value)] + Pending(t);
      assert s.discarded == [];
      assert s.delivered + s.discarded + Pending(s) == t.delivered + t.discarded + Pending(t);
    } else if s.records != [] {
      assert Pending(s) == [Delivered(s.records[0].record)] + Pending(t);
      assert s.discarded == [];
      assert s.delivered + s.discarded + Pending(s) == t.delivered + t.discarded + Pending(t);
    } else {
      assert Pending(t) == Pending(s);
    }
  }

  lemma TakeFields(c: Config, s: State)
    requires Bounded(c, s) && InOrder(s)
    ensures Bounded(c, Take(s)) && InOrder(Take(s))
  {
    hide InOrder;
    InOrderAfter(s, Take(s));
  }

  lemma InOrderAfter(s: State, t: State)
    requires InOrder(s) && t.accepted == s.accepted && t.gap.None?
    requires t.records == s.records || (s.records != [] && t.records == s.records[1..])
    ensures InOrder(t)
  {
    hide Latest, GapAllowed;
    if t.records != s.records {
      assert forall i :: 0 <= i < |t.records| ==> t.records[i] == s.records[i + 1];
    }
  }

  lemma TakeKeeps(c: Config, s: State)
    requires Good(c, s)
    ensures Good(c, Take(s))
  {
    TakeFields(c, s);
    hide Accounted, Pending, Bounded, InOrder;
    TakeAccounted(s);
  }

  lemma NothingPending()
    ensures Queue([]) == [] && GapItem(None) == []
  {
  }

  lemma FinishAccounted(s: State, discard: bool, race: bool)
    requires Accounted(s)
    ensures Accounted(Finish(s, discard, race))
  {
    NothingPending();
    hide Explains, Increasing, Queue, GapItem, Awake, HasNews;
    var t := Finish(s, discard, race);
    if discard {
      assert s.delivered + s.discarded + Pending(s) == t.delivered + t.discarded + Pending(t);
    } else {
      assert Pending(t) == Pending(s);
    }
  }

  /** Steps that only touch the wake-up flags. */
  lemma SameAccounting(s: State, t: State)
    requires Accounted(s) && t == s.(ready := t.ready, notified := t.notified, reading := t.reading, loopOpen := t.loopOpen, closed := t.closed)
    requires s.closed ==> t.closed
    ensures Accounted(t)
  {
    hide Explains, Increasing;
    assert Pending(t) == Pending(s);
  }

  lemma OfferKeeps(c: Config, s: State, record: Record, size: nat, race: bool)
    requires ValidConfig(c) && Good(c, s) && record.sequence > Latest(s.accepted)
    ensures Good(c, Offer(c, s, record, size, race))
  {
    if !s.closed && c.selection.Accepts(record.event) {
      var room := MakeRoom(c, s, size);
      var admitted := Admit(c, room, record, size);
      hide Accounted, Bounded, InOrder, Pending, MakeRoom, Admit, Filter.Accepts, Latest;
      assert s.discarded == [] by { DiscardedMeansClosed(s); }
      RoomKeeps(c, s, size);
      AdmitKeeps(c, room, record, size);
      AdmitFlags(c, room, record, size);
      SameAccounting(admitted, Notify(admitted, race));
      SameFields(c, admitted, Notify(admitted, race));
    }
  }

  /** Whatever is dropped next, its gap has bounds the constructor accepts. */
  lemma NextGapAllowed(c: Config, s: State, record: Record, size: nat)
    requires ValidConfig(c) && Good(c, s) && record.sequence > Latest(s.accepted)
    ensures GapAllowed(Extended(MakeRoom(c, s, size).gap, record.sequence))
  {
    hide Accounted, Bounded, MakeRoom;
    RoomKeeps(c, s, size);
  }

  /** Nor can the gap of the oldest record be refused. */
  lemma OldestGapAllowed(c: Config, s: State)
    requires Bounded(c, s) && InOrder(s) && s.records != []
    ensures GapAllowed(Extended(s.gap, s.records[0].record.sequence)) && s.records[0].size <= s.bytes
  {
  }

  lemma GoodHasOrder(c: Config, s: State)
    requires Good(c, s)
    ensures Bounded(c, s) && InOrder(s) && Accounted(s)
  {
  }

  lemma DiscardedMeansClosed(s: State)
    requires Accounted(s) && !s.closed
    ensures s.discarded == []
  {
  }

  lemma AdmitFlags(c: Config, s: State, record: Record, size: nat)
    ensures var r := Admit(c, s, record, size);
            r == s.(records := r.records, bytes := r.bytes, gap := r.gap, accepted := r.accepted)
  {
  }

  lemma SameFields(c: Config, s: State, t: State)
    requires Bounded(c, s) && InOrder(s)
    requires t == s.(ready := t.ready, notified := t.notified, reading := t.reading, loopOpen := t.loopOpen, closed := t.closed)
    ensures Bounded(c, t) && InOrder(t)
  {
  }

  lemma StepKeeps(c: Config, s: State, step: Step)
    requires ValidConfig(c) && Good(c, s) && Admissible(s, step)
    ensures Good(c, Apply(c, s, step))
  {
    match step
    case OfferStep(record, size, race) =>
      hide Good, Offer;
      OfferKeeps(c, s, record, size, race);
    case StartReadStep =>
      hide Good, Take;
      TakeKeeps(c, s);
    case ResumeReadStep =>
      hide Good, Take;
      TakeKeeps(c, s);
    case FinishStep(discard, race) =>
      FinishKeeps(c, s, discard, race);
    case CancelReadStep =>
      FlagsKeep(c, s, Apply(c, s, step));
    case WakeStep =>
      FlagsKeep(c, s, Apply(c, s, step));
    case CloseLoopStep =>
      FlagsKeep(c, s, Apply(c, s, step));
  }

  lemma FinishKeeps(c: Config, s: State, discard: bool, race: bool)
    requires Good(c, s)
    ensures Good(c, Finish(s, discard, race))
  {
    hide Accounted, Pending;
    FinishAccounted(s, discard, race);
  }

  lemma FlagsKeep(c: Config, s: State, t: State)
    requires Good(c, s) && Awake(t) && t.closed == s.closed
    requires t == s.(ready := t.ready, notified := t.notified, reading := t.reading, loopOpen := t.loopOpen, closed := t.closed)
    ensures Good(c, t)
  {
    hide Accounted, Bounded, InOrder, Awake;
    SameAccounting(s, t);
    SameFields(c, s, t);
  }

  /** Over every interleaving of offers, reads, cancellations, wake-ups and closes. */
  lemma {:induction false} RunKeeps(c: Config, s: State, steps: seq<Step>)
    requires ValidConfig(c) && Good(c, s) && AdmissibleRun(c, s, steps)
    ensures Good(c, Run(c, s, steps))
    decreases |steps|
  {
    if steps != [] {
      StepKeeps(c, s, steps[0]);
      RunKeeps(c, Apply(c, s, steps[0]), steps[1..]);
    }
  }

  predicate KeepsEverything(steps: seq<Step>) {
    forall i :: 0 <= i < |steps| ==> !(steps[i].FinishStep? && steps[i].discard)
  }

  lemma {:induction false} NothingDiscarded(c: Config, s: State, steps: seq<Step>)
    requires KeepsEverything(steps) && s.discarded == []
    ensures Run(c, s, steps).discarded == []
    decreases |steps|
  {
    if steps != [] {
      if steps[0].OfferStep? { RoomLeavesHistory(c, s, steps[0].size); }
      NothingDiscarded(c, Apply(c, s, steps[0]), steps[1..]);
    }
  }

  lemma {:induction false} RoomLeavesHistory(c: Config, s: State, size: nat)
    ensures MakeRoom(c, s, size).discarded == s.discarded && MakeRoom(c, s, size).delivered == s.delivered
    decreases |s.records|
  {
    if s.records != [] && (|s.records| >= c.capacity || s.bytes + size > c.maxBytes) {
      RoomLeavesHistory(c, DropOldest(s), size);
    }
  }

  lemma RunAccountsFrom(c: Config, s0: State, steps: seq<Step>)
    requires ValidConfig(c) && Good(c, s0) && s0.discarded == [] && AdmissibleRun(c, s0, steps) && KeepsEverything(steps)
    ensures var s := Run(c, s0, steps);
            && Explains(s.delivered + Pending(s), s.accepted) && Increasing(s.accepted)
            && |s.records| <= c.capacity && s.bytes == Bytes(s.records) <= c.maxBytes
            && Awake(s)
  {
    hide Run, AdmissibleRun, Explains, Pending, Increasing, Bytes, Awake, InOrder;
    RunKeeps(c, s0, steps);
    NothingDiscarded(c, s0, steps);
    var s := Run(c, s0, steps);
    assert s.delivered + s.discarded + Pending(s) == s.delivered + Pending(s);
  }

  lemma FreshIsGood(c: Config)
    ensures Good(c, FRESH)
  {
    assert Pending(FRESH) == [];
  }

  /**
   * Exact accounting over every run without a discarding close: what was read, then the pending gap, then the queue,
   * stand for the accepted records in order, none missing and none twice; the limits hold; no wake-up is lost.
   */
  lemma RunAccountsForEveryRecord(c: Config, steps: seq<Step>)
    requires ValidConfig(c) && AdmissibleRun(c, FRESH, steps) && KeepsEverything(steps)
    ensures var s := Run(c, FRESH, steps);
            && Explains(s.delivered + Pending(s), s.accepted) && Increasing(s.accepted)
            && |s.records| <= c.capacity && s.bytes == Bytes(s.records) <= c.maxBytes
            && Awake(s)
  {
    FreshIsGood(c);
    hide Run, Good, AdmissibleRun, Explains, Pending, Increasing, Bytes, Awake;
    RunAccountsFrom(c, FRESH, steps);
  }

  /** In such a run each gap, read or pending, counts exactly the accepted records of its interval and spans no read one. */
  lemma RunGapsAreExact(c: Config, steps: seq<Step>, i: nat)
    requires ValidConfig(c) && AdmissibleRun(c, FRESH, steps) && KeepsEverything(steps)
    requires var s := Run(c, FRESH, steps); i < |s.delivered + Pending(s)| && (s.delivered + Pending(s))[i].Lost?
    ensures var s := Run(c, FRESH, steps);
            var items := s.delivered + Pending(s);
            var g := items[i].gap;
            && CountWithin(s.accepted, g.first, g.last) == g.count
            && forall j :: 0 <= j < |items| && items[j].Delivered? ==> !(g.first <= items[j].record.sequence <= g.last)
  {
    RunAccountsForEveryRecord(c, steps);
    hide *;
    var s := Run(c, FRESH, steps);
    var items := s.delivered + Pending(s);
    var g := items[i].gap;
    assert items == items[..i] + ([Lost(g)] + items[i + 1..]);
    GapIsExact(items[..i], g, items[i + 1..], s.accepted);
    forall j | 0 <= j < |items| && items[j].Delivered?
      ensures !(g.first <= items[j].record.sequence <= g.last)
    {
      assert items[j] in items[..i] + items[i + 1..] by {
        if j < i { assert items[j] == items[..i][j]; } else { assert items[j] == items[i + 1..][j - i - 1]; }
      }
    }
  }
}
