/** What a bounded stream may lose: nothing that still had room, nothing it was not offered, nothing after a plain close. */
module StreamLoss {
  import opened Wrappers
  import opened StreamAccounting
  import opened Observations

  // ---------- What one offer drops ----------

  /** A record of this size may stand behind these. */
  predicate HasRoom(c: Config, records: seq<Entry>, size: nat) {
    records == [] || (|records| < c.capacity && Bytes(records) + size <= c.maxBytes)
  }

  /** The fewest oldest records whose going makes room. */
  predicate Fewest(c: Config, records: seq<Entry>, size: nat, k: nat) {
    k <= |records| && HasRoom(c, records[k..], size) && forall j :: 0 <= j < k ==> !HasRoom(c, records[j..], size)
  }

  /** The gap after losing these records, oldest first. */
  function GapOver(gap: Option<Gap>, lost: seq<Entry>): Option<Gap> {
    if lost == [] then gap
    else
      var first := if gap.Some? then gap.value.first else lost[0].record.sequence;
      Some(Gap(first, lost[|lost| - 1].record.sequence, |lost| + if gap.Some? then gap.value.count else 0))
  }

  lemma GapOverOneMore(gap: Option<Gap>, lost: Entry, more: seq<Entry>)
    ensures GapOver(Some(Extended(gap, lost.record.sequence)), more) == GapOver(gap, [lost] + more)
  {
    if more != [] { assert ([lost] + more)[|more|] == more[|more| - 1]; }
  }

  lemma FewestOneMore(c: Config, records: seq<Entry>, size: nat, n: nat)
    requires records != [] && !HasRoom(c, records, size) && Fewest(c, records[1..], size, n)
    ensures Fewest(c, records, size, n + 1)
    ensures records[n + 1..] == records[1..][n..] && records[..n + 1] == [records[0]] + records[1..][..n]
  {
    hide HasRoom;
    forall j | 0 <= j < n + 1 ensures !HasRoom(c, records[j..], size) {
      if j == 0 {
        assert records[0..] == records;
      } else {
        assert records[j..] == records[1..][j - 1..];
      }
    }
  }

  lemma {:induction false} RoomDropsFewest(c: Config, s: State, size: nat) returns (k: nat)
    requires s.bytes == Bytes(s.records)
    ensures var r := MakeRoom(c, s, size);
            && Fewest(c, s.records, size, k)
            && r == s.(records := s.records[k..], bytes := Bytes(s.records[k..]), gap := GapOver(s.gap, s.records[..k]))
    decreases |s.records|
  {
    if s.records != [] && (|s.records| >= c.capacity || s.bytes + size > c.maxBytes) {
      var t, first := DropOldest(s), s.records[0];
      var n := RoomDropsFewest(c, t, size);
      k := n + 1;
      hide MakeRoom, Bytes, Fewest, GapOver;
      FewestOneMore(c, s.records, size, n);
      GapOverOneMore(s.gap, first, t.records[..n]);
    } else {
      k := 0;
      assert s.records[0..] == s.records && s.records[..0] == [];
    }
  }

  predicate Takes(s: State, c: Config, e: Event) {
    && !s.closed && e.level <= c.selection.level
    && (c.selection.names == [] || e.name in c.selection.names)
    && (c.selection.turnId == "" || e.turn == Some(c.selection.turnId))
  }

  /** From `s` to `t` by an offer at whose cost the `k` oldest records go. */
  predicate OfferedAt(c: Config, s: State, record: Record, size: nat, k: nat, t: State) {
    var latest := Entry(record, size);
    if !Takes(s, c, record.event) then t == s
    else
      && t.accepted == s.accepted + [record] && Fewest(c, s.records, size, k)
      && (size <= c.maxBytes ==> t.records == s.records[k..] + [latest] && t.gap == GapOver(s.gap, s.records[..k]))
      && (size > c.maxBytes ==> t.records == [] && t.gap == GapOver(s.gap, s.records + [latest]))
  }

  /**
   * An offer is ignored exactly when the stream is closed or its selection leaves the event out. Otherwise the fewest
   * oldest records go that make room, in one gap with what was lost before, and the new record is queued, or, when it is
   * larger than the whole budget, lost last.
   */
  lemma OfferExactly(c: Config, s: State, record: Record, size: nat, race: bool) returns (k: nat)
    requires s.bytes == Bytes(s.records)
    ensures OfferedAt(c, s, record, size, k, Offer(c, s, record, size, race))
  {
    hide Bytes, MakeRoom;
    k := RoomDropsFewest(c, s, size);
    if size > c.maxBytes {
      assert s.records[k..] == [] && s.records[..k] == s.records;
      LastInGap(s.gap, s.records, Entry(record, size));
    }
  }

  lemma LastInGap(gap: Option<Gap>, lost: seq<Entry>, last: Entry)
    ensures GapOver(gap, lost + [last]) == Some(Extended(GapOver(gap, lost), last.record.sequence))
  {
    if lost != [] { assert (lost + [last])[0] == lost[0]; }
  }

  /** The offer led here at no more cost than it had to. */
  ghost predicate OfferedAtLeastCost(c: Config, s: State, record: Record, size: nat, t: State) {
    exists k: nat :: OfferedAt(c, s, record, size, k, t)
  }

  lemma GoodOffer(c: Config, s: State, record: Record, size: nat, race: bool)
    requires Good(c, s)
    ensures OfferedAtLeastCost(c, s, record, size, Offer(c, s, record, size, race))
  {
    var k := OfferExactly(c, s, record, size, race);
  }

  lemma MakesRoomFrom(c: Config, s: State, size: nat)
    ensures MakeRoom(c, s, size) == if s.records != [] && (|s.records| >= c.capacity || s.bytes + size > c.maxBytes)
                                    then MakeRoom(c, DropOldest(s), size) else s
  {
  }

  /** What is left is everything but the fewest oldest records whose going makes room. */
  ghost predicate DropsFewest(c: Config, records: seq<Entry>, size: nat, left: seq<Entry>) {
    exists k: nat :: Fewest(c, records, size, k) && left == records[k..]
  }

  lemma GoodRoom(c: Config, s: State, size: nat)
    requires Good(c, s)
    ensures DropsFewest(c, s.records, size, MakeRoom(c, s, size).records)
  {
    var k := RoomDropsFewest(c, s, size);
  }

  /** An offer whose wake-up finds the reader's loop gone closes the stream: no later record is taken. */
  lemma DeadLoopClosesStream(c: Config, s: State, record: Record, size: nat, later: Record)
    requires Takes(s, c, record.event) && s.loopOpen && !s.notified
    ensures var t := Offer(c, s, record, size, true); t.closed && !t.loopOpen && !Takes(t, c, later.event)
  {
    MakeRoomLeavesFlags(c, s, size);
    hide MakeRoom;
  }

  lemma {:induction false} MakeRoomLeavesFlags(c: Config, s: State, size: nat)
    ensures var t := MakeRoom(c, s, size); t.loopOpen == s.loopOpen && t.notified == s.notified && t.closed == s.closed
    decreases |s.records|
  {
    if s.records != [] && (|s.records| >= c.capacity || s.bytes + size > c.maxBytes) { MakeRoomLeavesFlags(c, DropOldest(s), size); }
  }

  // ---------- Runs within the limits ----------

  /** How many records a run offers, and their bytes. */
  function Offered(steps: seq<Step>): (nat, nat) {
    if steps == [] then (0, 0)
    else
      var rest := Offered(steps[1..]);
      if steps[0].OfferStep? then (rest.0 + 1, rest.1 + steps[0].size) else rest
  }

  predicate NoneLost(items: seq<Item>) {
    forall i :: 0 <= i < |items| ==> items[i].Delivered?
  }

  lemma {:induction false} SuffixBytes(records: seq<Entry>, k: nat)
    requires k <= |records|
    ensures Bytes(records[k..]) <= Bytes(records)
  {
    if k > 0 {
      SuffixBytes(records[1..], k - 1);
      assert records[1..][k - 1..] == records[k..];
    } else {
      assert records[0..] == records;
    }
  }

  lemma StepWithinLimits(c: Config, s: State, step: Step)
    requires Bounded(c, s) && s.gap.None? && NoneLost(s.delivered)
    requires step.OfferStep? ==> |s.records| < c.capacity && Bytes(s.records) + step.size <= c.maxBytes
    ensures var t := Apply(c, s, step);
            && Bounded(c, t) && t.gap.None? && NoneLost(t.delivered)
            && |t.records| <= |s.records| + (if step.OfferStep? then 1 else 0)
            && Bytes(t.records) <= Bytes(s.records) + (if step.OfferStep? then step.size else 0)
  {
    hide Offer;
    if step.OfferStep? {
      hide Bounded, Take, Finish, Bytes;
      OfferWithinLimits(c, s, step);
    } else {
      hide Take, Finish, Bytes;
      QuietWithinLimits(c, s, step);
    }
  }

  lemma QuietWithinLimits(c: Config, s: State, step: Step)
    requires Bounded(c, s) && s.gap.None? && NoneLost(s.delivered) && !step.OfferStep?
    ensures var t := Apply(c, s, step);
            && Bounded(c, t) && t.gap.None? && NoneLost(t.delivered)
            && |t.records| <= |s.records| && Bytes(t.records) <= Bytes(s.records)
  {
    hide Offer, Pending, Latest, Bounded, Bytes, NoneLost, Notify;
    TakeWithinLimits(c, s);
    if step.FinishStep? {
      FinishWithinLimits(c, s, step.discard, step.closeRace);
    } else {
      hide Take, Finish;
      SameWithinLimits(c, s, Apply(c, s, step));
    }
  }

  lemma SameWithinLimits(c: Config, s: State, t: State)
    requires Bounded(c, s)
    ensures t.records == s.records && t.bytes == s.bytes ==> Bounded(c, t)
  {
  }

  lemma FinishWithinLimits(c: Config, s: State, discard: bool, race: bool)
    requires Bounded(c, s) && s.gap.None?
    ensures var t := Finish(s, discard, race);
            && Bounded(c, t) && t.gap.None? && t.delivered == s.delivered
            && |t.records| <= |s.records| && Bytes(t.records) <= Bytes(s.records)
  {
    hide Pending;
    assert Bytes([]) == 0;
  }

  lemma TakeWithinLimits(c: Config, s: State)
    requires Bounded(c, s) && s.gap.None? && NoneLost(s.delivered)
    ensures var t := Take(s);
            && Bounded(c, t) && t.gap.None? && NoneLost(t.delivered)
            && |t.records| <= |s.records| && Bytes(t.records) <= Bytes(s.records)
  {
  }

  lemma OfferWithinLimits(c: Config, s: State, step: Step)
    requires step.OfferStep? && Bounded(c, s) && s.gap.None? && |s.records| < c.capacity && Bytes(s.records) + step.size <= c.maxBytes
    ensures var t := Offer(c, s, step.record, step.size, step.race);
            && Bounded(c, t) && t.gap.None? && t.delivered == s.delivered
            && |t.records| <= |s.records| + 1 && Bytes(t.records) <= Bytes(s.records) + step.size
  {
    OfferLeavesReads(c, s, step.record, step.size, step.race);
    hide Offer;
    if !Takes(s, c, step.record.event) {
      var k := OfferExactly(c, s, step.record, step.size, step.race);
    } else {
      var k := OfferExactly(c, s, step.record, step.size, step.race);
      QueueAppend(s.records, Entry(step.record, step.size));
      assert s.records[0..] == s.records && s.records[..0] == [];
      assert HasRoom(c, s.records[0..], step.size);
    }
  }

  lemma OfferLeavesReads(c: Config, s: State, record: Record, size: nat, race: bool)
    requires s.bytes == Bytes(s.records)
    ensures var t := Offer(c, s, record, size, race); t.delivered == s.delivered && t.bytes == Bytes(t.records)
  {
    hide MakeRoom;
    var k := RoomDropsFewest(c, s, size);
    QueueAppend(s.records[k..], Entry(record, size));
    if size > c.maxBytes { assert HasRoom(c, s.records[k..], size) && s.records[k..] == []; }
  }

  /** A run whose offers all fit together never loses a record: no gap is pending and none is ever read. */
  lemma {:induction false} NothingLostWithinLimits(c: Config, s: State, steps: seq<Step>)
    requires Bounded(c, s) && s.gap.None? && NoneLost(s.delivered)
    requires |s.records| + Offered(steps).0 <= c.capacity && Bytes(s.records) + Offered(steps).1 <= c.maxBytes
    ensures Run(c, s, steps).gap.None? && NoneLost(Run(c, s, steps).delivered)
    decreases |steps|
  {
    hide Apply, Bytes, Bounded;
    if steps != [] {
      StepWithinLimits(c, s, steps[0]);
      NothingLostWithinLimits(c, Apply(c, s, steps[0]), steps[1..]);
    }
  }

  // ---------- Closing ----------

  /** A plain close keeps everything still to be read; a discarding one counts it as discarded and leaves nothing. */
  lemma FinishExactly(s: State, discard: bool, race: bool)
    ensures var t := Finish(s, discard, race);
            && t.closed && t.delivered == s.delivered && t.accepted == s.accepted
            && Pending(t) == (if discard then [] else Pending(s))
            && t.discarded == s.discarded + if discard then Pending(s) else []
  {
    assert Queue([]) == [] && GapItem(None) == [];
    hide Queue, GapItem;
  }
}
