/** The subscription and its hub as objects, each method tied to a step of the stream. */
module Subscriptions {
  import opened Wrappers
  import opened StreamAccounting
  import opened StreamLoss
  import O = Observations

  datatype SdkError = InvalidBounds | SecondReader | LimitReached | SourceClosed | InvalidLimits

  /** How one locked section of a read ends. */
  datatype ReadOutcome = Yield(item: Item) | Stop | Suspended

  method NewGap(first: nat, last: nat, count: nat) returns (r: Outcome<Gap, SdkError>)
    ensures r == if GapAllowed(Gap(first, last, count)) then Ok(Gap(first, last, count)) else Raised(InvalidBounds)
  {
    if !(1 <= count <= last - first + 1) || first < 1 {
      return Raised(InvalidBounds);
    }
    return Ok(Gap(first, last, count));
  }

  class ObservationSubscription {
    const config: O.Config
    var records: seq<O.Entry>
    var bytes: int
    var gap: Option<Gap>
    var ready: bool
    var notified: bool
    var closed: bool
    var reading: bool
    var loopOpen: bool
    ghost var accepted: seq<Record>
    ghost var delivered: seq<Item>
    ghost var discarded: seq<Item>

    ghost function State(): O.State
      reads this
    {
      O.State(records, bytes, gap, ready, notified, closed, reading, loopOpen, accepted, delivered, discarded)
    }

    ghost predicate Valid()
      reads this
    {
      O.ValidConfig(config) && O.Good(config, State())
    }

    constructor (config: O.Config)
      requires O.ValidConfig(config)
      ensures Valid() && this.config == config && State() == O.FRESH
    {
      this.config := config;
      records, bytes, gap := [], 0, None;
      ready, notified, closed, reading, loopOpen := false, false, false, false, true;
      accepted, delivered, discarded := [], [], [];
      new;
      O.FreshIsGood(config);
    }

    /** The gap constructor cannot raise here: the stream is in order. */
    method Drop(sequence: nat)
      requires GapAllowed(Extended(gap, sequence))
      modifies this`gap
      ensures gap == Some(Extended(old(gap), sequence))
    {
      var made := NewGap(if gap.Some? then gap.value.first else sequence, sequence, if gap.Some? then gap.value.count + 1 else 1);
      gap := Some(made.value);
    }

    method Notify(race: bool)
      modifies this`notified, this`closed, this`loopOpen
      ensures State() == O.Notify(old(State()), race)
    {
      if notified || !loopOpen {
        return;
      }
      notified := true;
      if race {
        loopOpen := false;
        notified := false;
        closed := true;
      }
    }

    method Offer(record: Record, size: nat, race: bool)
      requires Valid() && record.sequence > Latest(accepted)
      modifies this
      ensures Valid() && State() == O.Offer(config, old(State()), record, size, race)
      ensures OfferedAtLeastCost(config, old(State()), record, size, State())
      ensures Latest(accepted) <= record.sequence
    {
      hide O.Good, O.MakeRoom, O.ValidConfig, O.Awake, O.HasNews, GapAllowed, Extended, OfferedAtLeastCost, DropsFewest;
      O.OfferKeeps(config, State(), record, size, race);
      O.NextGapAllowed(config, State(), record, size);
      GoodOffer(config, State(), record, size, race);
      if closed || !config.selection.Accepts(record.event) {
        return;
      }
      MakeRoom(size);
      if size > config.maxBytes {
        Drop(record.sequence);
      } else {
        records := records + [O.Entry(record, size)];
        bytes := bytes + size;
      }
      accepted := accepted + [record];
      Notify(race);
    }

    method DropOldest()
      requires records != [] && O.Bounded(config, State()) && O.InOrder(State())
      modifies this`records, this`bytes, this`gap
      ensures State() == O.DropOldest(old(State()))
    {
      O.OldestGapAllowed(config, State());
      hide O.Bounded, O.InOrder, GapAllowed, Extended;
      var oldest := records[0];
      records := records[1..];
      bytes := bytes - oldest.size;
      Drop(oldest.record.sequence);
    }

    method MakeRoom(size: nat)
      requires Valid()
      modifies this`records, this`bytes, this`gap
      ensures State() == O.MakeRoom(config, old(State()), size)
      ensures DropsFewest(config, old(records), size, records)
    {
      GoodRoom(config, State(), size);
      O.GoodHasOrder(config, State());
      hide O.Accounted, O.Awake, O.Good, O.Bounded, O.InOrder, O.ValidConfig, O.MakeRoom, DropsFewest, GapAllowed, Extended;
      while records != [] && (|records| >= config.capacity || bytes + size > config.maxBytes)
        invariant O.Bounded(config, State()) && O.InOrder(State()) && O.Accounted(State())
        invariant O.MakeRoom(config, State(), size) == O.MakeRoom(config, old(State()), size)
        decreases |records|
      {
        O.DropKeeps(config, State());
        MakesRoomFrom(config, State(), size);
        DropOldest();
      }
      MakesRoomFrom(config, State(), size);
    }

    method Take() returns (r: ReadOutcome)
      requires Valid()
      modifies this
      ensures Valid() && State() == O.Take(old(State()))
      ensures match r
              case Yield(item) => delivered == old(delivered) + [item] && O.HasNews(old(State()))
              case Stop => delivered == old(delivered) && closed && !reading && !old(gap).Some? && old(records) == []
              case Suspended => delivered == old(delivered) && !O.HasNews(old(State())) && reading
    {
      hide O.Good, O.ValidConfig;
      O.TakeKeeps(config, State());
      if gap.Some? {
        r := Yield(Lost(gap.value));
        gap := None;
        delivered := delivered + [r.item];
        reading := false;
        return;
      }
      if records != [] {
        var entry := records[0];
        records := records[1..];
        bytes := bytes - entry.size;
        r := Yield(Delivered(entry.record));
        delivered := delivered + [r.item];
        reading := false;
        return;
      }
      if closed {
        reading := false;
        return Stop;
      }
      ready := false;
      reading := true;
      r := Suspended;
    }

    /** A read begins, or is refused while another one is suspended. */
    method StartRead() returns (r: Outcome<ReadOutcome, SdkError>)
      requires Valid()
      modifies this
      ensures Valid() && State() == O.StartRead(old(State()))
      ensures r.Raised? <==> old(reading)
    {
      if reading {
        return Raised(SecondReader);
      }
      var taken := Take();
      return Ok(taken);
    }

    method Finish(discard: bool, race: bool)
      requires Valid()
      modifies this
      ensures Valid() && State() == O.Finish(old(State()), discard, race)
    {
      hide O.Good, O.ValidConfig, O.Pending, O.HasNews, O.Awake;
      O.FinishKeeps(config, State(), discard, race);
      closed := true;
      if discard {
        discarded := discarded + O.Pending(State());
        records := [];
        bytes := 0;
        gap := None;
      }
      Notify(race);
    }

    method Wake()
      requires Valid()
      modifies this
      ensures Valid() && State() == O.Wake(old(State()))
    {
      O.FlagsKeep(config, State(), O.Wake(State()));
      hide O.Good;
      if notified && loopOpen {
        notified := false;
        ready := true;
      }
    }
  }

  class ObservationSubscriptions {
    const limit: nat
    var subscriptions: set<ObservationSubscription>
    var sequence: nat
    var closed: bool

    ghost predicate Valid()
      reads this, subscriptions
    {
      && |subscriptions| <= limit
      && forall s :: s in subscriptions ==> s.Valid() && Latest(s.accepted) <= sequence
    }

    constructor (limit: nat)
      requires limit >= 1
      ensures Valid() && this.limit == limit && subscriptions == {} && sequence == 0 && !closed
    {
      this.limit := limit;
      subscriptions, sequence, closed := {}, 0, false;
    }

    method Subscribe(config: O.Config) returns (r: Outcome<ObservationSubscription, SdkError>)
      requires Valid()
      modifies this`subscriptions
      ensures Valid()
      ensures r.Raised? ==> r.error == if !O.ValidConfig(config) then InvalidLimits else if closed then SourceClosed else LimitReached
      ensures r.Ok? <==> O.ValidConfig(config) && !closed && |old(subscriptions)| < limit
      ensures r.Raised? ==> subscriptions == old(subscriptions)
      ensures r.Ok? ==> fresh(r.value) && subscriptions == old(subscriptions) + {r.value} && r.value.State() == O.FRESH
    {
      hide O.Good;
      if config.capacity < 1 || config.maxBytes < 1 {
        return Raised(InvalidLimits);
      }
      if closed {
        return Raised(SourceClosed);
      }
      if |subscriptions| >= limit {
        return Raised(LimitReached);
      }
      var s := new ObservationSubscription(config);
      subscriptions := subscriptions + {s};
      return Ok(s);
    }

    /** Numbers the event and offers it to every subscription, in whatever order the set yields them. */
    method Write(event: Event, size: nat, racing: set<ObservationSubscription>)
      requires Valid()
      modifies this`sequence, subscriptions
      ensures Valid()
      ensures closed || subscriptions == {} ==> sequence == old(sequence)
      ensures !closed && subscriptions != {} ==> sequence == old(sequence) + 1
      ensures forall s :: s in subscriptions ==>
                s.State() == if closed then old(s.State())
                             else O.Offer(s.config, old(s.State()), Record(sequence, event), size, s in racing)
    {
      hide O.Good, O.Offer, O.ValidConfig, Latest, ObservationSubscription.Valid;
      if closed || subscriptions == {} {
        return;
      }
      sequence := sequence + 1;
      var record := Record(sequence, event);
      var todo := subscriptions;
      while todo != {}
        invariant todo <= subscriptions && sequence == old(sequence) + 1
        invariant forall s :: s in todo ==> s.State() == old(s.State()) && s.Valid() && Latest(s.accepted) < sequence
        invariant forall s :: s in subscriptions - todo ==>
                    s.Valid() && Latest(s.accepted) <= sequence
                    && s.State() == O.Offer(s.config, old(s.State()), record, size, s in racing)
        decreases todo
      {
        var s :| s in todo;
        s.Offer(record, size, s in racing);
        todo := todo - {s};
      }
    }

    /** Every subscription is finished, keeping what it holds. */
    method Close(racing: set<ObservationSubscription>)
      requires Valid()
      modifies this, subscriptions
      ensures Valid() && closed && subscriptions == {}
      ensures forall s :: s in old(subscriptions) ==> s.Valid() && s.State() == O.Finish(old(s.State()), false, s in racing)
    {
      hide O.Good, O.Finish, O.ValidConfig, ObservationSubscription.Valid;
      closed := true;
      var todo := subscriptions;
      while todo != {}
        invariant todo <= subscriptions == old(subscriptions) && closed
        invariant forall s :: s in todo ==> s.State() == old(s.State()) && s.Valid()
        invariant forall s :: s in subscriptions - todo ==> s.Valid() && s.State() == O.Finish(old(s.State()), false, s in racing)
        decreases todo
      {
        var s :| s in todo;
        s.Finish(false, s in racing);
        todo := todo - {s};
      }
      subscriptions := {};
    }
  }
}
