/** The heap as an object: its entries are prepared aside, installed whole, and evicted in place for a budget. */
module HeapSegment {
  import opened Wrappers
  import opened Sequences
  import opened OrderedMap
  import opened BackgroundPatches
  import opened BackgroundHeap
  import opened BackgroundEviction

  class HeapSegment {
    var catalog: Catalog
    var entries: Entries

    ghost predicate Valid()
      reads this
    {
      Good(Heap(catalog, entries))
    }

    constructor (candidate: Heap)
      requires Good(candidate)
      ensures Valid() && Heap(catalog, entries) == candidate
    {
      catalog, entries := candidate.catalog, candidate.entries;
    }

    /** The heap after the updates, without touching this one. */
    method Prepare(updates: seq<Update>) returns (r: Outcome<Heap, HeapError>)
      requires Valid() && forall u :: u in updates ==> ValidUpdate(u)
      ensures r == BackgroundHeap.Prepare(Heap(catalog, entries), updates)
      ensures r.Ok? ==> Good(r.value)
    {
      hide Good, ApplyUpdate;
      PrepareKeeps(Heap(catalog, entries), updates);
      var heap := Heap(catalog, entries);
      assert updates[0..] == updates;
      for i := 0 to |updates|
        invariant BackgroundHeap.Prepare(Heap(catalog, entries), updates) == BackgroundHeap.Prepare(heap, updates[i..])
      {
        assert updates[i..][1..] == updates[i + 1..];
        var next := ApplyUpdate(heap, updates[i]);
        if next.Raised? {
          return next;
        }
        heap := next.value;
      }
      return Ok(heap);
    }

    method Install(prepared: Heap)
      requires Good(prepared)
      modifies this
      ensures Valid() && Heap(catalog, entries) == prepared
    {
      catalog, entries := prepared.catalog, prepared.entries;
    }

    /** One pass over the entries there were when it started. */
    method EvictSource(source: Source, required: nat) returns (reclaimed: nat, evicted: seq<Ref>)
      requires required > 0 && Unique(entries)
      modifies this`entries
      ensures var v := Victims(Evictable(old(entries), source), required);
              entries == RemoveAll(old(entries), Keys(v)) && reclaimed == TotalCost(v) && evicted == Keys(v)
    {
      hide Victims, Evictable, RemoveAll, Remove, TotalCost, Keys;
      ghost var v := Victims(Evictable(entries, source), required);
      var snapshot := entries;
      reclaimed, evicted := 0, [];
      ghost var gone: Entries := [];
      NothingGone(snapshot, source, required);
      for i := 0 to |snapshot|
        invariant reclaimed == TotalCost(gone) < required && evicted == Keys(gone)
        invariant entries == RemoveAll(snapshot, Keys(gone))
        invariant v == gone + Victims(Evictable(snapshot[i..], source), required - reclaimed)
      {
        var entry := snapshot[i];
        NextEntry(snapshot, i, source);
        if entry.value.source == source && entry.value.evictable {
          NextVictim(gone, entry, Evictable(snapshot[i + 1..], source), required);
          RemoveNext(snapshot, Keys(gone), entry.key);
          entries := Remove(entries, entry.key);
          evicted := evicted + [entry.key];
          reclaimed := reclaimed + |entry.key| + |entry.value.content| + OVERHEAD;
          gone := gone + [entry];
          if reclaimed >= required {
            NothingMore(Evictable(snapshot[i + 1..], source), required - reclaimed);
            assert v == gone + [] == gone;
            return;
          }
        }
      }
      NothingMore(Evictable(snapshot[|snapshot|..], source), required - reclaimed);
      NoneLeft(snapshot, source);
      assert v == gone + [] == gone;
    }

    /** Selected entries go before automatic ones, oldest first, until the target is reached. */
    method EvictForBudget(required: int) returns (reclaimed: nat, evicted: seq<Ref>)
      requires Valid()
      modifies this`entries
      ensures Valid() && entries == Reclaimed(old(entries), required)
      ensures var v := Victims(Candidates(old(entries)), required); evicted == Keys(v) && reclaimed == TotalCost(v)
      ensures GoneInOrder(old(entries), entries) && ReportedInOrder(old(entries), evicted)
    {
      hide Victims, Evictable, RemoveAll, Good, GoneInOrder, ReportedInOrder;
      ReclaimKeeps(Heap(catalog, entries), required);
      VictimsInOrder(Heap(catalog, entries), required);
      EvictedInOrder(Heap(catalog, entries), required);
      GoodIsUnique(Heap(catalog, entries));
      if required <= 0 {
        NoVictims(entries, required);
        return 0, [];
      }
      ghost var before := entries;
      ghost var first := Victims(Evictable(entries, Phase1), required);
      VictimsSplit(Evictable(before, Phase1), Evictable(before, Automatic), required);
      reclaimed, evicted := EvictSource(Phase1, required);
      if reclaimed >= required {
        return;
      }
      SecondPass(before, first);
      var more, rest := EvictSource(Automatic, required - reclaimed);
      ghost var second := Victims(Evictable(before, Automatic), required - reclaimed);
      RemoveInTwo(before, Keys(first), Keys(second));
      KeysConcat(first, second);
      CostConcat(first, second);
      reclaimed, evicted := reclaimed + more, evicted + rest;
    }
  }

  lemma NothingGone(entries: Entries, source: Source, required: int)
    ensures RemoveAll(entries, Keys<Entry>([])) == entries && TotalCost([]) == 0 && Keys<Entry>([]) == []
    ensures [] + Victims(Evictable(entries[0..], source), required) == Victims(Evictable(entries, source), required)
  {
    assert entries[0..] == entries;
  }

  lemma NothingMore(candidates: Entries, required: int)
    ensures required <= 0 || candidates == [] ==> Victims(candidates, required) == []
  {
  }

  lemma NoneLeft(entries: Entries, source: Source)
    ensures Evictable(entries[|entries|..], source) == []
  {
  }

  lemma NoVictims(entries: Entries, required: int)
    requires required <= 0
    ensures Victims(Candidates(entries), required) == [] && Reclaimed(entries, required) == entries
    ensures Keys(Victims(Candidates(entries), required)) == [] && TotalCost([]) == 0
  {
  }

  lemma SecondPass(before: Entries, first: Entries)
    requires Unique(before) && first == Evictable(before, Phase1)
    ensures Unique(RemoveAll(before, Keys(first)))
    ensures Evictable(RemoveAll(before, Keys(first)), Automatic) == Evictable(before, Automatic)
  {
    EvictableMembers(before, Phase1);
    EvictableUnique(before, Phase1);
    RemovedAll(before, Keys(first));
    RemoveOthers(before, first, Automatic);
  }
}
