/** Evicting entries for a character budget: selected ones before automatic ones, oldest first, and no more than needed. */
module BackgroundEviction {
  import opened Wrappers
  import opened Sequences
  import opened OrderedMap
  import opened BackgroundPatches
  import opened BackgroundHeap

  const OVERHEAD: nat := 24

  function Cost(p: Pair<Entry>): nat {
    |p.key| + |p.value.content| + OVERHEAD
  }

  function TotalCost(victims: Entries): nat {
    if victims == [] then 0 else Cost(victims[0]) + TotalCost(victims[1..])
  }

  /** The evictable entries of one source, in order. */
  function Evictable(entries: Entries, source: Source): Entries {
    if entries == [] then []
    else (if entries[0].value.source == source && entries[0].value.evictable then [entries[0]] else []) + Evictable(entries[1..], source)
  }

  function Candidates(entries: Entries): Entries {
    Evictable(entries, Phase1) + Evictable(entries, Automatic)
  }

  /** The first candidates whose costs reach the target, or all of them. */
  function Victims(candidates: Entries, required: int): Entries {
    if required <= 0 || candidates == [] then [] else [candidates[0]] + Victims(candidates[1..], required - Cost(candidates[0]))
  }

  function Reclaimed(entries: Entries, required: int): Entries {
    RemoveAll(entries, Keys(Victims(Candidates(entries), required)))
  }

  // ---------- Properties ----------

  lemma {:induction false} EvictableMembers(entries: Entries, source: Source)
    ensures forall p :: p in Evictable(entries, source) <==> p in entries && p.value.source == source && p.value.evictable
  {
    if entries != [] {
      EvictableMembers(entries[1..], source);
      assert entries == [entries[0]] + entries[1..];
    }
  }

  lemma {:induction false} EvictableUnique(entries: Entries, source: Source)
    requires Unique(entries)
    ensures Unique(Evictable(entries, source)) && forall k :: k in Keys(Evictable(entries, source)) ==> k in Keys(entries)
  {
    if entries != [] {
      UniqueTail(entries);
      assert Keys(entries) == [entries[0].key] + Keys(entries[1..]);
      EvictableUnique(entries[1..], source);
      var rest := Evictable(entries[1..], source);
      if entries[0].value.source == source && entries[0].value.evictable {
        UniqueCons(entries[0], rest);
        assert Keys([entries[0]] + rest) == [entries[0].key] + Keys(rest);
      } else {
        assert [] + rest == rest;
      }
    }
  }

  lemma CandidatesUnique(entries: Entries)
    requires Unique(entries)
    ensures Unique(Candidates(entries))
    ensures forall p :: p in Candidates(entries) <==> p in entries && p.value.evictable && p.value.source != Default
  {
    var a, b := Evictable(entries, Phase1), Evictable(entries, Automatic);
    EvictableUnique(entries, Phase1);
    EvictableUnique(entries, Automatic);
    EvictableMembers(entries, Phase1);
    EvictableMembers(entries, Automatic);
    forall k | k in Keys(a) ensures k !in Keys(b) {
      var p := KeyHolder(a, k);
      if k in Keys(b) {
        var q := KeyHolder(b, k);
        KeyDetermines(entries, p, q);
      }
    }
    UniqueAppend(a, b);
  }

  lemma {:induction false} VictimsAreFirst(candidates: Entries, required: int)
    ensures Victims(candidates, required) <= candidates
    ensures TotalCost(Victims(candidates, required)) >= required || Victims(candidates, required) == candidates
    ensures var v := Victims(candidates, required);
            v != [] ==> TotalCost(v[..|v| - 1]) < required
    decreases |candidates|
  {
    if required > 0 && candidates != [] {
      var rest := Victims(candidates[1..], required - Cost(candidates[0]));
      VictimsAreFirst(candidates[1..], required - Cost(candidates[0]));
      var v := [candidates[0]] + rest;
      assert v[1..] == rest;
      if rest == [] {
        assert v[..|v| - 1] == [];
      } else {
        assert v[..|v| - 1] == [candidates[0]] + rest[..|rest| - 1];
        assert v[..|v| - 1][1..] == rest[..|rest| - 1];
      }
    }
  }

  /** Removing some entries by their refs leaves exactly the others. */
  lemma LeavesTheOthers(entries: Entries, v: Entries)
    requires Unique(entries) && forall p :: p in v ==> p in entries
    ensures Unique(RemoveAll(entries, Keys(v)))
    ensures forall p :: p in RemoveAll(entries, Keys(v)) <==> p in entries && p !in v
  {
    hide Unique, RemoveAll;
    var left := RemoveAll(entries, Keys(v));
    RemovedAll(entries, Keys(v));
    forall p | p in entries && p !in v ensures p in left {
      if p.key in Keys(v) {
        var q := KeyHolder(v, p.key);
        KeyDetermines(entries, p, q);
      }
      StillThere(entries, Keys(v), p);
    }
    forall p | p in left && p in v ensures false {
      MemberKey(left, p);
      MemberKey(v, p);
    }
  }

  /**
   * For every heap and target: only evictable entries go, in the order of the candidates; without the last one the target
   * would be missed; and if it is missed all the same, everything evictable that is left still counts as a default.
   */
  lemma EvictionIsExact(h: Heap, required: int)
    requires Good(h)
    ensures var v, left := Victims(Candidates(h.entries), required), Reclaimed(h.entries, required);
            && v <= Candidates(h.entries)
            && (forall p :: p in v ==> !Guarded(h.catalog, p.key))
            && (forall p :: p in left <==> p in h.entries && p !in v)
            && (v != [] ==> TotalCost(v[..|v| - 1]) < required)
            && (TotalCost(v) < required ==> forall p :: p in left && p.value.evictable ==> p.value.source == Default)
  {
    hide Candidates, RemoveAll, Victims, Unique;
    var candidates := Candidates(h.entries);
    var v := Victims(candidates, required);
    CandidatesUnique(h.entries);
    VictimsAreFirst(candidates, required);
    forall p | p in v ensures p in h.entries && p.value.evictable { assert p in candidates; }
    LeavesTheOthers(h.entries, v);
  }

  // ---------- Which entries go first ----------

  /** Selected entries go before automatic ones, and within one source the older, which is nearer the front. */
  predicate GoesBefore(entries: Entries, i: nat, j: nat)
    requires i < |entries| && j < |entries|
  {
    var a, b := entries[i].value.source, entries[j].value.source;
    (a == Phase1 && b == Automatic) || (a == b && i < j)
  }

  /** What a budget may evict at all. */
  predicate MayGo(p: Pair<Entry>) {
    p.value.evictable && p.value.source != Default
  }

  lemma EvictableStep(entries: Entries, source: Source) returns (first: Entries)
    requires entries != []
    ensures first == if entries[0].value.source == source && entries[0].value.evictable then [entries[0]] else []
    ensures Evictable(entries, source) == first + Evictable(entries[1..], source)
  {
    first := if entries[0].value.source == source && entries[0].value.evictable then [entries[0]] else [];
  }

  lemma EvictableNone(source: Source)
    ensures Evictable([], source) == []
  {
  }

  lemma {:induction false} EvictableAt(entries: Entries, source: Source, k: nat) returns (i: nat)
    requires k < |Evictable(entries, source)|
    ensures i < |entries| && entries[i] == Evictable(entries, source)[k] && entries[i].value.source == source && entries[i].value.evictable
    ensures Evictable(entries[..i], source) == Evictable(entries, source)[..k]
  {
    assert entries != [];
    hide Evictable;
    var first := EvictableStep(entries, source);
    if k < |first| {
      i := 0;
      EvictableNone(source);
      assert entries[..0] == [];
    } else {
      var rest := Evictable(entries[1..], source);
      var j := EvictableAt(entries[1..], source, k - |first|);
      i := j + 1;
      assert (first + rest)[k] == rest[k - |first|] && (first + rest)[..k] == first + rest[..k - |first|];
      hide NoDuplicates, Keys;
      assert entries[..i][0] == entries[0] && entries[..i][1..] == entries[1..][..j];
      var same := EvictableStep(entries[..i], source);
    }
  }

  /** A later candidate of one source is a later entry. */
  lemma EvictableInOrder(entries: Entries, source: Source, k: nat, i: nat, j: nat)
    requires Unique(entries) && i < j < |entries|
    requires entries[i].value.source == source && entries[i].value.evictable
    requires k < |Evictable(entries, source)| && entries[j] == Evictable(entries, source)[k]
    ensures entries[i] in Evictable(entries, source)[..k]
  {
    var at := EvictableAt(entries, source, k);
    SameKeySamePlace(entries, at, j);
    EvictableMembers(entries[..j], source);
    assert entries[..j][i] == entries[i];
  }

  lemma SameKeySamePlace(entries: Entries, i: nat, j: nat)
    requires Unique(entries) && i < |entries| && j < |entries| && entries[i] == entries[j]
    ensures i == j
  {
    assert Keys(entries)[i] == Keys(entries)[j];
  }

  /** Whoever goes before a candidate comes before it among the candidates. */
  lemma CandidatesInOrder(entries: Entries, k: nat, i: nat, j: nat)
    requires Unique(entries) && i < |entries| && j < |entries| && MayGo(entries[i]) && GoesBefore(entries, i, j)
    requires k < |Candidates(entries)| && entries[j] == Candidates(entries)[k]
    ensures entries[i] in Candidates(entries)[..k]
  {
    var a, b := Evictable(entries, Phase1), Evictable(entries, Automatic);
    EvictableMembers(entries, Phase1);
    EvictableMembers(entries, Automatic);
    hide Evictable, Unique;
    if k < |a| {
      assert a[k] in a;
      EvictableInOrder(entries, Phase1, k, i, j);
      assert Candidates(entries)[..k] == a[..k];
    } else {
      assert b[k - |a|] in b;
      assert Candidates(entries)[..k] == a + b[..k - |a|];
      if entries[i].value.source == Automatic { EvictableInOrder(entries, Automatic, k - |a|, i, j); }
    }
  }

  /**
   * Which entries a budget evicts, by their places in the heap: an entry goes only if every evictable one that goes before
   * it does. So no automatic entry goes while a selected one is left, and none goes while an older one of its source is.
   */
  lemma EvictedInOrder(h: Heap, required: int)
    requires Good(h)
    ensures GoneInOrder(h.entries, Reclaimed(h.entries, required))
  {
    var candidates := Candidates(h.entries);
    var v, left := Victims(candidates, required), Reclaimed(h.entries, required);
    EvictionIsExact(h, required);
    GoodIsUnique(h);
    hide Candidates, Victims, Reclaimed, GoesBefore, MayGo, Good;
    forall i: nat, j: nat | i < |h.entries| && j < |h.entries| && MayGo(h.entries[i]) && h.entries[j] !in left && GoesBefore(h.entries, i, j)
      ensures h.entries[i] !in left
    {
      var k :| 0 <= k < |v| && v[k] == h.entries[j];
      assert candidates[k] == v[k];
      CandidatesInOrder(h.entries, k, i, j);
      assert candidates[..k] == v[..k];
    }
  }

  /** The reported refs name what went, in the order in which it goes. */
  ghost predicate ReportedInOrder(entries: Entries, refs: seq<Ref>) {
    forall m, n, i, j |
      0 <= m < |refs| && 0 <= n < |refs| && 0 <= i < |entries| && 0 <= j < |entries| && entries[i].key == refs[m] && entries[j].key == refs[n]
      :: GoesBefore(entries, i, j) ==> m < n
  }

  /** Of what may go, whatever goes before an entry that is gone is gone too. */
  ghost predicate GoneInOrder(entries: Entries, left: Entries) {
    forall i, j | 0 <= i < |entries| && 0 <= j < |entries| && MayGo(entries[i]) && entries[j] !in left
      :: GoesBefore(entries, i, j) ==> entries[i] !in left
  }

  lemma VictimsInOrder(h: Heap, required: int)
    requires Good(h)
    ensures ReportedInOrder(h.entries, Keys(Victims(Candidates(h.entries), required)))
  {
    var candidates := Candidates(h.entries);
    var v := Victims(candidates, required);
    VictimsAreFirst(candidates, required);
    GoodIsUnique(h);
    CandidatesUnique(h.entries);
    hide Candidates, Victims, GoesBefore, Good;
    forall m: nat, n: nat, i: nat, j: nat | m < |v| && n < |v| && i < |h.entries| && j < |h.entries|
      && h.entries[i].key == Keys(v)[m] && h.entries[j].key == Keys(v)[n] && GoesBefore(h.entries, i, j)
      ensures m < n
    {
      assert candidates[m] in candidates && candidates[n] in candidates;
      KeyDetermines(h.entries, h.entries[i], candidates[m]);
      KeyDetermines(h.entries, h.entries[j], candidates[n]);
      CandidatesInOrder(h.entries, n, i, j);
      var at :| 0 <= at < n && candidates[..n][at] == candidates[m];
      SameKeySamePlace(candidates, at, m);
    }
  }

  lemma {:induction false} StillThere(entries: Entries, refs: seq<Ref>, p: Pair<Entry>)
    requires p in entries && p.key !in refs
    ensures p in RemoveAll(entries, refs)
    decreases |refs|
  {
    if refs != [] {
      OtherStays(entries, refs[0], p);
      StillThere(Remove(entries, refs[0]), refs[1..], p);
    }
  }

  lemma {:induction false} OtherStays(entries: Entries, key: string, p: Pair<Entry>)
    requires p in entries && p.key != key
    ensures p in Remove(entries, key)
  {
    if entries[0].key != key && p != entries[0] {
      assert p in entries[1..];
      OtherStays(entries[1..], key, p);
    } else if entries[0].key == key {
      assert p in entries[1..];
    }
  }

  /** A reclaimed heap is still a heap. */
  lemma ReclaimKeeps(h: Heap, required: int)
    requires Good(h)
    ensures Good(Heap(h.catalog, Reclaimed(h.entries, required)))
  {
    hide Candidates, RemoveAll, Victims;
    var candidates := Candidates(h.entries);
    var v, left := Victims(candidates, required), Reclaimed(h.entries, required);
    CandidatesUnique(h.entries);
    VictimsAreFirst(candidates, required);
    forall p | p in v ensures p in h.entries { assert p in candidates; }
    EvictionIsExact(h, required);
    LeavesTheOthers(h.entries, v);
    forall r | Guarded(h.catalog, r) ensures r in Keys(left) {
      var p := KeyHolder(h.entries, r);
      assert p in left;
      MemberKey(left, p);
    }
  }

  datatype Step = Install(updates: seq<Update>) | Reclaim(required: int)

  /** Updates that cannot be prepared leave the heap as it was. */
  function Apply(h: Heap, step: Step): Heap {
    match step
    case Install(updates) => (match Prepare(h, updates) case Ok(next) => next case Raised(_) => h)
    case Reclaim(required) => Heap(h.catalog, Reclaimed(h.entries, required))
  }

  function Run(h: Heap, steps: seq<Step>): Heap
    decreases |steps|
  {
    if steps == [] then h else Run(Apply(h, steps[0]), steps[1..])
  }

  ghost predicate ValidStep(step: Step) {
    step.Install? ==> forall u :: u in step.updates ==> ValidUpdate(u)
  }

  /** Every heap reachable from a good one, by updates, refreshes and reclaims in any order, is good. */
  lemma {:induction false} EveryHeapIsGood(h: Heap, steps: seq<Step>)
    requires Good(h) && forall step :: step in steps ==> ValidStep(step)
    ensures Good(Run(h, steps))
    decreases |steps|
  {
    hide Good, Reclaimed, Prepare;
    if steps != [] {
      match steps[0]
      case Install(updates) =>
        assert ValidStep(steps[0]);
        PrepareKeeps(h, updates);
        EveryHeapIsGood(Apply(h, steps[0]), steps[1..]);
      case Reclaim(required) =>
        ReclaimKeeps(h, required);
        EveryHeapIsGood(Apply(h, steps[0]), steps[1..]);
    }
  }

  // ---------- Defaults that stopped being guarded ----------

  /** Entries loaded as guarded defaults, which a refresh has since made evictable. */
  predicate Demoted(p: Pair<Entry>) {
    p.value.evictable && p.value.source == Default
  }

  /** The target is met, or nothing evictable is left, exactly when no demoted default stands in the way. */
  lemma BudgetMetExactly(h: Heap, required: int)
    requires Good(h)
    ensures var v, left := Victims(Candidates(h.entries), required), Reclaimed(h.entries, required);
            (TotalCost(v) >= required || forall p :: p in left ==> !p.value.evictable) <==>
            (TotalCost(Candidates(h.entries)) >= required || forall p :: p in h.entries ==> !Demoted(p))
  {
    hide Candidates, RemoveAll, Victims, Good, Reclaimed;
    var candidates := Candidates(h.entries);
    var v := Victims(candidates, required);
    VictimsAreFirst(candidates, required);
    EvictionIsExact(h, required);
    GoodIsUnique(h);
    CandidatesUnique(h.entries);
    if TotalCost(v) < required {
      forall p | p in h.entries && Demoted(p) ensures p in Reclaimed(h.entries, required) {
        assert p !in candidates;
      }
    } else {
      CostOfPrefix(v, candidates);
    }
  }

  lemma GoodIsUnique(h: Heap)
    requires Good(h)
    ensures Unique(h.entries)
  {
  }

  lemma {:induction false} CostOfPrefix(part: Entries, whole: Entries)
    requires part <= whole
    ensures TotalCost(part) <= TotalCost(whole)
  {
    if part != [] { CostOfPrefix(part[1..], whole[1..]); }
  }

  lemma {:induction false} MadeValues(c: Catalog, refs: seq<Ref>, before: Entries, read: Ref -> string)
    requires MakeAll(c, refs, before, read).Ok?
    ensures forall p :: p in MakeAll(c, refs, before, read).value ==> MakeEntry(c, p.key, read(p.key), Find(before, p.key)) == Ok(p.value)
  {
    if refs != [] { MadeValues(c, refs[1..], before, read); }
  }

  /** A refresh demotes exactly the loaded entries of default origin that are no longer defaults. */
  lemma RefreshDemotes(h: Heap, c: Catalog, read: Ref -> string, p: Pair<Entry>)
    requires Good(h) && ValidCatalog(c) && Refreshed(h, c, read).Ok? && p in Refreshed(h, c, read).value.entries
    ensures Demoted(p) <==>
              p.key !in c.defaults && Find(h.entries, p.key).Some? && Find(h.entries, p.key).value.source == Default
  {
    MadeValues(c, Selected(c, c.defaults, Keys(h.entries)), h.entries, read);
  }

  lemma MakesOne(c: Catalog, before: Entries, read: Ref -> string, entry: Entry)
    requires MakeEntry(c, "d", read("d"), Find(before, "d")) == Ok(entry)
    ensures MakeAll(c, ["d"], before, read) == Ok([Pair("d", entry)])
  {
    assert ["d"][1..] == [];
    assert MakeAll(c, [], before, read) == Ok([]);
    assert [Pair("d", entry)] + [] == [Pair("d", entry)];
  }

  /** The smallest demotion: the only entry can be evicted, and no budget ever evicts it. */
  lemma DemotedDefaultIsSkipped(read: Ref -> string, required: int)
    requires read("d") != ""
    ensures var first, second := Catalog("owner", ["d"], ["d"], []), Catalog("owner", [], ["d"], []);
            var entry := Pair("d", Entry(read("d"), Default, "owner", true));
            && Open(first, read) == Ok(Heap(first, [Pair("d", Entry(read("d"), Default, "owner", false))]))
            && Refreshed(Open(first, read).value, second, read) == Ok(Heap(second, [entry]))
            && Victims(Candidates([entry]), required) == []
  {
    var first, second := Catalog("owner", ["d"], ["d"], []), Catalog("owner", [], ["d"], []);
    var guarded, entry := Entry(read("d"), Default, "owner", false), Entry(read("d"), Default, "owner", true);
    MakesOne(first, [], read, guarded);
    assert Keys([Pair("d", guarded)]) == ["d"];
    assert ["d"][1..] == [] && Selected(second, [], []) == [] && Selected(second, [], ["d"]) == ["d"] + [] == ["d"];
    MakesOne(second, [Pair("d", guarded)], read, entry);
    assert Evictable([Pair("d", entry)][1..], Phase1) == [] && Evictable([Pair("d", entry)][1..], Automatic) == [];
  }

  // ---------- The two passes ----------

  lemma VictimsFirst(first: Pair<Entry>, rest: Entries, required: int)
    ensures Victims([first] + rest, required) == if required <= 0 then [] else [first] + Victims(rest, required - Cost(first))
    ensures TotalCost([first] + rest) == Cost(first) + TotalCost(rest)
  {
    assert ([first] + rest)[1..] == rest;
  }

  lemma VictimsOfNothing(a: Entries, required: int)
    ensures required <= 0 || a == [] ==> Victims(a, required) == []
    ensures TotalCost([]) == 0
  {
  }

  lemma {:induction false} VictimsSplit(a: Entries, b: Entries, required: int)
    ensures TotalCost(Victims(a, required)) >= required ==> Victims(a + b, required) == Victims(a, required)
    ensures TotalCost(Victims(a, required)) < required ==>
              Victims(a, required) == a && Victims(a + b, required) == a + Victims(b, required - TotalCost(a))
  {
    hide Victims, Cost, TotalCost;
    VictimsOfNothing(a, required);
    VictimsOfNothing(a + b, required);
    if a == [] {
      VictimsOfNothing(b, required);
      assert a + b == b && a + Victims(b, required) == Victims(b, required);
    } else if required > 0 {
      var first, rest := a[0], a[1..];
      var left := required - Cost(first);
      assert a == [first] + rest && a + b == [first] + (rest + b);
      VictimsSplit(rest, b, left);
      VictimsFirst(first, rest, required);
      VictimsFirst(first, rest + b, required);
      VictimsFirst(first, Victims(rest, left), required);
      if TotalCost(Victims(rest, left)) < left {
        assert [first] + (rest + Victims(b, left - TotalCost(rest))) == a + Victims(b, required - TotalCost(a));
      }
    }
  }

  lemma {:induction false} RemoveOther(entries: Entries, p: Pair<Entry>, source: Source)
    requires Unique(entries) && p in entries && p.value.source != source
    ensures Evictable(Remove(entries, p.key), source) == Evictable(entries, source)
  {
    UniqueTail(entries);
    if entries[0].key == p.key {
      KeyDetermines(entries, entries[0], p);
    } else {
      assert p in entries[1..];
      RemoveOther(entries[1..], p, source);
      assert Remove(entries, p.key)[1..] == Remove(entries[1..], p.key);
    }
  }

  lemma {:induction false} RemoveOthers(entries: Entries, gone: Entries, source: Source)
    requires Unique(entries) && Unique(gone) && forall p :: p in gone ==> p in entries && p.value.source != source
    ensures Evictable(RemoveAll(entries, Keys(gone)), source) == Evictable(entries, source)
    decreases |gone|
  {
    if gone != [] {
      var p, rest := gone[0], Remove(entries, gone[0].key);
      assert Keys(gone)[0] == p.key && Keys(gone)[1..] == Keys(gone[1..]);
      UniqueTail(gone);
      RemoveOther(entries, p, source);
      FindRemove(entries, p.key, p.key);
      forall q | q in gone[1..] ensures q in rest {
        MemberKey(gone[1..], q);
        OtherStays(entries, p.key, q);
      }
      RemoveOthers(rest, gone[1..], source);
    }
  }

  lemma {:induction false} RemoveInTwo(entries: Entries, first: seq<Ref>, second: seq<Ref>)
    ensures RemoveAll(entries, first + second) == RemoveAll(RemoveAll(entries, first), second)
    decreases |first|
  {
    if first == [] {
      assert first + second == second;
    } else {
      assert (first + second)[1..] == first[1..] + second;
      RemoveInTwo(Remove(entries, first[0]), first[1..], second);
    }
  }

  lemma {:induction false} CostConcat(a: Entries, b: Entries)
    ensures TotalCost(a + b) == TotalCost(a) + TotalCost(b)
  {
    if a == [] {
      assert a + b == b;
    } else {
      assert (a + b)[1..] == a[1..] + b;
      CostConcat(a[1..], b);
    }
  }

  lemma KeysConcat(a: Entries, b: Entries)
    ensures Keys(a + b) == Keys(a) + Keys(b)
  {
  }

  lemma NextEntry(entries: Entries, i: nat, source: Source)
    requires i < |entries|
    ensures var rest := Evictable(entries[i + 1..], source);
            Evictable(entries[i..], source) ==
              if entries[i].value.source == source && entries[i].value.evictable then [entries[i]] + rest else rest
  {
    assert entries[i..][1..] == entries[i + 1..];
  }

  lemma NextVictim(gone: Entries, entry: Pair<Entry>, rest: Entries, required: int)
    requires TotalCost(gone) < required
    ensures gone + Victims([entry] + rest, required - TotalCost(gone)) ==
            (gone + [entry]) + Victims(rest, required - TotalCost(gone + [entry]))
    ensures TotalCost(gone + [entry]) == TotalCost(gone) + Cost(entry) && Keys(gone + [entry]) == Keys(gone) + [entry.key]
  {
    assert ([entry] + rest)[1..] == rest;
    CostConcat(gone, [entry]);
    assert [entry][1..] == [];
    assert TotalCost([entry]) == Cost(entry);
  }

  lemma RemoveNext(entries: Entries, gone: seq<Ref>, ref: Ref)
    ensures RemoveAll(entries, gone + [ref]) == Remove(RemoveAll(entries, gone), ref)
  {
    RemoveInTwo(entries, gone, [ref]);
    assert [ref][1..] == [];
  }
}
