/** Where the entries of a heap come from, and in which order they stand after a refresh or a selection. */
module BackgroundOrigins {
  import opened Wrappers
  import opened Sequences
  import opened OrderedMap
  import opened BackgroundPatches
  import opened BackgroundHeap

  lemma {:induction false} WithoutOne(refs: seq<Ref>, one: Ref, dropped: set<Ref>)
    requires NoDuplicates(refs)
    ensures Without(RemoveFirst(refs, one), dropped) == Without(refs, {one} + dropped)
  {
    if refs != [] {
      TailUnique(refs);
      var rest := refs[1..];
      if refs[0] == one {
        assert forall r :: r in rest ==> r != one;
        SameDropped(rest, dropped, {one} + dropped);
      } else {
        WithoutOne(rest, one, dropped);
        assert RemoveFirst(refs, one) == [refs[0]] + RemoveFirst(rest, one);
        assert ([refs[0]] + RemoveFirst(rest, one))[1..] == RemoveFirst(rest, one);
      }
    }
  }

  lemma {:induction false} SameDropped(refs: seq<Ref>, a: set<Ref>, b: set<Ref>)
    requires forall r :: r in refs ==> (r in a <==> r in b)
    ensures Without(refs, a) == Without(refs, b)
  {
    if refs != [] { SameDropped(refs[1..], a, b); }
  }

  lemma {:induction false} KeysOfRemove(entries: Entries, ref: Ref)
    ensures Keys(Remove(entries, ref)) == RemoveFirst(Keys(entries), ref)
  {
    if entries != [] {
      assert Keys(entries) == [entries[0].key] + Keys(entries[1..]);
      assert Keys(entries)[1..] == Keys(entries[1..]);
      if entries[0].key != ref {
        KeysOfRemove(entries[1..], ref);
        assert Keys([entries[0]] + Remove(entries[1..], ref)) == [entries[0].key] + Keys(Remove(entries[1..], ref));
      }
    }
  }

  lemma {:induction false} KeysOfRemoveAll(entries: Entries, refs: seq<Ref>)
    requires Unique(entries)
    ensures Keys(RemoveAll(entries, refs)) == Without(Keys(entries), Elements(refs))
    decreases |refs|
  {
    if refs == [] {
      WithoutNothing(Keys(entries), {});
      assert Elements(refs) == {};
    } else {
      FindRemove(entries, refs[0], refs[0]);
      KeysOfRemove(entries, refs[0]);
      KeysOfRemoveAll(Remove(entries, refs[0]), refs[1..]);
      WithoutOne(Keys(entries), refs[0], Elements(refs[1..]));
      assert refs == [refs[0]] + refs[1..];
      assert Elements(refs) == {refs[0]} + Elements(refs[1..]);
    }
  }

  /** How a ref that is not loaded yet, or is read again, becomes an entry: what is read, and where it counts as coming from. */
  predicate IsMade(c: Catalog, p: Pair<Entry>, read: Ref -> string, origin: Source) {
    && p.value.content == read(p.key) != "" && p.value.owner == c.owner
    && (p.value.evictable <==> !(p.key in c.defaults && p.key !in c.evictableDefaults))
    && p.value.source == if p.key !in c.defaults then origin else if p.key in c.evictableDefaults then Automatic else Default
  }

  // ---------- Selecting ----------

  lemma MadeOne(c: Catalog, ref: Ref, read: Ref -> string)
    requires MakeEntry(c, ref, read(ref), None).Ok?
    ensures IsMade(c, Pair(ref, MakeEntry(c, ref, read(ref), None).value), read, Phase1)
  {
  }

  /** The entries that were there, then what these refs add, in their order. */
  ghost predicate Extends(c: Catalog, entries: Entries, refs: seq<Ref>, read: Ref -> string, loaded: Entries) {
    && Keys(loaded) == Keys(entries) + Without(refs, Elements(Keys(entries))) && entries <= loaded
    && forall p :: p in loaded[|entries|..] ==> p.key in refs && IsMade(c, p, read, Phase1)
  }

  lemma ExtendsFurther(c: Catalog, entries: Entries, first: Pair<Entry>, rest: seq<Ref>, read: Ref -> string, loaded: Entries)
    requires first.key !in Keys(entries) && first.key !in rest && IsMade(c, first, read, Phase1)
    requires Extends(c, entries + [first], rest, read, loaded)
    ensures Extends(c, entries, [first.key] + rest, read, loaded)
  {
    hide IsMade;
    var more := entries + [first];
    assert Keys(more) == Keys(entries) + [first.key];
    SameDropped(rest, Elements(Keys(more)), Elements(Keys(entries)));
    assert ([first.key] + rest)[1..] == rest;
    assert loaded[|entries|..] == [first] + loaded[|more|..];
  }

  /** What loading makes of the first ref. */
  lemma LoadStep(c: Catalog, entries: Entries, refs: seq<Ref>, read: Ref -> string) returns (more: Entries)
    requires refs != [] && LoadAll(c, entries, refs, read).Ok?
    ensures if refs[0] in Keys(entries) then more == entries
            else exists first: Pair<Entry> :: more == entries + [first] && first.key == refs[0] && IsMade(c, first, read, Phase1)
    ensures LoadAll(c, entries, refs, read) == LoadAll(c, more, refs[1..], read)
  {
    if refs[0] in Keys(entries) {
      more := entries;
    } else {
      MadeOne(c, refs[0], read);
      more := entries + [Pair(refs[0], MakeEntry(c, refs[0], read(refs[0]), None).value)];
      hide IsMade;
    }
  }

  lemma ExtendsNothing(c: Catalog, entries: Entries, read: Ref -> string)
    ensures Extends(c, entries, [], read, entries)
  {
    hide IsMade;
    assert entries[|entries|..] == [];
  }

  lemma ExtendsKnown(c: Catalog, entries: Entries, ref: Ref, rest: seq<Ref>, read: Ref -> string, loaded: Entries)
    requires ref in Keys(entries) && Extends(c, entries, rest, read, loaded)
    ensures Extends(c, entries, [ref] + rest, read, loaded)
  {
    hide IsMade;
    assert ([ref] + rest)[1..] == rest;
  }

  lemma {:induction false} LoadedInOrder(c: Catalog, entries: Entries, refs: seq<Ref>, read: Ref -> string)
    requires Unique(entries) && NoDuplicates(refs) && LoadAll(c, entries, refs, read).Ok?
    ensures Extends(c, entries, refs, read, LoadAll(c, entries, refs, read).value)
    decreases |refs|
  {
    hide IsMade, Extends, Without;
    if refs == [] {
      ExtendsNothing(c, entries, read);
    } else {
      var ref, rest := refs[0], refs[1..];
      var more := LoadStep(c, entries, refs, read);
      TailUnique(refs);
      hide LoadAll, NoDuplicates;
      assert refs == [ref] + rest;
      if ref in Keys(entries) {
        LoadedInOrder(c, entries, rest, read);
        ExtendsKnown(c, entries, ref, rest, read, LoadAll(c, entries, rest, read).value);
      } else {
        assert Keys(more) == Keys(entries) + [ref];
        NoDuplicatesAppend(Keys(entries), ref);
        LoadedInOrder(c, more, rest, read);
        ExtendsFurther(c, entries, more[|entries|], rest, read, LoadAll(c, more, rest, read).value);
      }
    }
  }

  lemma {:induction false} RemovedKeeps(entries: Entries, refs: seq<Ref>)
    ensures forall p :: p in RemoveAll(entries, refs) ==> p in entries
    decreases |refs|
  {
    if refs != [] {
      RemovedKeeps(Remove(entries, refs[0]), refs[1..]);
      forall p | p in Remove(entries, refs[0]) ensures p in entries { RemoveMembers(entries, refs[0], p); }
    }
  }

  /**
   * A selection leaves every entry it does not evict as it was and in its place, and adds what it newly loads behind them,
   * in the order it asked for, as selected entries unless the catalog makes them defaults.
   */
  lemma SelectedExactly(h: Heap, patch: Patch, read: Ref -> string)
    requires Good(h) && patch != Patch([], []) && NoDuplicates(patch.load) && Select(h, patch, read).Ok?
    ensures var left := Select(h, patch, read).value.entries;
            var kept := Without(Keys(h.entries), Elements(patch.evict));
            && Keys(left) == kept + Without(patch.load, Elements(kept))
            && (forall p :: p in left[..|kept|] ==> p in h.entries)
            && forall p :: p in left[|kept|..] ==> IsMade(h.catalog, p, read, Phase1)
  {
    var rest := RemoveAll(h.entries, patch.evict);
    RemovedAll(h.entries, patch.evict);
    KeysOfRemoveAll(h.entries, patch.evict);
    RemovedKeeps(h.entries, patch.evict);
    hide RemoveAll, Applicable, Projected, IsMade, NoDuplicates;
    LoadedInOrder(h.catalog, rest, patch.load, read);
    assert |Keys(rest)| == |rest|;
    var left := Select(h, patch, read).value.entries;
    assert left[..|rest|] == rest;
  }

  // ---------- Refreshing ----------

  lemma {:induction false} SelectedInOrder(c: Catalog, defaults: seq<Ref>, loaded: seq<Ref>, gone: set<Ref>)
    requires forall r :: r in loaded ==> (r in gone <==> r !in c.loadable || r in c.defaults)
    requires forall r :: r in defaults ==> r in c.loadable
    ensures Selected(c, defaults, loaded) == defaults + Without(loaded, gone)
    decreases |defaults|, |loaded|
  {
    if defaults != [] {
      SelectedInOrder(c, defaults[1..], loaded, gone);
      assert defaults == [defaults[0]] + defaults[1..];
    } else if loaded != [] {
      SelectedInOrder(c, [], loaded[1..], gone);
      assert [] + Without(loaded[1..], gone) == Without(loaded[1..], gone);
      assert [] + Without(loaded, gone) == Without(loaded, gone);
    }
  }

  lemma {:induction false} MadeExactly(c: Catalog, refs: seq<Ref>, before: Entries, read: Ref -> string)
    requires MakeAll(c, refs, before, read).Ok?
    ensures Keys(MakeAll(c, refs, before, read).value) == refs
    ensures forall p :: p in MakeAll(c, refs, before, read).value ==>
              IsMade(c, p, read, match Find(before, p.key) case Some(e) => e.source case None => Phase1)
  {
    if refs != [] {
      MadeExactly(c, refs[1..], before, read);
      var made := MakeAll(c, refs, before, read).value;
      assert Keys(made) == [made[0].key] + Keys(made[1..]);
    }
  }

  /**
   * A refresh reads everything again: the catalog's defaults first, in its order, then what else was loaded and still can
   * be, in the old order. What is no default keeps counting as coming from where it came from.
   */
  lemma RefreshedExactly(h: Heap, c: Catalog, read: Ref -> string)
    requires Good(h) && ValidCatalog(c) && Refreshed(h, c, read).Ok?
    ensures var now := Refreshed(h, c, read).value;
            var gone := set r | r in Keys(h.entries) && (r !in c.loadable || r in c.defaults);
            && now.catalog == c && Keys(now.entries) == c.defaults + Without(Keys(h.entries), gone)
            && forall p :: p in now.entries ==>
                 IsMade(c, p, read, match Find(h.entries, p.key) case Some(e) => e.source case None => Phase1)
  {
    var gone := set r | r in Keys(h.entries) && (r !in c.loadable || r in c.defaults);
    SelectedInOrder(c, c.defaults, Keys(h.entries), gone);
    MadeExactly(c, Selected(c, c.defaults, Keys(h.entries)), h.entries, read);
  }
}
