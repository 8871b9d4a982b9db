/** The reusable heap of background entries: refreshing, selecting, and what every reachable heap keeps. */
module BackgroundHeap {
  import opened Wrappers
  import opened Sequences
  import opened OrderedMap
  import opened BackgroundPatches

  datatype Source = Default | Automatic | Phase1

  datatype Entry = Entry(content: string, source: Source, owner: string, evictable: bool)

  type Entries = seq<Pair<Entry>>

  datatype Catalog = Catalog(owner: string, defaults: seq<Ref>, loadable: seq<Ref>, evictableDefaults: seq<Ref>)

  predicate ValidCatalog(c: Catalog) {
    && NoDuplicates(c.defaults) && NoDuplicates(c.loadable)
    && (forall r :: r in c.defaults ==> r in c.loadable)
    && forall r :: r in c.evictableDefaults ==> r in c.defaults
  }

  predicate Guarded(c: Catalog, ref: Ref) {
    ref in c.defaults && ref !in c.evictableDefaults
  }

  /** The defaults that are not evictable, in order. */
  function GuardedRefs(c: Catalog, defaults: seq<Ref>): (refs: seq<Ref>)
    ensures forall r :: r in refs <==> r in defaults && r !in c.evictableDefaults
  {
    if defaults == [] then []
    else (if defaults[0] in c.evictableDefaults then [] else [defaults[0]]) + GuardedRefs(c, defaults[1..])
  }

  function RulesOf(c: Catalog): Rules {
    Rules(c.loadable, GuardedRefs(c, c.defaults))
  }

  datatype Heap = Heap(catalog: Catalog, entries: Entries)

  datatype HeapError = EmptyContent | OwnerChanged | PatchProblem

  /** One update: perhaps a fresh catalog, a selection (which may be empty), and what the owner reads meanwhile. */
  datatype Update = Update(refresh: Option<Catalog>, patch: Patch, read: Ref -> string)

  function MakeEntry(c: Catalog, ref: Ref, content: string, previous: Option<Entry>): Outcome<Entry, HeapError> {
    if content == "" then Raised(EmptyContent)
    else if ref in c.defaults then
      var evictable := ref in c.evictableDefaults;
      Ok(Entry(content, if evictable then Automatic else Default, c.owner, evictable))
    else Ok(Entry(content, if previous.Some? then previous.value.source else Phase1, c.owner, true))
  }

  // ---------- Refreshing ----------

  /** The defaults, then the loaded refs that are not defaults, as far as they are still loadable. */
  function Selected(c: Catalog, defaults: seq<Ref>, loaded: seq<Ref>): seq<Ref> {
    if defaults != [] then (if defaults[0] in c.loadable then [defaults[0]] else []) + Selected(c, defaults[1..], loaded)
    else if loaded != [] then
      (if loaded[0] in c.loadable && loaded[0] !in c.defaults then [loaded[0]] else []) + Selected(c, [], loaded[1..])
    else []
  }

  function MakeAll(c: Catalog, refs: seq<Ref>, before: Entries, read: Ref -> string): Outcome<Entries, HeapError> {
    if refs == [] then Ok([])
    else
      match MakeEntry(c, refs[0], read(refs[0]), Find(before, refs[0]))
      case Raised(e) => Raised(e)
      case Ok(entry) =>
        match MakeAll(c, refs[1..], before, read)
        case Raised(e) => Raised(e)
        case Ok(rest) => Ok([Pair(refs[0], entry)] + rest)
  }

  function Refreshed(h: Heap, c: Catalog, read: Ref -> string): Outcome<Heap, HeapError> {
    if c.owner != h.catalog.owner then Raised(OwnerChanged)
    else
      match MakeAll(c, Selected(c, c.defaults, Keys(h.entries)), h.entries, read)
      case Raised(e) => Raised(e)
      case Ok(entries) => Ok(Heap(c, entries))
  }

  // ---------- Selecting ----------

  function RemoveAll(entries: Entries, refs: seq<Ref>): Entries
    decreases |refs|
  {
    if refs == [] then entries else RemoveAll(Remove(entries, refs[0]), refs[1..])
  }

  function LoadAll(c: Catalog, entries: Entries, refs: seq<Ref>, read: Ref -> string): Outcome<Entries, HeapError>
    decreases |refs|
  {
    if refs == [] then Ok(entries)
    else if refs[0] in Keys(entries) then LoadAll(c, entries, refs[1..], read)
    else
      match MakeEntry(c, refs[0], read(refs[0]), None)
      case Raised(e) => Raised(e)
      case Ok(entry) => LoadAll(c, entries + [Pair(refs[0], entry)], refs[1..], read)
  }

  function Select(h: Heap, patch: Patch, read: Ref -> string): Outcome<Heap, HeapError> {
    if patch == Patch([], []) then Ok(h)
    else if !Applicable(patch, Elements(Keys(h.entries)), RulesOf(h.catalog)) then Raised(PatchProblem)
    else
      match LoadAll(h.catalog, RemoveAll(h.entries, patch.evict), patch.load, read)
      case Raised(e) => Raised(e)
      case Ok(entries) => Ok(Heap(h.catalog, entries))
  }

  function ApplyUpdate(h: Heap, u: Update): Outcome<Heap, HeapError> {
    match if u.refresh.Some? then Refreshed(h, u.refresh.value, u.read) else Ok(h)
    case Raised(e) => Raised(e)
    case Ok(current) => Select(current, u.patch, u.read)
  }

  function Prepare(h: Heap, updates: seq<Update>): Outcome<Heap, HeapError>
    decreases |updates|
  {
    if updates == [] then Ok(h)
    else
      match ApplyUpdate(h, updates[0])
      case Raised(e) => Raised(e)
      case Ok(next) => Prepare(next, updates[1..])
  }

  /** A heap opens with the catalog's defaults. */
  function Open(c: Catalog, read: Ref -> string): Outcome<Heap, HeapError> {
    match MakeAll(c, c.defaults, [], read)
    case Raised(e) => Raised(e)
    case Ok(entries) => Ok(Heap(c, entries))
  }

  // ---------- What every heap keeps ----------

  predicate EntryFits(c: Catalog, p: Pair<Entry>) {
    && p.value.content != "" && p.value.owner == c.owner
    && p.key in c.loadable
    && (p.value.evictable <==> !Guarded(c, p.key))
    && (p.key in c.defaults ==> p.value.source == if p.value.evictable then Automatic else Default)
  }

  /** Guarded refs are loaded, loaded refs are loadable, and an entry can be evicted exactly when it is not guarded. */
  ghost predicate Good(h: Heap) {
    && ValidCatalog(h.catalog) && Unique(h.entries)
    && (forall r :: Guarded(h.catalog, r) ==> r in Keys(h.entries))
    && (forall p :: p in h.entries ==> EntryFits(h.catalog, p))
  }

  lemma {:induction false} MadeAll(c: Catalog, refs: seq<Ref>, before: Entries, read: Ref -> string)
    requires forall r :: r in refs ==> r in c.loadable
    ensures MakeAll(c, refs, before, read).Ok? <==> forall r :: r in refs ==> read(r) != ""
    ensures MakeAll(c, refs, before, read).Ok? ==>
              var made := MakeAll(c, refs, before, read).value;
              Keys(made) == refs && forall p :: p in made ==> EntryFits(c, p)
  {
    if refs != [] {
      MadeAll(c, refs[1..], before, read);
      assert refs == [refs[0]] + refs[1..];
      if MakeAll(c, refs, before, read).Ok? {
        var made := MakeAll(c, refs, before, read).value;
        assert made == [made[0]] + made[1..];
        assert Keys(made) == [made[0].key] + Keys(made[1..]);
      }
    }
  }

  /** A heap opens good, whenever every default has content. */
  lemma OpenIsGood(c: Catalog, read: Ref -> string)
    requires ValidCatalog(c)
    ensures Open(c, read).Ok? <==> forall r :: r in c.defaults ==> read(r) != ""
    ensures Open(c, read).Ok? ==> Good(Open(c, read).value)
  {
    MadeAll(c, c.defaults, [], read);
  }

  lemma {:induction false} SelectedRefs(c: Catalog, defaults: seq<Ref>, loaded: seq<Ref>)
    requires NoDuplicates(defaults) && NoDuplicates(loaded) && forall r :: r in defaults ==> r in c.defaults
    ensures NoDuplicates(Selected(c, defaults, loaded))
    ensures forall r :: r in Selected(c, defaults, loaded) <==>
              r in c.loadable && (r in defaults || (r in loaded && r !in c.defaults))
    decreases |defaults|, |loaded|
  {
    if defaults != [] {
      TailUnique(defaults);
      assert defaults == [defaults[0]] + defaults[1..];
      SelectedRefs(c, defaults[1..], loaded);
      SelectedOne(c, defaults[0], Selected(c, defaults[1..], loaded), defaults[0] in c.loadable);
    } else if loaded != [] {
      TailUnique(loaded);
      assert loaded == [loaded[0]] + loaded[1..];
      SelectedRefs(c, [], loaded[1..]);
      SelectedOne(c, loaded[0], Selected(c, [], loaded[1..]), loaded[0] in c.loadable && loaded[0] !in c.defaults);
    }
  }

  lemma SelectedOne(c: Catalog, first: Ref, rest: seq<Ref>, taken: bool)
    requires NoDuplicates(rest) && (taken ==> first !in rest)
    ensures NoDuplicates((if taken then [first] else []) + rest)
    ensures forall r :: r in (if taken then [first] else []) + rest <==> (taken && r == first) || r in rest
  {
    assert [] + rest == rest;
  }

  lemma RefreshKeeps(h: Heap, c: Catalog, read: Ref -> string)
    requires Good(h) && ValidCatalog(c) && Refreshed(h, c, read).Ok?
    ensures Good(Refreshed(h, c, read).value)
  {
    var refs := Selected(c, c.defaults, Keys(h.entries));
    SelectedRefs(c, c.defaults, Keys(h.entries));
    MadeAll(c, refs, h.entries, read);
  }

  lemma {:induction false} RemovedAll(entries: Entries, refs: seq<Ref>)
    requires Unique(entries)
    ensures var r := RemoveAll(entries, refs);
            && Unique(r) && (forall k :: k in Keys(r) <==> k in Keys(entries) && k !in refs)
            && (forall p :: p in r ==> p in entries)
    decreases |refs|
  {
    if refs != [] {
      FindRemove(entries, refs[0], refs[0]);
      RemovedAll(Remove(entries, refs[0]), refs[1..]);
      assert refs == [refs[0]] + refs[1..];
      forall p | p in Remove(entries, refs[0]) ensures p in entries { RemoveMembers(entries, refs[0], p); }
    }
  }

  lemma {:induction false} LoadedAll(c: Catalog, entries: Entries, refs: seq<Ref>, read: Ref -> string)
    requires Unique(entries) && (forall p :: p in entries ==> EntryFits(c, p)) && forall r :: r in refs ==> r in c.loadable
    ensures LoadAll(c, entries, refs, read).Ok? <==> forall r :: r in refs && r !in Keys(entries) ==> read(r) != ""
    ensures LoadAll(c, entries, refs, read).Ok? ==>
              var loaded := LoadAll(c, entries, refs, read).value;
              && Unique(loaded) && (forall p :: p in loaded ==> EntryFits(c, p))
              && forall k :: k in Keys(loaded) <==> k in Keys(entries) || k in refs
    decreases |refs|
  {
    if refs != [] {
      var ref := refs[0];
      assert refs == [ref] + refs[1..];
      if ref in Keys(entries) {
        LoadedAll(c, entries, refs[1..], read);
      } else if read(ref) != "" {
        var entry := MakeEntry(c, ref, read(ref), None).value;
        var more := entries + [Pair(ref, entry)];
        assert Keys(more) == Keys(entries) + [ref];
        NoDuplicatesAppend(Keys(entries), ref);
        LoadedAll(c, more, refs[1..], read);
      }
    }
  }

  /** The refs among `refs` that a selection has to read: the ones that were not loaded. */
  predicate ReadsContent(h: Heap, patch: Patch, read: Ref -> string) {
    forall r :: r in patch.load && r !in Keys(h.entries) ==> read(r) != ""
  }

  /**
   * A selection the check passes is applied without fail as long as what it newly loads has content, and leaves exactly
   * the refs the check projected.
   */
  lemma SelectKeeps(h: Heap, patch: Patch, read: Ref -> string)
    requires Good(h)
    ensures Select(h, patch, read).Ok? ==> Good(Select(h, patch, read).value) && Select(h, patch, read).value.catalog == h.catalog
    ensures Applicable(patch, Elements(Keys(h.entries)), RulesOf(h.catalog)) ==>
              && (Select(h, patch, read).Ok? <==> ReadsContent(h, patch, read))
              && (Select(h, patch, read).Ok? ==>
                    Elements(Keys(Select(h, patch, read).value.entries)) == Projected(patch, Elements(Keys(h.entries))))
  {
    if Applicable(patch, Elements(Keys(h.entries)), RulesOf(h.catalog)) {
      var rest := RemoveAll(h.entries, patch.evict);
      RemovedAll(h.entries, patch.evict);
      LoadedAll(h.catalog, rest, patch.load, read);
      assert forall r :: r in patch.load ==> (r in Keys(rest) <==> r in Keys(h.entries));
      if Select(h, patch, read).Ok? {
        var loaded := Select(h, patch, read).value.entries;
        assert Elements(Keys(loaded)) == Projected(patch, Elements(Keys(h.entries)));
      }
    }
  }

  ghost predicate ValidUpdate(u: Update) {
    u.refresh.Some? ==> ValidCatalog(u.refresh.value)
  }

  lemma UpdateKeeps(h: Heap, u: Update)
    requires Good(h) && ValidUpdate(u)
    ensures ApplyUpdate(h, u).Ok? ==> Good(ApplyUpdate(h, u).value)
  {
    hide Good, Refreshed, Select;
    if u.refresh.Some? {
      if Refreshed(h, u.refresh.value, u.read).Ok? {
        RefreshKeeps(h, u.refresh.value, u.read);
        SelectKeeps(Refreshed(h, u.refresh.value, u.read).value, u.patch, u.read);
      }
    } else {
      SelectKeeps(h, u.patch, u.read);
    }
  }

  lemma {:induction false} PrepareKeeps(h: Heap, updates: seq<Update>)
    requires Good(h) && forall u :: u in updates ==> ValidUpdate(u)
    ensures Prepare(h, updates).Ok? ==> Good(Prepare(h, updates).value)
    decreases |updates|
  {
    if updates != [] {
      UpdateKeeps(h, updates[0]);
      if ApplyUpdate(h, updates[0]).Ok? { PrepareKeeps(ApplyUpdate(h, updates[0]).value, updates[1..]); }
    }
  }

  // ---------- Checking predicts applying ----------

  function Selections(patches: seq<Patch>, read: Ref -> string): seq<Update> {
    seq(|patches|, i requires 0 <= i < |patches| => Update(None, patches[i], read))
  }

  lemma {:induction false} PrepareLast(h: Heap, updates: seq<Update>, last: Update)
    ensures Prepare(h, updates + [last]) ==
            (match Prepare(h, updates) case Ok(t) => ApplyUpdate(t, last) case Raised(e) => Raised(e))
    decreases |updates|
  {
    if updates == [] {
      assert updates + [last] == [last] && [last][1..] == [];
    } else {
      assert (updates + [last])[1..] == updates[1..] + [last];
      if ApplyUpdate(h, updates[0]).Ok? { PrepareLast(ApplyUpdate(h, updates[0]).value, updates[1..], last); }
    }
  }

  /**
   * For every batch of requests: applying exactly the ones the check passes never fails while the owner can read what is
   * loadable, keeps the catalog, and ends with the refs the check projected.
   */
  lemma {:induction false} CheckPredictsPrepare(h: Heap, patches: seq<Patch>, read: Ref -> string)
    requires Good(h) && forall r :: r in h.catalog.loadable ==> read(r) != ""
    ensures var loaded, rules := Elements(Keys(h.entries)), RulesOf(h.catalog);
            var prepared := Prepare(h, Selections(Passing(loaded, rules, patches), read));
            && prepared.Ok? && Good(prepared.value) && prepared.value.catalog == h.catalog
            && Elements(Keys(prepared.value.entries)) == LoadedAfter(loaded, rules, patches)
    decreases |patches|
  {
    hide Good, Applicable, Projected, Select;
    var loaded, rules := Elements(Keys(h.entries)), RulesOf(h.catalog);
    if patches != [] {
      var n := |patches| - 1;
      CheckPredictsPrepare(h, patches[..n], read);
      var passing := Passing(loaded, rules, patches[..n]);
      var before := Prepare(h, Selections(passing, read)).value;
      var p := patches[n];
      if Applicable(p, LoadedAfter(loaded, rules, patches[..n]), rules) {
        assert Selections(passing + [p], read) == Selections(passing, read) + [Update(None, p, read)];
        PrepareLast(h, Selections(passing, read), Update(None, p, read));
        SelectKeeps(before, p, read);
        assert ReadsContent(before, p, read) by { LoadsAreReadable(p, LoadedAfter(loaded, rules, patches[..n]), rules, read); }
      } else {
        assert passing + [] == passing;
      }
    }
  }

  lemma LoadsAreReadable(p: Patch, loaded: set<Ref>, rules: Rules, read: Ref -> string)
    requires Applicable(p, loaded, rules) && forall r :: r in rules.available ==> read(r) != ""
    ensures forall r :: r in p.load ==> read(r) != ""
  {
  }
}
