/** Checking load and evict requests against the refs that earlier requests of the same batch would leave loaded. */
module BackgroundPatches {
  import opened Wrappers
  import opened Sequences

  type Ref = string

  datatype Patch = Patch(load: seq<Ref>, evict: seq<Ref>)

  datatype Problem =
    | DuplicateLoad(ref: Ref)
    | DuplicateEvict(ref: Ref)
    | Conflict(ref: Ref)
    | NoRefs
    | UnknownRef(ref: Ref)
    | NotLoaded(ref: Ref)
    | NotEvictable(ref: Ref)

  /** What may be loaded, and what must not be evicted. */
  datatype Rules = Rules(available: seq<Ref>, guarded: seq<Ref>)

  predicate MayEvict(rules: Rules, ref: Ref) {
    ref in rules.available && ref !in rules.guarded
  }

  predicate Applicable(p: Patch, loaded: set<Ref>, rules: Rules) {
    && NoDuplicates(p.load) && NoDuplicates(p.evict)
    && (forall r :: r in p.load ==> r !in p.evict)
    && (p.load != [] || p.evict != [])
    && (forall r :: r in p.load ==> r in rules.available)
    && (forall r :: r in p.evict ==> r in loaded && MayEvict(rules, r))
  }

  function Projected(p: Patch, loaded: set<Ref>): set<Ref> {
    loaded - Elements(p.evict) + Elements(p.load)
  }

  /** A problem is a true reason why the patch cannot be applied. */
  predicate Justified(problem: Problem, p: Patch, loaded: set<Ref>, rules: Rules) {
    match problem
    case DuplicateLoad(r) => r in p.load && !NoDuplicates(p.load)
    case DuplicateEvict(r) => r in p.evict && !NoDuplicates(p.evict)
    case Conflict(r) => r in p.load && r in p.evict
    case NoRefs => p == Patch([], [])
    case UnknownRef(r) => r in p.load && r !in rules.available
    case NotLoaded(r) => r in p.evict && r !in loaded
    case NotEvictable(r) => r in p.evict && !MayEvict(rules, r)
  }

  method FirstDuplicate(refs: seq<Ref>) returns (r: Option<Ref>)
    ensures r.None? <==> NoDuplicates(refs)
    ensures r.Some? ==> r.value in refs
  {
    var seen: set<Ref> := {};
    for i := 0 to |refs|
      invariant seen == Elements(refs[..i]) && NoDuplicates(refs[..i])
    {
      assert refs[..i + 1] == refs[..i] + [refs[i]];
      NoDuplicatesAppend(refs[..i], refs[i]);
      if refs[i] in seen {
        assert !NoDuplicates(refs[..i + 1]);
        return Some(refs[i]);
      }
      seen := seen + {refs[i]};
    }
    assert refs[..|refs|] == refs;
    return None;
  }

  /** One patch against the loaded refs: a problem, or the refs loaded afterwards. */
  method CheckPatch(p: Patch, loaded: set<Ref>, rules: Rules) returns (problem: Option<Problem>, after: set<Ref>)
    ensures problem.None? <==> Applicable(p, loaded, rules)
    ensures problem.None? ==> after == Projected(p, loaded)
    ensures problem.Some? ==> Justified(problem.value, p, loaded, rules)
  {
    after := loaded;
    var duplicate := FirstDuplicate(p.load);
    if duplicate.Some? {
      return Some(DuplicateLoad(duplicate.value)), after;
    }
    duplicate := FirstDuplicate(p.evict);
    if duplicate.Some? {
      return Some(DuplicateEvict(duplicate.value)), after;
    }
    for i := 0 to |p.load|
      invariant forall r :: r in p.load[..i] ==> r !in p.evict
    {
      assert p.load[..i + 1] == p.load[..i] + [p.load[i]];
      if p.load[i] in p.evict {
        return Some(Conflict(p.load[i])), after;
      }
    }
    assert p.load[..|p.load|] == p.load;
    if p.load == [] && p.evict == [] {
      return Some(NoRefs), after;
    }
    for i := 0 to |p.load|
      invariant forall r :: r in p.load[..i] ==> r in rules.available
    {
      assert p.load[..i + 1] == p.load[..i] + [p.load[i]];
      if p.load[i] !in rules.available {
        return Some(UnknownRef(p.load[i])), after;
      }
    }
    for i := 0 to |p.evict|
      invariant after == loaded - Elements(p.evict[..i])
      invariant forall r :: r in p.evict[..i] ==> r in loaded && MayEvict(rules, r)
    {
      var r := p.evict[i];
      assert p.evict[..i + 1] == p.evict[..i] + [r];
      NoDuplicatesAppend(p.evict[..i], r);
      NotBefore(p.evict, i);
      if r !in after {
        return Some(NotLoaded(r)), after;
      }
      if !MayEvict(rules, r) {
        return Some(NotEvictable(r)), after;
      }
      after := after - {r};
    }
    assert p.evict[..|p.evict|] == p.evict;
    after := after + Elements(p.load);
    return None, after;
  }

  lemma NotBefore(refs: seq<Ref>, i: nat)
    requires i < |refs| && NoDuplicates(refs)
    ensures refs[i] !in refs[..i]
  {
  }

  // ---------- A batch of patches ----------

  /** The refs loaded once the applicable patches of a batch are applied in order. */
  function LoadedAfter(loaded: set<Ref>, rules: Rules, patches: seq<Patch>): set<Ref> {
    if patches == [] then loaded
    else
      var n := |patches| - 1;
      var before := LoadedAfter(loaded, rules, patches[..n]);
      if Applicable(patches[n], before, rules) then Projected(patches[n], before) else before
  }

  /** The patches of a batch that pass, in order. */
  function Passing(loaded: set<Ref>, rules: Rules, patches: seq<Patch>): seq<Patch> {
    if patches == [] then []
    else
      var n := |patches| - 1;
      Passing(loaded, rules, patches[..n])
      + if Applicable(patches[n], LoadedAfter(loaded, rules, patches[..n]), rules) then [patches[n]] else []
  }

  /** The verdict on the patch at `i`, given what the passing ones before it leave loaded. */
  predicate Judged(loaded: set<Ref>, rules: Rules, patches: seq<Patch>, i: nat, problem: Option<Problem>)
    requires i < |patches|
  {
    var before := LoadedAfter(loaded, rules, patches[..i]);
    && (problem.None? <==> Applicable(patches[i], before, rules))
    && (problem.Some? ==> Justified(problem.value, patches[i], before, rules))
  }

  lemma LoadedNext(loaded: set<Ref>, rules: Rules, patches: seq<Patch>, i: nat)
    requires i < |patches|
    ensures var before := LoadedAfter(loaded, rules, patches[..i]);
            LoadedAfter(loaded, rules, patches[..i + 1]) ==
              if Applicable(patches[i], before, rules) then Projected(patches[i], before) else before
  {
    hide Applicable, Projected;
    assert patches[..i + 1][..i] == patches[..i];
  }

  /** Each patch is judged against what the passing ones before it leave loaded. */
  method CheckPatches(loaded: seq<Ref>, rules: Rules, patches: seq<Patch>) returns (problems: seq<Option<Problem>>)
    ensures |problems| == |patches|
    ensures forall i :: 0 <= i < |patches| ==> Judged(Elements(loaded), rules, patches, i, problems[i])
  {
    hide Applicable, Projected, Justified, LoadedAfter;
    var now := set r | r in loaded;
    problems := [];
    assert LoadedAfter(Elements(loaded), rules, patches[..0]) == now by { NothingYet(Elements(loaded), rules, patches); }
    for i := 0 to |patches|
      invariant |problems| == i && now == LoadedAfter(Elements(loaded), rules, patches[..i])
      invariant forall j :: 0 <= j < i ==> Judged(Elements(loaded), rules, patches, j, problems[j])
    {
      LoadedNext(Elements(loaded), rules, patches, i);
      var problem, after := CheckPatch(patches[i], now, rules);
      assert Judged(Elements(loaded), rules, patches, i, problem);
      problems := problems + [problem];
      if problem.None? {
        now := after;
      }
    }
  }

  lemma NothingYet(loaded: set<Ref>, rules: Rules, patches: seq<Patch>)
    ensures LoadedAfter(loaded, rules, patches[..0]) == loaded
  {
  }
}
