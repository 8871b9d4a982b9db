/**
 * The embedding cache of one provider space: which texts still have to be embedded, what is kept on disk, and why a
 * cached answer is the answer a fresh embedding would give.
 */
module EmbeddingCache {
  import opened Wrappers
  import opened Sequences
  import opened OrderedMap
  import opened EmbeddingResponse
  import opened EmbeddingFile

  type Cached = seq<Pair<Vector>>

  /** The provider, the digest and the similarity, as functions, and the text `repr` writes for a number. */
  datatype Model = Model(embed: string -> Vector, digest: string -> string, cosine: (Vector, Vector) -> real, dimensions: nat,
                         repr: string -> string)

  /** Entries stored under their own digest and of the right dimension. */
  function Trusted(loaded: seq<Pair<Stored>>, dimensions: nat): Cached {
    if loaded == [] then []
    else
      var e := loaded[0];
      (if e.key == e.value.digest && |e.value.vector| == dimensions then [Pair(e.key, e.value.vector)] else [])
      + Trusted(loaded[1..], dimensions)
  }

  /** A loaded entry is trusted exactly when it is stored under its own digest and has the right dimension. */
  lemma {:induction false} TrustedExactly(loaded: seq<Pair<Stored>>, dimensions: nat, p: Pair<Vector>)
    ensures p in Trusted(loaded, dimensions) <==> Pair(p.key, Stored(p.key, p.value)) in loaded && |p.value| == dimensions
  {
    if loaded != [] {
      TrustedExactly(loaded[1..], dimensions, p);
      assert loaded == [loaded[0]] + loaded[1..];
    }
  }

  // ---------- One call ----------

  function TextsOf(digest: string -> string, documents: seq<Pair<string>>): seq<Pair<string>> {
    if documents == [] then []
    else
      var n := |documents| - 1;
      Assign(TextsOf(digest, documents[..n]), digest(documents[n].value), documents[n].value)
  }

  function Missing(texts: seq<Pair<string>>, cached: Cached): seq<Pair<string>> {
    if texts == [] then []
    else (if texts[0].key in Keys(cached) then [] else [texts[0]]) + Missing(texts[1..], cached)
  }

  function Embedded(embed: string -> Vector, texts: seq<Pair<string>>): Cached {
    seq(|texts|, i requires 0 <= i < |texts| => Pair(texts[i].key, embed(texts[i].value)))
  }

  /** The texts of this call become the most recent entries, in their own order. */
  function Touched(cached: Cached, texts: seq<Pair<string>>): Cached
    decreases |texts|
  {
    if texts == [] then cached
    else
      var found := Find(cached, texts[0].key);
      Touched(if found.Some? then Remove(cached, texts[0].key) + [Pair(texts[0].key, found.value)] else cached, texts[1..])
  }

  // ---------- What is kept ----------

  function Size(e: Pair<Vector>): nat {
    |EntryText(e.key, Stored(e.key, e.value))| + 2
  }

  function Used(kept: Cached): nat {
    if kept == [] then 2 else Used(kept[1..]) + Size(kept[0])
  }

  /** From the most recent back, whatever still fits. */
  function Kept(maxChars: nat, cached: Cached): Cached {
    if cached == [] then []
    else
      var newer := Kept(maxChars, cached[1..]);
      if Used(newer) + Size(cached[0]) > maxChars then newer else [cached[0]] + newer
  }

  function ToStored(cached: Cached): seq<Pair<Stored>> {
    seq(|cached|, i requires 0 <= i < |cached| => Pair(cached[i].key, Stored(cached[i].key, cached[i].value)))
  }

  function Written(maxChars: nat, cached: Cached): string {
    FileText(ToStored(Kept(maxChars, cached)))
  }

  lemma CommasSum(texts: seq<string>)
    ensures texts != [] ==> |Commas(texts)| == Sum(texts) + |texts| - 1
    ensures |Commas(texts)| <= Sum(texts) + |texts|
  {
    if |texts| > 1 { CommasSum(texts[1..]); }
  }

  function Sum(texts: seq<string>): nat {
    if texts == [] then 0 else |texts[0]| + Sum(texts[1..])
  }

  lemma {:induction false} UsedBoundsText(kept: Cached)
    ensures |FileText(ToStored(kept))| <= Used(kept)
    ensures Sum(EntryTexts(ToStored(kept))) + 2 * |kept| + 2 == Used(kept)
  {
    hide EntryText;
    var texts := EntryTexts(ToStored(kept));
    CommasSum(texts);
    if kept != [] {
      UsedBoundsText(kept[1..]);
      assert texts[1..] == EntryTexts(ToStored(kept[1..]));
    }
  }

  /** What is kept is in recency order and within the budget. */
  lemma {:induction false} KeptWithinBudget(maxChars: nat, cached: Cached)
    ensures IsSublist(Kept(maxChars, cached), cached)
    ensures Kept(maxChars, cached) != [] ==> Used(Kept(maxChars, cached)) <= maxChars
  {
    hide Size;
    if cached != [] {
      KeptWithinBudget(maxChars, cached[1..]);
      var newer := Kept(maxChars, cached[1..]);
      assert cached == [cached[0]] + cached[1..];
      if Used(newer) + Size(cached[0]) > maxChars {
        WidenSublist(newer, cached[0], cached[1..]);
      } else {
        assert ([cached[0]] + newer)[1..] == newer;
      }
    }
  }

  lemma FirstDropped(maxChars: nat, cached: Cached)
    requires Unique(cached) && cached != []
    ensures cached[0] in Kept(maxChars, cached) <==> Used(Kept(maxChars, cached[1..])) + Size(cached[0]) <= maxChars
  {
    hide Unique, Size;
    var newer := Kept(maxChars, cached[1..]);
    KeptWithinBudget(maxChars, cached[1..]);
    UniqueTail(cached);
    if cached[0] in newer {
      SublistMember(newer, cached[1..], cached[0]);
      MemberKey(cached[1..], cached[0]);
    }
  }

  lemma KeptSuffix(maxChars: nat, cached: Cached)
    requires cached != []
    ensures var kept, newer := Kept(maxChars, cached), Kept(maxChars, cached[1..]);
            kept == newer || kept == [cached[0]] + newer
  {
  }

  /** An entry is left out exactly when it does not fit on top of everything more recent that was kept. */
  lemma {:induction false} DroppedOnlyWithoutRoom(maxChars: nat, cached: Cached, i: nat)
    requires Unique(cached) && i < |cached|
    ensures var kept, newer := Kept(maxChars, cached), Kept(maxChars, cached[i + 1..]);
            && |newer| <= |kept| && kept[|kept| - |newer|..] == newer
            && (cached[i] in kept <==> Used(newer) + Size(cached[i]) <= maxChars)
    decreases i
  {
    hide Kept, Used, Size, Unique;
    KeptSuffix(maxChars, cached);
    if i == 0 {
      FirstDropped(maxChars, cached);
    } else {
      UniqueTail(cached);
      DroppedOnlyWithoutRoom(maxChars, cached[1..], i - 1);
      assert cached[1..][i..] == cached[i + 1..] && cached[1..][i - 1] == cached[i];
      assert Keys(cached[1..])[i - 1] == cached[i].key && Keys(cached[1..])[i - 1] in Keys(cached[1..]);
      assert cached[i] != cached[0];
    }
  }

  lemma {:induction false} KeptIsWritable(repr: string -> string, cached: Cached)
    requires Unique(cached) && forall e :: e in cached ==> e.value != [] && AllComponents(repr, e.value)
    ensures Writable(repr, ToStored(cached))
  {
    hide AllComponents;
    var stored := ToStored(cached);
    assert Keys(stored) == Keys(cached);
    forall e | e in stored ensures e.value.vector != [] && AllComponents(repr, e.value.vector) {
      var i :| 0 <= i < |stored| && stored[i] == e;
      assert cached[i] in cached;
    }
  }

  /** The written file never exceeds the budget, so the next load reads the very entries back from its text. */
  lemma WrittenIsLoaded(repr: string -> string, maxChars: nat, cached: Cached)
    requires maxChars >= 2 && Unique(cached)
    requires forall e :: e in cached ==> e.value != [] && AllComponents(repr, e.value)
    ensures |Written(maxChars, cached)| <= maxChars
    ensures Load(repr, maxChars, Some(Written(maxChars, cached))) == ToStored(Kept(maxChars, cached))
  {
    hide Used, FileText, Load, AllComponents, Unique;
    KeptWithinBudget(maxChars, cached);
    var kept := Kept(maxChars, cached);
    FindInSublist(kept, cached, "");
    forall e | e in kept ensures e in cached { SublistMember(kept, cached, e); }
    KeptIsWritable(repr, kept);
    UsedBoundsText(kept);
    UsedNothing();
    FileReadsBack(repr, maxChars, ToStored(kept));
  }

  lemma UsedNothing()
    ensures Used([]) == 2
  {
  }

  // ---------- A cached vector is the fresh one ----------

  /** A vector of the model's dimension, each component the text of a finite float. */
  predicate Fits(m: Model, v: Vector) {
    |v| == m.dimensions && AllComponents(m.repr, v)
  }

  /** Whatever the cache holds for one of these texts is what embedding it gives. */
  ghost predicate Sound(m: Model, universe: set<string>, cached: Cached) {
    && Unique(cached)
    && (forall e :: e in cached ==> Fits(m, e.value))
    && forall t :: t in universe && Find(cached, m.digest(t)).Some? ==> Find(cached, m.digest(t)).value == m.embed(t)
  }

  /** The digest tells these texts apart, and the provider gives every text a finite vector of its dimension. */
  ghost predicate Faithful(m: Model, universe: set<string>) {
    && (forall a, b :: a in universe && b in universe && m.digest(a) == m.digest(b) ==> a == b)
    && m.dimensions > 0 && forall t :: Fits(m, m.embed(t))
  }

  predicate Covers(universe: set<string>, documents: seq<Pair<string>>) {
    forall d :: d in documents ==> d.value in universe
  }

  /** The texts of a call, each under its digest. */
  ghost predicate Digested(m: Model, universe: set<string>, texts: seq<Pair<string>>) {
    Unique(texts) && forall p :: p in texts ==> p.value in universe && p.key == m.digest(p.value)
  }

  lemma {:induction false} TextsAreDigested(m: Model, universe: set<string>, documents: seq<Pair<string>>)
    requires Covers(universe, documents)
    ensures Digested(m, universe, TextsOf(m.digest, documents))
    ensures forall d :: d in documents ==> m.digest(d.value) in Keys(TextsOf(m.digest, documents))
    ensures forall p :: p in TextsOf(m.digest, documents) ==> exists d :: d in documents && d.value == p.value
    decreases |documents|
  {
    if documents != [] {
      var n := |documents| - 1;
      var d, before := documents[n], TextsOf(m.digest, documents[..n]);
      assert documents == documents[..n] + [d];
      TextsAreDigested(m, universe, documents[..n]);
      AssignKeys(before, m.digest(d.value), d.value);
      NoDuplicatesAppend(Keys(before), m.digest(d.value));
      MembersOfAssign(before, m.digest(d.value), d.value);
    }
  }

  lemma {:induction false} MissingIsTheRest(texts: seq<Pair<string>>, cached: Cached)
    requires Unique(texts)
    ensures Unique(Missing(texts, cached))
    ensures forall p :: p in Missing(texts, cached) <==> p in texts && p.key !in Keys(cached)
    ensures forall k :: k in Keys(Missing(texts, cached)) <==> k in Keys(texts) && k !in Keys(cached)
  {
    if texts != [] {
      UniqueTail(texts);
      assert Keys(texts) == [texts[0].key] + Keys(texts[1..]);
      var rest := Missing(texts[1..], cached);
      MissingIsTheRest(texts[1..], cached);
      if texts[0].key !in Keys(cached) {
        UniqueCons(texts[0], rest);
        assert Keys([texts[0]] + rest) == [texts[0].key] + Keys(rest);
      } else {
        assert Missing(texts, cached) == [] + rest == rest;
      }
    }
  }

  lemma FindEmbedded(m: Model, universe: set<string>, texts: seq<Pair<string>>, t: string)
    requires Faithful(m, universe) && Digested(m, universe, texts) && t in universe
    ensures Keys(Embedded(m.embed, texts)) == Keys(texts)
    ensures Find(Embedded(m.embed, texts), m.digest(t)) == if m.digest(t) in Keys(texts) then Some(m.embed(t)) else None
  {
    var e := Embedded(m.embed, texts);
    assert Keys(e) == Keys(texts);
    FindIsKey(e, m.digest(t));
    if m.digest(t) in Keys(texts) {
      var i :| 0 <= i < |texts| && Keys(texts)[i] == m.digest(t);
      FindAt(e, i);
      assert texts[i] in texts;
    }
  }

  /** After the missing texts are embedded, the cache is sound and holds every text of the call. */
  lemma FilledIsSound(m: Model, universe: set<string>, cached: Cached, texts: seq<Pair<string>>)
    requires Faithful(m, universe) && Sound(m, universe, cached) && Digested(m, universe, texts)
    ensures var filled := cached + Embedded(m.embed, Missing(texts, cached));
            Sound(m, universe, filled) && forall k :: k in Keys(texts) ==> k in Keys(filled)
  {
    var missing := Missing(texts, cached);
    MissingIsTheRest(texts, cached);
    var more := Embedded(m.embed, missing);
    assert Keys(more) == Keys(missing);
    UniqueAppend(cached, more);
    assert Keys(cached + more) == Keys(cached) + Keys(more);
    forall t | t in universe && Find(cached + more, m.digest(t)).Some?
      ensures Find(cached + more, m.digest(t)).value == m.embed(t)
    {
      FindAppend(cached, more, m.digest(t));
      FindEmbedded(m, universe, missing, t);
    }
    EmbeddedFits(m, universe, missing);
  }

  lemma EmbeddedFits(m: Model, universe: set<string>, texts: seq<Pair<string>>)
    requires Faithful(m, universe)
    ensures forall e :: e in Embedded(m.embed, texts) ==> Fits(m, e.value)
  {
    hide Fits;
    var embedded := Embedded(m.embed, texts);
    forall e | e in embedded ensures Fits(m, e.value) {
      var i :| 0 <= i < |embedded| && embedded[i] == e;
      assert e.value == m.embed(texts[i].value);
    }
  }

  lemma TouchOne(m: Model, universe: set<string>, cached: Cached, key: string)
    requires Sound(m, universe, cached) && key in Keys(cached)
    ensures Find(cached, key).Some?
    ensures var touched := Remove(cached, key) + [Pair(key, Find(cached, key).value)];
            && Sound(m, universe, touched)
            && (forall k :: k in Keys(touched) <==> k in Keys(cached))
            && forall k :: Find(touched, k) == Find(cached, k)
  {
    FindIsKey(cached, key);
    var rest, last := Remove(cached, key), [Pair(key, Find(cached, key).value)];
    FindRemove(cached, key, key);
    assert Keys(last) == [key];
    UniqueAppend(rest, last);
    assert Keys(rest + last) == Keys(rest) + Keys(last);
    forall k ensures Find(rest + last, k) == Find(cached, k) {
      FindRemove(cached, key, k);
      FindAppend(rest, last, k);
      assert last[1..] == [];
    }
    forall e | e in rest + last ensures Fits(m, e.value) {
      if e in rest { RemoveMembers(cached, key, e); } else { FoundIsMember(cached, key); }
    }
  }

  lemma {:induction false} WithoutConcat(a: seq<string>, b: seq<string>, dropped: set<string>)
    ensures Without(a + b, dropped) == Without(a, dropped) + Without(b, dropped)
  {
    if a == [] {
      assert a + b == b;
    } else {
      assert (a + b)[1..] == a[1..] + b;
      WithoutConcat(a[1..], b, dropped);
    }
  }

  lemma {:induction false} WithoutTwice(keys: seq<string>, first: set<string>, second: set<string>)
    ensures Without(Without(keys, first), second) == Without(keys, first + second)
  {
    if keys != [] {
      WithoutTwice(keys[1..], first, second);
      WithoutConcat(if keys[0] in first then [] else [keys[0]], Without(keys[1..], first), second);
    }
  }

  lemma {:induction false} RemoveKey<V>(cached: seq<Pair<V>>, key: string)
    requires Unique(cached)
    ensures Keys(Remove(cached, key)) == Without(Keys(cached), {key})
  {
    if cached != [] {
      UniqueTail(cached);
      assert Keys(cached) == [cached[0].key] + Keys(cached[1..]);
      assert Keys(cached)[1..] == Keys(cached[1..]);
      if cached[0].key == key {
        WithoutNothing(Keys(cached[1..]), {key});
      } else {
        RemoveKey(cached[1..], key);
        assert Keys(Remove(cached, key)) == [cached[0].key] + Keys(Remove(cached[1..], key));
      }
    }
  }

  lemma MoveOrder(keys: seq<string>, key: string, rest: seq<string>)
    requires key !in rest
    ensures Without(Without(keys, {key}) + [key], Elements(rest)) + rest == Without(keys, Elements([key] + rest)) + ([key] + rest)
  {
    var dropped := Elements(rest);
    WithoutConcat(Without(keys, {key}), [key], dropped);
    WithoutNothing([key], dropped);
    WithoutTwice(keys, {key}, dropped);
    assert {key} + dropped == Elements([key] + rest);
  }

  lemma MoveOne(cached: Cached, key: string)
    requires Unique(cached) && key in Keys(cached)
    ensures Find(cached, key).Some?
    ensures var moved := Remove(cached, key) + [Pair(key, Find(cached, key).value)];
            && Unique(moved) && Keys(moved) == Without(Keys(cached), {key}) + [key]
            && forall k :: k in Keys(moved) <==> k in Keys(cached)
  {
    FindIsKey(cached, key);
    FindRemove(cached, key, key);
    RemoveKey(cached, key);
    hide Find, Remove, Without;
    var removed, last := Remove(cached, key), [Pair(key, Find(cached, key).value)];
    assert Keys(last) == [key] && Keys(removed + last) == Keys(removed) + [key];
    UniqueAppend(removed, last);
  }

  /** The texts of the call end up last, in their own order, behind everything else in its old order. */
  lemma {:induction false} TouchedOrder(cached: Cached, texts: seq<Pair<string>>)
    requires Unique(cached) && Unique(texts) && forall k :: k in Keys(texts) ==> k in Keys(cached)
    ensures Keys(Touched(cached, texts)) == Without(Keys(cached), Elements(Keys(texts))) + Keys(texts)
    decreases |texts|
  {
    hide Unique, Find, Remove, Without;
    if texts == [] {
      WithoutNothing(Keys(cached), {});
      assert Elements(Keys(texts)) == {};
    } else {
      var key, rest := texts[0].key, texts[1..];
      UniqueTail(texts);
      assert Keys(texts) == [key] + Keys(rest);
      MoveOne(cached, key);
      TouchedOrder(Remove(cached, key) + [Pair(key, Find(cached, key).value)], rest);
      MoveOrder(Keys(cached), key, Keys(rest));
    }
  }

  /** Refreshing the order changes no vector. */
  lemma {:induction false} TouchedIsSound(m: Model, universe: set<string>, cached: Cached, texts: seq<Pair<string>>)
    requires Sound(m, universe, cached) && Unique(texts) && forall k :: k in Keys(texts) ==> k in Keys(cached)
    ensures Sound(m, universe, Touched(cached, texts)) && forall k :: Find(Touched(cached, texts), k) == Find(cached, k)
    decreases |texts|
  {
    if texts != [] {
      var key := texts[0].key;
      UniqueTail(texts);
      assert Keys(texts) == [key] + Keys(texts[1..]);
      TouchOne(m, universe, cached, key);
      TouchedIsSound(m, universe, Remove(cached, key) + [Pair(key, Find(cached, key).value)], texts[1..]);
    }
  }

  lemma {:induction false} FindInSublist<V>(part: seq<Pair<V>>, whole: seq<Pair<V>>, key: string)
    requires Unique(whole) && IsSublist(part, whole)
    ensures Unique(part) && (forall k :: k in Keys(part) ==> k in Keys(whole))
    ensures Find(part, key).Some? ==> Find(whole, key) == Find(part, key)
    decreases |whole|
  {
    if part != [] {
      UniqueTail(whole);
      assert Keys(whole) == [whole[0].key] + Keys(whole[1..]);
      assert Keys(part) == [part[0].key] + Keys(part[1..]);
      FindIsKey(whole[1..], key);
      if part[0] == whole[0] {
        FindInSublist(part[1..], whole[1..], key);
        UniqueCons(part[0], part[1..]);
        assert [part[0]] + part[1..] == part;
      } else {
        FindInSublist(part, whole[1..], key);
        FindIsKey(part, key);
      }
    }
  }

  /** Storing and loading again keeps a sound cache sound. */
  lemma {:induction false} TrustedOfStored(cached: Cached, dimensions: nat)
    requires forall e :: e in cached ==> |e.value| == dimensions
    ensures Trusted(ToStored(cached), dimensions) == cached
  {
    if cached != [] {
      TrustedOfStored(cached[1..], dimensions);
      assert ToStored(cached)[1..] == ToStored(cached[1..]);
      assert cached == [cached[0]] + cached[1..];
    }
  }

  lemma KeptIsSound(m: Model, universe: set<string>, cached: Cached, maxChars: nat)
    requires Sound(m, universe, cached)
    ensures Sound(m, universe, Kept(maxChars, cached))
  {
    KeptWithinBudget(maxChars, cached);
    var kept := Kept(maxChars, cached);
    FindInSublist(kept, cached, "");
    forall t | t in universe && Find(kept, m.digest(t)).Some? ensures Find(kept, m.digest(t)).value == m.embed(t) {
      FindInSublist(kept, cached, m.digest(t));
    }
    forall e | e in kept ensures Fits(m, e.value) { SublistMember(kept, cached, e); }
  }
}
