/** Reading an embedding response: the entries may come in any order, and each text must get its own vector. */
module EmbeddingResponse {
  import opened Wrappers
  import opened Sequences

  /** A finite float, as its JSON text. */
  type Component = string
  type Vector = seq<Component>

  /** A number of the response: usable, or a boolean, a non-number or a non-finite value. */
  datatype Raw = Usable(text: Component) | Unusable

  /** An entry; `None` where the field is missing or not of its type. */
  datatype Entry = Entry(index: Option<int>, embedding: Option<seq<Raw>>)

  datatype ContractError = CountInvalid | EntryInvalid | VectorInvalid

  predicate AllUsable(raw: seq<Raw>) {
    forall x :: x in raw ==> x.Usable?
  }

  function Texts(raw: seq<Raw>): Vector
    requires AllUsable(raw)
  {
    seq(|raw|, i requires 0 <= i < |raw| => raw[i].text)
  }

  predicate EntryFits(e: Entry, count: nat, dimensions: nat) {
    && e.index.Some? && e.embedding.Some? && 0 <= e.index.value < count
    && |e.embedding.value| == dimensions && AllUsable(e.embedding.value)
  }

  function Indices(data: seq<Entry>): seq<int>
    requires forall e :: e in data ==> e.index.Some?
  {
    seq(|data|, i requires 0 <= i < |data| => data[i].index.value)
  }

  /** One entry for each position, in any order. */
  predicate IsPermutation(data: seq<Entry>, count: nat)
    requires forall e :: e in data ==> e.index.Some?
  {
    |data| == count && Elements(Indices(data)) == Range(count)
  }

  function Range(count: nat): (positions: set<int>)
    ensures |positions| == count && forall i :: i in positions <==> 0 <= i < count
  {
    if count == 0 then {} else Range(count - 1) + {count - 1}
  }

  lemma SubsetOfSameSize<T>(a: set<T>, b: set<T>)
    requires a <= b && |a| == |b|
    ensures a == b
  {
    if x :| x in b && x !in a {
      assert a <= b - {x};
      SubsetCount(a, b - {x});
    }
  }

  lemma {:induction false} SubsetCount<T>(a: set<T>, b: set<T>)
    requires a <= b
    ensures |a| <= |b|
    decreases a
  {
    if a != {} {
      var x :| x in a;
      SubsetCount(a - {x}, b - {x});
    }
  }

  /** The pigeonhole: as many distinct positions as texts are all the positions. */
  lemma DistinctIsPermutation(data: seq<Entry>, count: nat)
    requires |data| == count && forall e :: e in data ==> e.index.Some? && 0 <= e.index.value < count
    ensures NoDuplicates(Indices(data)) <==> IsPermutation(data, count)
  {
    DistinctCount(Indices(data));
    forall i | i in Indices(data) ensures i in Range(count) {
      var k :| 0 <= k < |data| && Indices(data)[k] == i;
      assert data[k] in data;
    }
    if NoDuplicates(Indices(data)) { SubsetOfSameSize(Elements(Indices(data)), Range(count)); }
  }

  /**
   * A response is accepted exactly when it has one fitting entry for each text, and then vector `i` is the one the
   * response gave for text `i`, whatever the order of its entries.
   */
  method Parse(data: Option<seq<Entry>>, count: nat, dimensions: nat) returns (r: Outcome<seq<Vector>, ContractError>)
    ensures r.Ok? <==> data.Some? && (forall e :: e in data.value ==> EntryFits(e, count, dimensions)) && IsPermutation(data.value, count)
    ensures r.Ok? ==> |r.value| == count
    ensures r.Ok? ==> forall e :: e in data.value ==> r.value[e.index.value] == Texts(e.embedding.value)
  {
    if data.None? || |data.value| != count {
      return Raised(CountInvalid);
    }
    hide IsPermutation, Texts;
    var items := data.value;
    var vectors: map<int, Vector> := map[];
    for k := 0 to |items|
      invariant forall e :: e in items[..k] ==> EntryFits(e, count, dimensions)
      invariant NoDuplicates(Indices(items[..k])) && vectors.Keys == Elements(Indices(items[..k]))
      invariant forall e :: e in items[..k] ==> e.index.value in vectors && vectors[e.index.value] == Texts(e.embedding.value)
    {
      var item := items[k];
      assert items[..k + 1] == items[..k] + [item] && item in items;
      if item.index.None? || item.embedding.None? {
        return Raised(EntryInvalid);
      }
      var index, raw := item.index.value, item.embedding.value;
      if index in vectors {
        RepeatedIndex(items, count, k);
        return Raised(VectorInvalid);
      }
      if !(0 <= index < count) || |raw| != dimensions || !AllUsable(raw) {
        return Raised(VectorInvalid);
      }
      assert Indices(items[..k + 1]) == Indices(items[..k]) + [index];
      NoDuplicatesAppend(Indices(items[..k]), index);
      vectors := vectors[index := Texts(raw)];
    }
    assert items[..|items|] == items;
    DistinctIsPermutation(items, count);
    return Ok(seq(count, i requires 0 <= i < count => vectors[i]));
  }

  lemma RepeatedIndex(items: seq<Entry>, count: nat, k: nat)
    requires k < |items| && |items| == count && (forall e :: e in items[..k + 1] ==> e.index.Some?)
    requires items[k].index.value in Elements(Indices(items[..k]))
    ensures !((forall e :: e in items ==> e.index.Some? && 0 <= e.index.value < count) && IsPermutation(items, count))
  {
    if forall e :: e in items ==> e.index.Some? && 0 <= e.index.value < count {
      DistinctIsPermutation(items, count);
      var i :| 0 <= i < k && Indices(items[..k])[i] == items[k].index.value;
      assert Indices(items)[i] == Indices(items)[k];
    }
  }
}
