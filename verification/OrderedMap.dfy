/** Dictionaries that remember insertion order: a key keeps its place when its value changes. */
module OrderedMap {
  import opened Wrappers
  import opened Sequences

  datatype Pair<V> = Pair(key: string, value: V)

  function Keys<V>(m: seq<Pair<V>>): seq<string> {
    seq(|m|, i requires 0 <= i < |m| => m[i].key)
  }

  predicate Unique<V>(m: seq<Pair<V>>) {
    NoDuplicates(Keys(m))
  }

  function Find<V>(m: seq<Pair<V>>, key: string): Option<V> {
    if m == [] then None else if m[0].key == key then Some(m[0].value) else Find(m[1..], key)
  }

  function Assign<V>(m: seq<Pair<V>>, key: string, value: V): seq<Pair<V>> {
    if m == [] then [Pair(key, value)]
    else if m[0].key == key then [Pair(key, value)] + m[1..]
    else [m[0]] + Assign(m[1..], key, value)
  }

  function Remove<V>(m: seq<Pair<V>>, key: string): seq<Pair<V>> {
    if m == [] then [] else if m[0].key == key then m[1..] else [m[0]] + Remove(m[1..], key)
  }

  lemma {:induction false} FindIsKey<V>(m: seq<Pair<V>>, key: string)
    ensures Find(m, key).Some? <==> key in Keys(m)
  {
    if m != [] {
      assert Keys(m) == [m[0].key] + Keys(m[1..]);
      FindIsKey(m[1..], key);
    }
  }

  lemma MemberKey<V>(m: seq<Pair<V>>, p: Pair<V>)
    requires p in m
    ensures p.key in Keys(m)
  {
    var i :| 0 <= i < |m| && m[i] == p;
    assert Keys(m)[i] == p.key;
  }

  lemma KeyHolder<V>(m: seq<Pair<V>>, key: string) returns (p: Pair<V>)
    requires key in Keys(m)
    ensures p in m && p.key == key
  {
    var i :| 0 <= i < |m| && Keys(m)[i] == key;
    p := m[i];
  }

  lemma KeyDetermines<V>(m: seq<Pair<V>>, p: Pair<V>, q: Pair<V>)
    requires Unique(m) && p in m && q in m && p.key == q.key
    ensures p == q
  {
    var i :| 0 <= i < |m| && m[i] == p;
    var j :| 0 <= j < |m| && m[j] == q;
    assert Keys(m)[i] == Keys(m)[j];
  }

  lemma UniqueTail<V>(m: seq<Pair<V>>)
    requires m != [] && Unique(m)
    ensures Unique(m[1..]) && m[0].key !in Keys(m[1..])
  {
    assert Keys(m)[1..] == Keys(m[1..]);
    TailUnique(Keys(m));
  }

  lemma UniqueCons<V>(p: Pair<V>, m: seq<Pair<V>>)
    requires Unique(m) && p.key !in Keys(m)
    ensures Unique([p] + m)
  {
    assert Keys([p] + m) == [p.key] + Keys(m);
  }

  lemma {:induction false} AssignNew<V>(m: seq<Pair<V>>, key: string, value: V)
    requires key !in Keys(m)
    ensures Assign(m, key, value) == m + [Pair(key, value)]
  {
    if m != [] {
      assert Keys(m) == [m[0].key] + Keys(m[1..]);
      AssignNew(m[1..], key, value);
      assert m == [m[0]] + m[1..];
    }
  }

  /** Assigning to a known key keeps every key in its place. */
  lemma {:induction false} AssignKeys<V>(m: seq<Pair<V>>, key: string, value: V)
    ensures Keys(Assign(m, key, value)) == if key in Keys(m) then Keys(m) else Keys(m) + [key]
  {
    if m == [] {
    } else {
      assert Keys(m) == [m[0].key] + Keys(m[1..]);
      if m[0].key == key {
        assert Keys([Pair(key, value)] + m[1..]) == [key] + Keys(m[1..]);
      } else {
        AssignKeys(m[1..], key, value);
        assert Keys([m[0]] + Assign(m[1..], key, value)) == [m[0].key] + Keys(Assign(m[1..], key, value));
      }
    }
  }

  lemma {:induction false} FindRemove<V>(m: seq<Pair<V>>, key: string, other: string)
    requires Unique(m)
    ensures Find(Remove(m, key), other) == if other == key then None else Find(m, other)
    ensures Unique(Remove(m, key))
    ensures forall k :: k in Keys(Remove(m, key)) <==> k in Keys(m) && k != key
  {
    if m != [] {
      UniqueTail(m);
      assert Keys(m) == [m[0].key] + Keys(m[1..]);
      FindIsKey(m[1..], key);
      if m[0].key != key {
        FindRemove(m[1..], key, other);
        UniqueCons(m[0], Remove(m[1..], key));
        assert Keys(Remove(m, key)) == [m[0].key] + Keys(Remove(m[1..], key));
      }
    }
  }

  lemma {:induction false} FindAppend<V>(m: seq<Pair<V>>, n: seq<Pair<V>>, key: string)
    ensures Find(m + n, key) == if Find(m, key).Some? then Find(m, key) else Find(n, key)
  {
    if m == [] {
      assert m + n == n;
    } else {
      assert (m + n)[1..] == m[1..] + n;
      FindAppend(m[1..], n, key);
    }
  }

  lemma UniqueAppend<V>(m: seq<Pair<V>>, n: seq<Pair<V>>)
    requires Unique(m) && Unique(n) && forall k :: k in Keys(m) ==> k !in Keys(n)
    ensures Unique(m + n)
  {
    assert Keys(m + n) == Keys(m) + Keys(n);
    forall i, j | 0 <= i < j < |Keys(m + n)| ensures Keys(m + n)[i] != Keys(m + n)[j] {
      if j >= |m| && i < |m| { assert Keys(m)[i] in Keys(m) && Keys(n)[j - |m|] in Keys(n); }
    }
  }

  lemma {:induction false} FindAt<V>(m: seq<Pair<V>>, i: nat)
    requires Unique(m) && i < |m|
    ensures Find(m, m[i].key) == Some(m[i].value)
  {
    if i > 0 {
      UniqueTail(m);
      assert m[1..][i - 1] == m[i] && Keys(m[1..])[i - 1] == m[i].key;
      FindAt(m[1..], i - 1);
    }
  }

  lemma {:induction false} RemoveMembers<V>(m: seq<Pair<V>>, key: string, e: Pair<V>)
    requires e in Remove(m, key)
    ensures e in m
  {
    if m[0].key != key && e != m[0] { RemoveMembers(m[1..], key, e); }
  }

  lemma {:induction false} FoundIsMember<V>(m: seq<Pair<V>>, key: string)
    requires Find(m, key).Some?
    ensures Pair(key, Find(m, key).value) in m
  {
    if m[0].key != key { FoundIsMember(m[1..], key); } else { assert m[0] == Pair(key, m[0].value); }
  }

  lemma {:induction false} MembersOfAssign<V>(m: seq<Pair<V>>, key: string, value: V)
    ensures forall p :: p in Assign(m, key, value) ==> p in m || p == Pair(key, value)
  {
    if m != [] && m[0].key != key { MembersOfAssign(m[1..], key, value); }
  }
}
