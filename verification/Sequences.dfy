/** Facts about sequences that several components share. */
module Sequences {

  predicate NoDuplicates<T(==)>(xs: seq<T>) {
    forall i, j :: 0 <= i < j < |xs| ==> xs[i] != xs[j]
  }

  function Elements<T>(xs: seq<T>): set<T> {
    set x | x in xs
  }

  lemma NoDuplicatesAppend<T>(xs: seq<T>, x: T)
    ensures NoDuplicates(xs + [x]) <==> NoDuplicates(xs) && x !in xs
    ensures Elements(xs + [x]) == Elements(xs) + {x}
  {
    var all := xs + [x];
    assert forall i :: 0 <= i < |xs| ==> all[i] == xs[i];
    assert all[|xs|] == x;
    forall y | y in all ensures y in xs || y == x {}
    forall y | y in xs || y == x ensures y in all {}
  }

  lemma TailUnique<T>(xs: seq<T>)
    requires xs != [] && NoDuplicates(xs)
    ensures NoDuplicates(xs[1..]) && xs[0] !in xs[1..]
  {
  }

  lemma {:induction false} DistinctCount<T>(xs: seq<T>)
    ensures |Elements(xs)| <= |xs|
    ensures NoDuplicates(xs) <==> |Elements(xs)| == |xs|
    decreases |xs|
  {
    if xs != [] {
      var n := |xs| - 1;
      assert xs == xs[..n] + [xs[n]];
      DistinctCount(xs[..n]);
      NoDuplicatesAppend(xs[..n], xs[n]);
    } else {
      assert Elements(xs) == {};
    }
  }

  /** The sequence without the first occurrence of an element. */
  function RemoveFirst<T(==)>(xs: seq<T>, x: T): seq<T> {
    if xs == [] then [] else if xs[0] == x then xs[1..] else [xs[0]] + RemoveFirst(xs[1..], x)
  }

  /** The elements that are not dropped, in their order. */
  function Without<T(==)>(xs: seq<T>, dropped: set<T>): seq<T> {
    if xs == [] then [] else (if xs[0] in dropped then [] else [xs[0]]) + Without(xs[1..], dropped)
  }

  lemma {:induction false} WithoutNothing<T>(xs: seq<T>, dropped: set<T>)
    requires forall x :: x in xs ==> x !in dropped
    ensures Without(xs, dropped) == xs
  {
    if xs != [] { WithoutNothing(xs[1..], dropped); }
  }

  // ---------- Order-preserving parts ----------

  /** The elements of `part` occur in `whole`, in the same order. */
  predicate IsSublist<T(==)>(part: seq<T>, whole: seq<T>)
    decreases |whole|
  {
    part == [] || (whole != [] && if part[0] == whole[0] then IsSublist(part[1..], whole[1..]) else IsSublist(part, whole[1..]))
  }

  lemma {:induction false} WidenSublist<T>(part: seq<T>, x: T, whole: seq<T>)
    requires IsSublist(part, whole)
    ensures IsSublist(part, [x] + whole)
    decreases |whole|, 1
  {
    assert ([x] + whole)[1..] == whole;
    if part != [] && part[0] == x {
      ShortenSublist(part, whole);
    }
  }

  lemma {:induction false} ShortenSublist<T>(part: seq<T>, whole: seq<T>)
    requires IsSublist(part, whole) && part != []
    ensures IsSublist(part[1..], whole)
    decreases |whole|, 0
  {
    if part[0] == whole[0] {
      WidenSublist(part[1..], whole[0], whole[1..]);
      assert [whole[0]] + whole[1..] == whole;
    } else {
      ShortenSublist(part, whole[1..]);
      WidenSublist(part[1..], whole[0], whole[1..]);
      assert [whole[0]] + whole[1..] == whole;
    }
  }

  lemma {:induction false} SublistMember<T>(part: seq<T>, whole: seq<T>, x: T)
    requires IsSublist(part, whole) && x in part
    ensures x in whole
    decreases |whole|
  {
    if part[0] == whole[0] {
      if x in part[1..] { SublistMember(part[1..], whole[1..], x); }
    } else {
      SublistMember(part, whole[1..], x);
    }
  }

  lemma {:induction false} AppendSublist<T>(part: seq<T>, whole: seq<T>, x: T)
    requires IsSublist(part, whole)
    ensures IsSublist(part + [x], whole + [x])
    decreases |whole|
  {
    if whole == [] {
      assert ([x])[1..] == [] && part + [x] == [x] && whole + [x] == [x];
    } else {
      assert (whole + [x])[1..] == whole[1..] + [x];
      if part != [] && part[0] == whole[0] {
        assert (part + [x])[1..] == part[1..] + [x];
        AppendSublist(part[1..], whole[1..], x);
      } else {
        if part == [] { assert IsSublist([], whole[1..]); }
        AppendSublist(part, whole[1..], x);
        WidenSublist(part + [x], whole[0], whole[1..] + [x]);
        assert [whole[0]] + (whole[1..] + [x]) == whole + [x];
      }
    }
  }

  lemma {:induction false} DropFromSublist<T>(part: seq<T>, i: nat, whole: seq<T>)
    requires IsSublist(part, whole) && i < |part|
    ensures IsSublist(part[..i] + part[i + 1..], whole)
    decreases |whole|
  {
    var less := part[..i] + part[i + 1..];
    if i == 0 {
      assert less == part[1..];
      ShortenSublist(part, whole);
    } else if part[0] == whole[0] {
      DropFromSublist(part[1..], i - 1, whole[1..]);
      assert part[1..][..i - 1] + part[1..][i..] == less[1..] && less[0] == part[0];
    } else {
      DropFromSublist(part, i, whole[1..]);
      WidenSublist(less, whole[0], whole[1..]);
      assert [whole[0]] + whole[1..] == whole;
    }
  }
}
