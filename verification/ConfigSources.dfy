/** Configuration sources in their order: which write has the last word, in the effective tree and in a section's own. */
module ConfigSources {
  import opened Wrappers
  import opened DigitClass
  import opened DottedPaths
  import opened ConfigTree
  import opened ConfigSections

  function Flat(sources: seq<seq<Write>>): seq<Write> {
    if sources == [] then [] else sources[0] + Flat(sources[1..])
  }

  // ---------- The last word ----------

  /** The two parts may name one entry: they are the same name, or the same index of a list. */
  predicate SlotLike(a: string, b: string) {
    a == b || (IndexOf(a).Some? && IndexOf(a) == IndexOf(b))
  }

  /** One path may lead to, above or below the other. */
  predicate MayTouch(p: seq<string>, q: seq<string>) {
    forall k :: 0 <= k < |p| && k < |q| ==> SlotLike(p[k], q[k])
  }

  lemma {:induction false} ApartOtherwise(node: Tree, p: seq<string>, q: seq<string>)
    requires !MayTouch(p, q)
    ensures Relate(node, p, q) == Apart
    decreases |p|
  {
    if p != [] && q != [] && SameSlot(node, p[0], q[0]) {
      var k :| 0 <= k < |p| && k < |q| && !SlotLike(p[k], q[k]);
      assert k > 0 && p[1..][k - 1] == p[k] && q[1..][k - 1] == q[k];
      ApartOtherwise(if |p| == 1 then Null else Enter(Child(node, p[0]), p[1]), p[1..], q[1..]);
    }
  }

  lemma {:induction false} FoldElsewhere(tree: Tree, writes: seq<Write>, q: seq<string>)
    requires IsContainer(tree) && Fold(tree, writes).Ok? && forall v :: v in writes ==> !MayTouch(Split(v.key), q)
    ensures Get(Fold(tree, writes).value, q) == Get(tree, q)
    decreases |writes|
  {
    hide Set, Get, MayTouch, Split;
    if writes != [] {
      var p := Split(writes[0].key);
      assert writes[0] in writes;
      ApartOtherwise(tree, p, q);
      GetAfterSet(tree, p, writes[0].value, q);
      FoldElsewhere(Set(tree, p, writes[0].value).value, writes[1..], q);
    }
  }

  /** By source first, then by place within the source. */
  predicate Later(i: nat, j: nat, k: nat, l: nat) {
    i < k || (i == k && j < l)
  }

  /** The write that source `i` makes at its place `j`, touched by no later one. */
  ghost predicate LastWord(sources: seq<seq<Write>>, i: nat, j: nat) {
    && i < |sources| && j < |sources[i]|
    && forall k: nat, l: nat | k < |sources| && l < |sources[k]| && Later(i, j, k, l)
         :: !MayTouch(Split(sources[k][l].key), Split(sources[i][j].key))
  }

  lemma {:induction false} FlatAround(sources: seq<seq<Write>>, i: nat)
    requires i < |sources|
    ensures Flat(sources) == Flat(sources[..i]) + (sources[i] + Flat(sources[i + 1..]))
  {
    if i > 0 {
      FlatAround(sources[1..], i - 1);
      assert sources[1..][..i - 1] == sources[..i][1..] && sources[1..][i..] == sources[i + 1..] && sources[..i][0] == sources[0];
    }
  }

  lemma {:induction false} FlatMember(sources: seq<seq<Write>>, w: Write) returns (k: nat, l: nat)
    requires w in Flat(sources)
    ensures k < |sources| && l < |sources[k]| && sources[k][l] == w
  {
    if w in sources[0] {
      k := 0;
      l :| 0 <= l < |sources[0]| && sources[0][l] == w;
    } else {
      k, l := FlatMember(sources[1..], w);
      k := k + 1;
    }
  }

  /** All writes, around one of them: whatever comes behind it is later by source and place. */
  lemma Around(sources: seq<seq<Write>>, i: nat, j: nat) returns (before: seq<Write>, after: seq<Write>)
    requires i < |sources| && j < |sources[i]|
    ensures Flat(sources) == before + ([sources[i][j]] + after)
    ensures forall v :: v in after ==> exists k: nat, l: nat :: k < |sources| && l < |sources[k]| && Later(i, j, k, l) && sources[k][l] == v
  {
    FlatAround(sources, i);
    before, after := Flat(sources[..i]) + sources[i][..j], sources[i][j + 1..] + Flat(sources[i + 1..]);
    assert sources[i] == sources[i][..j] + [sources[i][j]] + sources[i][j + 1..];
    forall v | v in after
      ensures exists k: nat, l: nat :: k < |sources| && l < |sources[k]| && Later(i, j, k, l) && sources[k][l] == v
    {
      if v in Flat(sources[i + 1..]) {
        var k, l := FlatMember(sources[i + 1..], v);
        assert sources[k + i + 1][l] == v && Later(i, j, k + i + 1, l);
      } else {
        var l :| 0 <= l < |sources[i][j + 1..]| && sources[i][j + 1..][l] == v;
        assert sources[i][l + j + 1] == v && Later(i, j, i, l + j + 1);
      }
    }
  }

  /**
   * A write is overridden only by a later one: whatever no later source touches, and nothing later in its own source, is in
   * the effective tree.
   */
  lemma LaterSourcesWin(sources: seq<seq<Write>>, i: nat, j: nat)
    requires Fold(Table(map[]), Flat(sources)).Ok? && LastWord(sources, i, j)
    ensures Get(Fold(Table(map[]), Flat(sources)).value, Split(sources[i][j].key)) == sources[i][j].value
  {
    hide Fold, Set, Get, Split, MayTouch, Flat;
    var w := sources[i][j];
    var before, after := Around(sources, i, j);
    FoldConcat(Table(map[]), before, [w] + after);
    var tree := Fold(Table(map[]), before).value;
    FoldConcat(tree, [w], after);
    FoldOne(tree, w);
    SetThenGet(tree, Split(w.key), w.value);
    forall v | v in after ensures !MayTouch(Split(v.key), Split(w.key)) {
      var k: nat, l: nat :| k < |sources| && l < |sources[k]| && Later(i, j, k, l) && sources[k][l] == v;
    }
    FoldElsewhere(Fold(tree, [w]).value, after, Split(w.key));
  }

  /** In particular the very last write of all is in the effective tree. */
  lemma LastWriteWins(sources: seq<seq<Write>>, i: nat)
    requires i < |sources| && sources[i] != [] && forall k :: i < k < |sources| ==> sources[k] == []
    ensures LastWord(sources, i, |sources[i]| - 1)
  {
  }

  // ---------- The last word in a section ----------

  /** Where a key that reaches a section leads inside it. */
  function PathInside(section: string, key: string): seq<string> {
    if Inside(section, key) then Split(key[|section| + 1..]) else []
  }

  ghost predicate LastWordInside(section: string, sources: seq<seq<Write>>, i: nat, j: nat) {
    && i < |sources| && j < |sources[i]| && Reaches(section, sources[i][j].key)
    && forall k: nat, l: nat | k < |sources| && l < |sources[k]| && Later(i, j, k, l) && Reaches(section, sources[k][l].key)
         :: !MayTouch(PathInside(section, sources[k][l].key), PathInside(section, sources[i][j].key))
  }

  lemma NotItsOwnInside(section: string)
    ensures !Inside(section, section)
  {
  }

  lemma {:induction false} SectionElsewhere(tree: Tree, section: string, writes: seq<Write>, q: seq<string>)
    requires tree.Table? && SectionFold(tree, section, writes).Ok?
    requires forall v :: v in writes && Reaches(section, v.key) ==> !MayTouch(PathInside(section, v.key), q)
    ensures Get(SectionFold(tree, section, writes).value, q) == Get(tree, q)
    decreases |writes|
  {
    hide Set, Get, Split, Inside;
    if writes != [] {
      var w := writes[0];
      assert w in writes;
      NotItsOwnInside(section);
      if Inside(section, w.key) {
        var p := PathInside(section, w.key);
        ApartOtherwise(tree, p, q);
        GetAfterSet(tree, p, w.value, q);
      }
      SectionElsewhere(SectionStep(tree, section, w).value, section, writes[1..], q);
    }
  }

  lemma StepThenGet(tree: Tree, section: string, w: Write)
    requires tree.Table? && SectionStep(tree, section, w).Ok? && Reaches(section, w.key)
    ensures Get(SectionStep(tree, section, w).value, PathInside(section, w.key)) == w.value
  {
    hide Set, Split, Inside;
    NotItsOwnInside(section);
    if Inside(section, w.key) { SetThenGet(tree, PathInside(section, w.key), w.value); }
  }

  lemma SectionFoldOne(tree: Tree, section: string, w: Write)
    requires tree.Table?
    ensures SectionFold(tree, section, [w]) == SectionStep(tree, section, w)
  {
    assert [w][1..] == [];
  }

  /** The same in a section's own tree, among the writes that reach the section. */
  lemma LaterSourcesWinInside(section: string, sources: seq<seq<Write>>, i: nat, j: nat)
    requires SectionFold(Table(map[]), section, Flat(sources)).Ok? && LastWordInside(section, sources, i, j)
    ensures Get(SectionFold(Table(map[]), section, Flat(sources)).value, PathInside(section, sources[i][j].key)) == sources[i][j].value
  {
    hide SectionFold, SectionStep, Get, MayTouch, Flat, PathInside, Reaches;
    var w := sources[i][j];
    var before, after := Around(sources, i, j);
    SectionFoldConcat(Table(map[]), section, before, [w] + after);
    var tree := SectionFold(Table(map[]), section, before).value;
    SectionFoldConcat(tree, section, [w], after);
    SectionFoldOne(tree, section, w);
    StepThenGet(tree, section, w);
    forall v | v in after && Reaches(section, v.key) ensures !MayTouch(PathInside(section, v.key), PathInside(section, w.key)) {
      var k: nat, l: nat :| k < |sources| && l < |sources[k]| && Later(i, j, k, l) && sources[k][l] == v;
    }
    SectionElsewhere(SectionFold(tree, section, [w]).value, section, after, PathInside(section, w.key));
  }

  // ---------- The two loops ----------

  ghost predicate HasLastWords(sources: seq<seq<Write>>, tree: Tree) {
    forall i: nat, j: nat | LastWord(sources, i, j) :: Get(tree, Split(sources[i][j].key)) == sources[i][j].value
  }

  ghost predicate HasLastWordsInside(section: string, sources: seq<seq<Write>>, tree: Tree) {
    forall i: nat, j: nat | LastWordInside(section, sources, i, j)
      :: Get(tree, PathInside(section, sources[i][j].key)) == sources[i][j].value
  }

  lemma LastWordsStay(section: string, sources: seq<seq<Write>>)
    ensures Fold(Table(map[]), Flat(sources)).Ok? ==> HasLastWords(sources, Fold(Table(map[]), Flat(sources)).value)
    ensures SectionFold(Table(map[]), section, Flat(sources)).Ok? ==>
              HasLastWordsInside(section, sources, SectionFold(Table(map[]), section, Flat(sources)).value)
  {
    hide Fold, SectionFold, Flat, LastWord, LastWordInside, Get, Split, PathInside;
    forall i: nat, j: nat | LastWord(sources, i, j) && Fold(Table(map[]), Flat(sources)).Ok?
      ensures i < |sources| && j < |sources[i]|
      ensures Get(Fold(Table(map[]), Flat(sources)).value, Split(sources[i][j].key)) == sources[i][j].value
    {
      LastWordIsThere(section, sources, i, j);
      LaterSourcesWin(sources, i, j);
    }
    forall i: nat, j: nat | LastWordInside(section, sources, i, j) && SectionFold(Table(map[]), section, Flat(sources)).Ok?
      ensures i < |sources| && j < |sources[i]|
      ensures Get(SectionFold(Table(map[]), section, Flat(sources)).value, PathInside(section, sources[i][j].key)) == sources[i][j].value
    {
      LastWordIsThere(section, sources, i, j);
      LaterSourcesWinInside(section, sources, i, j);
    }
  }

  lemma LastWordIsThere(section: string, sources: seq<seq<Write>>, i: nat, j: nat)
    requires LastWord(sources, i, j) || LastWordInside(section, sources, i, j)
    ensures i < |sources| && j < |sources[i]|
  {
  }

  /** All sources folded in order, each over the ones before it. */
  method EffectiveTree(sources: seq<seq<Write>>) returns (r: Outcome<Tree, ConfigError>)
    ensures r == Fold(Table(map[]), Flat(sources))
    ensures r.Ok? ==> HasLastWords(sources, r.value)
  {
    hide Set, Split, HasLastWords;
    LastWordsStay("", sources);
    var tree := Table(map[]);
    assert sources[0..] == sources;
    for i := 0 to |sources|
      invariant tree.Table? && Fold(Table(map[]), Flat(sources)) == Fold(tree, Flat(sources[i..]))
    {
      var source := sources[i];
      assert sources[i..][1..] == sources[i + 1..];
      assert source[0..] == source;
      for j := 0 to |source|
        invariant tree.Table? && Fold(Table(map[]), Flat(sources)) == Fold(tree, source[j..] + Flat(sources[i + 1..]))
      {
        var w := source[j];
        assert (source[j..] + Flat(sources[i + 1..]))[1..] == source[j + 1..] + Flat(sources[i + 1..]);
        var written := SetDotted(tree, Split(w.key), w.value);
        if written.Raised? {
          return Raised(written.error);
        }
        StaysTable(tree, Split(w.key), w.value);
        tree := written.value;
      }
      assert source[|source|..] + Flat(sources[i + 1..]) == Flat(sources[i + 1..]);
    }
    return Ok(tree);
  }

  /** One section's tree, from the writes that reach it and no others. */
  method SectionTree(section: string, sources: seq<seq<Write>>) returns (r: Outcome<Tree, ConfigError>)
    ensures section == "" ==> r == Raised(EmptySection)
    ensures section != "" ==> r == SectionFold(Table(map[]), section, Flat(sources))
    ensures r.Ok? ==> HasLastWordsInside(section, sources, r.value)
  {
    hide Set, Split, HasLastWords, HasLastWordsInside;
    LastWordsStay(section, sources);
    if section == "" {
      return Raised(EmptySection);
    }
    var tree := Table(map[]);
    assert sources[0..] == sources;
    for i := 0 to |sources|
      invariant tree.Table? && SectionFold(Table(map[]), section, Flat(sources)) == SectionFold(tree, section, Flat(sources[i..]))
    {
      var source := sources[i];
      assert sources[i..][1..] == sources[i + 1..];
      assert source[0..] == source;
      for j := 0 to |source|
        invariant tree.Table?
        invariant SectionFold(Table(map[]), section, Flat(sources)) ==
                  SectionFold(tree, section, source[j..] + Flat(sources[i + 1..]))
      {
        var w := source[j];
        assert (source[j..] + Flat(sources[i + 1..]))[1..] == source[j + 1..] + Flat(sources[i + 1..]);
        if w.key == section {
          if !w.value.Table? {
            return Raised(ScalarSection);
          }
          tree := w.value;
        } else if Inside(section, w.key) {
          var rest := Split(w.key[|section| + 1..]);
          var written := SetDotted(tree, rest, w.value);
          if written.Raised? {
            return Raised(written.error);
          }
          StaysTable(tree, rest, w.value);
          tree := written.value;
        }
      }
      assert source[|source|..] + Flat(sources[i + 1..]) == Flat(sources[i + 1..]);
    }
    return Ok(tree);
  }
}
