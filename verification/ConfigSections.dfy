/** The effective tree of ordered sources, one section's own tree, and when the two agree. */
module ConfigSections {
  import opened Wrappers
  import opened Decimal
  import opened DigitClass
  import opened DottedPaths
  import opened ConfigTree

  datatype Write = Write(key: string, value: Tree)

  function Fold(tree: Tree, writes: seq<Write>): Outcome<Tree, ConfigError>
    requires IsContainer(tree)
    decreases |writes|
  {
    if writes == [] then Ok(tree)
    else
      match Set(tree, Split(writes[0].key), writes[0].value)
      case Ok(t) => Fold(t, writes[1..])
      case Raised(e) => Raised(e)
  }

  predicate Inside(section: string, key: string) {
    section + "." <= key
  }

  function SectionStep(tree: Tree, section: string, w: Write): (r: Outcome<Tree, ConfigError>)
    requires tree.Table?
    ensures r.Ok? ==> r.value.Table?
  {
    if w.key == section then if w.value.Table? then Ok(w.value) else Raised(ScalarSection)
    else if Inside(section, w.key) then Set(tree, Split(w.key[|section| + 1..]), w.value)
    else Ok(tree)
  }

  function SectionFold(tree: Tree, section: string, writes: seq<Write>): Outcome<Tree, ConfigError>
    requires tree.Table?
    decreases |writes|
  {
    if writes == [] then Ok(tree)
    else
      match SectionStep(tree, section, writes[0])
      case Ok(t) => SectionFold(t, section, writes[1..])
      case Raised(e) => Raised(e)
  }

  // ---------- Where a key lies with respect to a section ----------

  predicate Named(section: string) {
    forall part :: part in Split(section) ==> !IsIndex(part)
  }

  /** Splitting an inside key gives the section's parts, then the rest. */
  lemma InsideParts(section: string, key: string)
    requires Inside(section, key)
    ensures Split(key) == Split(section) + Split(key[|section| + 1..])
  {
    assert key == section + "." + key[|section| + 1..];
    SplitConcat(section, key[|section| + 1..]);
  }

  lemma {:induction false} NamesApart(node: Tree, p: seq<string>, q: seq<string>)
    requires !(p <= q) && !(q <= p) && forall part :: part in q ==> !IsIndex(part)
    ensures Relate(node, p, q) == Apart
    decreases |p|
  {
    if p[0] == q[0] && SameSlot(node, p[0], q[0]) {
      assert p == [p[0]] + p[1..] && q == [q[0]] + q[1..];
      NamesApart(if |p| == 1 then Null else Enter(Child(node, p[0]), p[1]), p[1..], q[1..]);
    }
  }

  lemma {:induction false} RelateAbove(node: Tree, q: seq<string>, rest: seq<string>, value: Tree)
    requires IsContainer(node) && rest != [] && Set(node, q + rest, value).Ok?
    ensures Relate(node, q + rest, q) == Over(rest)
    decreases |q|
  {
    var p := q + rest;
    if q == [] {
      assert p == rest;
    } else {
      assert p[1..] == q[1..] + rest;
      RelateAbove(Enter(Child(node, p[0]), p[1]), q[1..], rest, value);
    }
  }

  predicate AncestorOf(key: string, section: string) {
    Inside(key, section)
  }

  /** What the effective tree holds at the section. */
  function At(tree: Tree, section: string): Tree {
    Get(tree, Split(section))
  }

  lemma WriteElsewhere(tree: Tree, section: string, w: Write)
    requires IsContainer(tree) && Named(section) && Set(tree, Split(w.key), w.value).Ok?
    requires w.key != section && !Inside(section, w.key) && !AncestorOf(w.key, section)
    ensures At(Set(tree, Split(w.key), w.value).value, section) == At(tree, section)
  {
    ReachesInto(section, w.key);
    ReachesInto(w.key, section);
    if Split(w.key) == Split(section) {
      JoinOfSplit(w.key);
      JoinOfSplit(section);
    }
    NamesApart(tree, Split(w.key), Split(section));
    GetAfterSet(tree, Split(w.key), w.value, Split(section));
  }

  lemma WriteInside(tree: Tree, section: string, w: Write)
    requires IsContainer(tree) && Set(tree, Split(w.key), w.value).Ok? && Inside(section, w.key)
    ensures var rest := Split(w.key[|section| + 1..]);
            var start := Enter(At(tree, section), rest[0]);
            IsContainer(start) && Set(start, rest, w.value) == Ok(At(Set(tree, Split(w.key), w.value).value, section))
  {
    InsideParts(section, w.key);
    var rest := Split(w.key[|section| + 1..]);
    RelateAbove(tree, Split(section), rest, w.value);
    GetAfterSet(tree, Split(w.key), w.value, Split(section));
  }

  // ---------- When the two agree ----------

  predicate NoAncestor(section: string, writes: seq<Write>) {
    forall w :: w in writes ==> !AncestorOf(w.key, section)
  }

  predicate Assigned(section: string, writes: seq<Write>) {
    exists w :: w in writes && w.key == section
  }

  predicate OnlyTables(section: string, writes: seq<Write>) {
    forall w :: w in writes && w.key == section ==> w.value.Table?
  }

  predicate NumericChild(section: string, key: string) {
    Inside(section, key) && IsIndex(Split(key[|section| + 1..])[0])
  }

  /** The section is first reached through a numeric child key. */
  predicate StartsNumeric(section: string, writes: seq<Write>)
    decreases |writes|
  {
    writes != [] &&
    if writes[0].key == section || Inside(section, writes[0].key) then NumericChild(section, writes[0].key)
    else StartsNumeric(section, writes[1..])
  }

  predicate Agree(effective: Tree, tree: Tree, section: string) {
    tree.Table? && At(effective, section) == tree
  }

  lemma TailSame(section: string, writes: seq<Write>)
    requires writes != []
    ensures NoAncestor(section, writes) ==> NoAncestor(section, writes[1..]) && !AncestorOf(writes[0].key, section)
    ensures OnlyTables(section, writes) ==> OnlyTables(section, writes[1..])
    ensures Assigned(section, writes) <==> writes[0].key == section || Assigned(section, writes[1..])
  {
    assert writes == [writes[0]] + writes[1..];
  }

  /** From agreement, one write keeps it. */
  lemma AgreeStep(effective: Tree, tree: Tree, section: string, w: Write)
    requires IsContainer(effective) && tree.Table? && Named(section) && !AncestorOf(w.key, section)
    requires Agree(effective, tree, section) || (w.key == section && w.value.Table?)
    requires Set(effective, Split(w.key), w.value).Ok? && (w.key == section ==> w.value.Table?)
    ensures var t := SectionStep(tree, section, w);
            t.Ok? && Agree(Set(effective, Split(w.key), w.value).value, t.value, section)
  {
    if w.key == section {
      SetThenGet(effective, Split(section), w.value);
    } else if Inside(section, w.key) {
      WriteInside(effective, section, w);
    } else {
      WriteElsewhere(effective, section, w);
    }
  }

  lemma {:induction false} AgreeAlways(effective: Tree, tree: Tree, section: string, writes: seq<Write>)
    requires IsContainer(effective) && Named(section) && NoAncestor(section, writes) && Agree(effective, tree, section)
    requires Fold(effective, writes).Ok? && (OnlyTables(section, writes) || SectionFold(tree, section, writes).Ok?)
    ensures var r := SectionFold(tree, section, writes);
            r.Ok? && Agree(Fold(effective, writes).value, r.value, section)
    decreases |writes|
  {
    hide Agree, SectionStep, Set, Named, NoAncestor;
    assert tree.Table? by { AgreeIsTable(effective, tree, section); }
    if writes != [] {
      TailSame(section, writes);
      var w := writes[0];
      TablesOnly(tree, section, writes);
      AgreeStep(effective, tree, section, w);
      AgreeAlways(Set(effective, Split(w.key), w.value).value, SectionStep(tree, section, w).value, section, writes[1..]);
    }
  }

  lemma AgreeIsTable(effective: Tree, tree: Tree, section: string)
    requires Agree(effective, tree, section)
    ensures tree.Table?
  {
  }

  lemma TablesOnly(tree: Tree, section: string, writes: seq<Write>)
    requires tree.Table? && writes != [] && (OnlyTables(section, writes) || SectionFold(tree, section, writes).Ok?)
    ensures writes[0].key == section ==> writes[0].value.Table?
  {
  }

  /** A list in one, a table in the other. */
  predicate Differ(effective: Tree, tree: Tree, section: string) {
    tree.Table? && At(effective, section).Items?
  }

  lemma {:induction false} DifferUntilAssigned(effective: Tree, tree: Tree, section: string, writes: seq<Write>)
    requires IsContainer(effective) && Named(section) && NoAncestor(section, writes) && Differ(effective, tree, section)
    requires Fold(effective, writes).Ok? && SectionFold(tree, section, writes).Ok?
    ensures var t, r := Fold(effective, writes).value, SectionFold(tree, section, writes).value;
            if Assigned(section, writes) then Agree(t, r, section) else Differ(t, r, section)
    decreases |writes|
  {
    if writes != [] {
      TailSame(section, writes);
      var w := writes[0];
      var e, t := Set(effective, Split(w.key), w.value).value, SectionStep(tree, section, w).value;
      if w.key == section {
        AgreeStep(effective, tree, section, w);
        AgreeAlways(e, t, section, writes[1..]);
      } else {
        DifferStep(effective, tree, section, w);
        DifferUntilAssigned(e, t, section, writes[1..]);
      }
    }
  }

  lemma DifferStep(effective: Tree, tree: Tree, section: string, w: Write)
    requires IsContainer(effective) && Named(section) && !AncestorOf(w.key, section) && w.key != section
    requires Differ(effective, tree, section)
    requires Set(effective, Split(w.key), w.value).Ok? && SectionStep(tree, section, w).Ok?
    ensures Differ(Set(effective, Split(w.key), w.value).value, SectionStep(tree, section, w).value, section)
  {
    hide Split, AncestorOf, Inside, Get, Named;
    if Inside(section, w.key) {
      WriteInside(effective, section, w);
    } else {
      WriteElsewhere(effective, section, w);
    }
  }

  /** The section of an effective tree, an absent one being empty. */
  function SectionOf(effective: Tree, section: string): Tree {
    if At(effective, section).Null? then Table(map[]) else At(effective, section)
  }

  predicate Untouched(effective: Tree, tree: Tree, section: string) {
    tree == Table(map[]) && At(effective, section).Null?
  }

  lemma FirstTouch(effective: Tree, tree: Tree, section: string, w: Write)
    requires IsContainer(effective) && Named(section) && !AncestorOf(w.key, section) && Untouched(effective, tree, section)
    requires Set(effective, Split(w.key), w.value).Ok? && (w.key == section ==> w.value.Table?)
    ensures var t := SectionStep(tree, section, w);
            var e := Set(effective, Split(w.key), w.value).value;
            if w.key != section && !Inside(section, w.key) then t.Ok? && Untouched(e, t.value, section)
            else if NumericChild(section, w.key) then t.Ok? ==> Differ(e, t.value, section)
            else t.Ok? && Agree(e, t.value, section)
  {
    hide Split, AncestorOf, Get, Named;
    if w.key == section {
      AgreeStep(effective, tree, section, w);
    } else if Inside(section, w.key) {
      WriteInside(effective, section, w);
    } else {
      WriteElsewhere(effective, section, w);
    }
  }

  lemma NotNumericItself(section: string)
    ensures !NumericChild(section, section)
  {
  }

  lemma {:induction false} AgreementFrom(effective: Tree, tree: Tree, section: string, writes: seq<Write>)
    requires IsContainer(effective) && Named(section) && NoAncestor(section, writes) && Untouched(effective, tree, section)
    requires Fold(effective, writes).Ok? && SectionFold(tree, section, writes).Ok?
    ensures SectionFold(tree, section, writes).value == SectionOf(Fold(effective, writes).value, section) <==>
            !StartsNumeric(section, writes) || Assigned(section, writes)
    decreases |writes|
  {
    if writes != [] {
      TailSame(section, writes);
      NotNumericItself(section);
      var w := writes[0];
      var e, t := Set(effective, Split(w.key), w.value).value, SectionStep(tree, section, w).value;
      FirstTouch(effective, tree, section, w);
      if w.key != section && !Inside(section, w.key) {
        AgreementFrom(e, t, section, writes[1..]);
      } else if NumericChild(section, w.key) {
        DifferUntilAssigned(e, t, section, writes[1..]);
      } else {
        AgreeAlways(e, t, section, writes[1..]);
      }
    }
  }

  /** Without a write to an ancestor, the two agree exactly when the section does not start as a numeric child, or is assigned. */
  lemma AgreementWithoutAncestors(section: string, writes: seq<Write>)
    requires Named(section) && NoAncestor(section, writes)
    requires Fold(Table(map[]), writes).Ok? && SectionFold(Table(map[]), section, writes).Ok?
    ensures SectionFold(Table(map[]), section, writes).value == SectionOf(Fold(Table(map[]), writes).value, section) <==>
            !StartsNumeric(section, writes) || Assigned(section, writes)
  {
    NothingInside(Table(map[]), Split(section));
    AgreementFrom(Table(map[]), Table(map[]), section, writes);
  }

  lemma {:induction false} SectionSucceedsFrom(effective: Tree, tree: Tree, section: string, writes: seq<Write>)
    requires IsContainer(effective) && Named(section) && NoAncestor(section, writes) && Untouched(effective, tree, section)
    requires Fold(effective, writes).Ok? && OnlyTables(section, writes) && !StartsNumeric(section, writes)
    ensures SectionFold(tree, section, writes).Ok?
    decreases |writes|
  {
    if writes != [] {
      TailSame(section, writes);
      var w := writes[0];
      TablesOnly(tree, section, writes);
      FirstTouch(effective, tree, section, w);
      var e, t := Set(effective, Split(w.key), w.value).value, SectionStep(tree, section, w).value;
      if w.key != section && !Inside(section, w.key) {
        SectionSucceedsFrom(e, t, section, writes[1..]);
      } else {
        AgreeAlways(e, t, section, writes[1..]);
      }
    }
  }

  /**
   * Whatever the whole configuration accepts, a section accepts too, and they agree, when no key is an ancestor of it and it
   * is given by tables or named children. `AncestorHidesFailure` is why ancestors are excluded.
   */
  lemma SectionSucceeds(section: string, writes: seq<Write>)
    requires Named(section) && NoAncestor(section, writes) && OnlyTables(section, writes) && !StartsNumeric(section, writes)
    requires Fold(Table(map[]), writes).Ok?
    ensures SectionFold(Table(map[]), section, writes) == Ok(SectionOf(Fold(Table(map[]), writes).value, section))
  {
    NothingInside(Table(map[]), Split(section));
    SectionSucceedsFrom(Table(map[]), Table(map[]), section, writes);
    AgreementWithoutAncestors(section, writes);
  }

  // ---------- Writes to an ancestor of the section ----------

  /** Where the writes after the last one to an ancestor begin. */
  function AncestorsEnd(section: string, writes: seq<Write>): (n: nat)
    ensures n <= |writes| && NoAncestor(section, writes[n..])
    ensures n > 0 ==> AncestorOf(writes[n - 1].key, section)
  {
    if writes == [] then 0
    else
      var last := |writes| - 1;
      if AncestorOf(writes[last].key, section) then |writes|
      else
        var n := AncestorsEnd(section, writes[..last]);
        assert writes[n..] == writes[..last][n..] + [writes[last]];
        n
  }

  /** What the last of these writes, to an ancestor, holds at the section; nothing if there is none. */
  function HeldAfter(section: string, writes: seq<Write>): Tree {
    if writes == [] then Null
    else
      var last := writes[|writes| - 1];
      if AncestorOf(last.key, section) then Get(last.value, Split(section[|last.key| + 1..])) else Null
  }

  lemma WriteAbove(tree: Tree, section: string, w: Write)
    requires IsContainer(tree) && Set(tree, Split(w.key), w.value).Ok? && AncestorOf(w.key, section)
    ensures At(Set(tree, Split(w.key), w.value).value, section) == Get(w.value, Split(section[|w.key| + 1..]))
    ensures w.key != section && !Inside(section, w.key)
  {
    var rest := Split(section[|w.key| + 1..]);
    InsideParts(w.key, section);
    RelateSelf(tree, Split(w.key), w.value, rest);
    GetAfterSet(tree, Split(w.key), w.value, Split(section));
  }

  lemma {:induction false} FoldConcat(tree: Tree, a: seq<Write>, b: seq<Write>)
    requires IsContainer(tree)
    ensures Fold(tree, a + b).Ok? ==> Fold(tree, a).Ok? && IsContainer(Fold(tree, a).value) && Fold(tree, a + b) == Fold(Fold(tree, a).value, b)
    decreases |a|
  {
    hide Set;
    if a == [] {
      assert a + b == b;
    } else {
      assert (a + b)[1..] == a[1..] + b;
      var step := Set(tree, Split(a[0].key), a[0].value);
      if step.Ok? { FoldConcat(step.value, a[1..], b); }
    }
  }

  lemma {:induction false} SectionFoldConcat(tree: Tree, section: string, a: seq<Write>, b: seq<Write>)
    requires tree.Table?
    ensures SectionFold(tree, section, a + b).Ok? ==>
              SectionFold(tree, section, a).Ok? && SectionFold(tree, section, a).value.Table?
              && SectionFold(tree, section, a + b) == SectionFold(SectionFold(tree, section, a).value, section, b)
    decreases |a|
  {
    hide SectionStep;
    if a == [] {
      assert a + b == b;
    } else {
      assert (a + b)[1..] == a[1..] + b;
      var step := SectionStep(tree, section, a[0]);
      if step.Ok? { SectionFoldConcat(step.value, section, a[1..], b); }
    }
  }

  lemma NothingHeld(section: string)
    ensures Fold(Table(map[]), []) == Ok(Table(map[])) && IsContainer(Table(map[]))
    ensures At(Table(map[]), section) == Null == HeldAfter(section, [])
  {
    NothingInside(Table(map[]), Split(section));
  }

  lemma LastAbove(tree: Tree, section: string, front: seq<Write>, w: Write)
    requires IsContainer(tree) && Fold(tree, [w]).Ok? && AncestorOf(w.key, section)
    ensures IsContainer(Fold(tree, [w]).value) && At(Fold(tree, [w]).value, section) == HeldAfter(section, front + [w])
  {
    hide Fold, Get, Split, AncestorOf, At;
    FoldOne(tree, w);
    WriteAbove(tree, section, w);
  }

  /** After the last ancestor the effective tree holds at the section what that write holds there. */
  lemma HeldAtAncestor(section: string, before: seq<Write>)
    requires Fold(Table(map[]), before).Ok? && (before != [] ==> AncestorOf(before[|before| - 1].key, section))
    ensures IsContainer(Fold(Table(map[]), before).value) && At(Fold(Table(map[]), before).value, section) == HeldAfter(section, before)
  {
    hide *;
    NothingHeld(section);
    if before != [] {
      var n := |before| - 1;
      var front, last := before[..n], before[n];
      assert before == front + [last];
      FoldConcat(Table(map[]), front, [last]);
      LastAbove(Fold(Table(map[]), front).value, section, front, last);
    }
  }

  lemma FoldOne(tree: Tree, w: Write)
    requires IsContainer(tree)
    ensures Fold(tree, [w]) == Set(tree, Split(w.key), w.value)
  {
    assert [w][1..] == [];
  }

  lemma {:induction false} AcceptedAreTables(tree: Tree, section: string, writes: seq<Write>)
    requires tree.Table? && SectionFold(tree, section, writes).Ok?
    ensures OnlyTables(section, writes)
    decreases |writes|
  {
    hide Set;
    if writes != [] {
      assert writes == [writes[0]] + writes[1..];
      AcceptedAreTables(SectionStep(tree, section, writes[0]).value, section, writes[1..]);
    }
  }

  /** Once assigned, the section is the same in both, whatever it was before. */
  lemma {:induction false} AssignedAgree(effective: Tree, tree: Tree, section: string, writes: seq<Write>)
    requires IsContainer(effective) && tree.Table? && Named(section) && NoAncestor(section, writes) && Assigned(section, writes)
    requires Fold(effective, writes).Ok? && SectionFold(tree, section, writes).Ok?
    ensures Agree(Fold(effective, writes).value, SectionFold(tree, section, writes).value, section)
    decreases |writes|
  {
    hide Set, Split, Named, NoAncestor, AncestorOf;
    TailSame(section, writes);
    var w := writes[0];
    var e, t := Set(effective, Split(w.key), w.value).value, SectionStep(tree, section, w).value;
    if w.key == section {
      AgreeStep(effective, tree, section, w);
      AgreeAlways(e, t, section, writes[1..]);
    } else {
      AssignedAgree(e, t, section, writes[1..]);
    }
  }

  /** A list, or a plain value, stays one: child writes go into the list and fail at the value. */
  predicate Unlike(effective: Tree, section: string) {
    At(effective, section).Items? || At(effective, section).Scalar?
  }

  lemma UnlikeStep(effective: Tree, section: string, w: Write)
    requires IsContainer(effective) && Named(section) && !AncestorOf(w.key, section) && w.key != section
    requires Set(effective, Split(w.key), w.value).Ok?
    requires Unlike(effective, section) || (At(effective, section).Null? && NumericChild(section, w.key))
    ensures Unlike(Set(effective, Split(w.key), w.value).value, section)
  {
    hide Split, AncestorOf, Get, Named;
    if Inside(section, w.key) {
      WriteInside(effective, section, w);
    } else {
      WriteElsewhere(effective, section, w);
    }
  }

  lemma NullElsewhere(effective: Tree, section: string, w: Write)
    requires IsContainer(effective) && Named(section) && !AncestorOf(w.key, section) && w.key != section && !Inside(section, w.key)
    requires Set(effective, Split(w.key), w.value).Ok? && At(effective, section).Null?
    ensures At(Set(effective, Split(w.key), w.value).value, section).Null?
  {
    WriteElsewhere(effective, section, w);
  }

  lemma {:induction false} StaysUnlike(effective: Tree, section: string, writes: seq<Write>)
    requires IsContainer(effective) && Named(section) && NoAncestor(section, writes) && !Assigned(section, writes)
    requires Fold(effective, writes).Ok?
    requires Unlike(effective, section) || (At(effective, section).Null? && StartsNumeric(section, writes))
    ensures Unlike(Fold(effective, writes).value, section)
    decreases |writes|
  {
    hide Set, Split, Named, NoAncestor, AncestorOf, Unlike, At, NumericChild, Inside;
    if writes != [] {
      TailSame(section, writes);
      var w := writes[0];
      if Unlike(effective, section) || NumericChild(section, w.key) {
        UnlikeStep(effective, section, w);
      } else {
        NullElsewhere(effective, section, w);
      }
      StaysUnlike(Set(effective, Split(w.key), w.value).value, section, writes[1..]);
    }
  }

  /** What the effective tree holds at the section is the section's own fold, started from what was held there. */
  lemma EffectiveIsOwnFold(effective: Tree, tree: Tree, section: string, writes: seq<Write>)
    requires IsContainer(effective) && tree.Table? && Named(section) && NoAncestor(section, writes)
    requires Fold(effective, writes).Ok? && SectionFold(tree, section, writes).Ok?
    requires SectionOf(effective, section).Table? && (At(effective, section).Null? ==> !StartsNumeric(section, writes))
    ensures SectionFold(SectionOf(effective, section), section, writes) == Ok(SectionOf(Fold(effective, writes).value, section))
  {
    AcceptedAreTables(tree, section, writes);
    if At(effective, section).Null? {
      SectionSucceedsFrom(effective, Table(map[]), section, writes);
      AgreementFrom(effective, Table(map[]), section, writes);
    } else {
      AgreeAlways(effective, At(effective, section), section, writes);
    }
  }

  lemma AgreementAfter(effective: Tree, tree: Tree, section: string, writes: seq<Write>)
    requires IsContainer(effective) && tree.Table? && Named(section) && NoAncestor(section, writes)
    requires Fold(effective, writes).Ok? && SectionFold(tree, section, writes).Ok?
    ensures SectionFold(tree, section, writes).value == SectionOf(Fold(effective, writes).value, section) <==>
            Assigned(section, writes) || StillAgree(At(effective, section), tree, section, writes)
  {
    hide Fold, SectionFold, Named, NoAncestor, Get, Split, StartsNumeric, Assigned;
    SectionFoldIsTable(tree, section, writes);
    if Assigned(section, writes) {
      AssignedAgree(effective, tree, section, writes);
    } else if SectionOf(effective, section).Table? && (At(effective, section).Null? ==> !StartsNumeric(section, writes)) {
      EffectiveIsOwnFold(effective, tree, section, writes);
    } else {
      StaysUnlike(effective, section, writes);
    }
  }

  lemma {:induction false} SectionFoldIsTable(tree: Tree, section: string, writes: seq<Write>)
    requires tree.Table? && SectionFold(tree, section, writes).Ok?
    ensures SectionFold(tree, section, writes).value.Table?
    decreases |writes|
  {
    hide SectionStep;
    if writes != [] { SectionFoldIsTable(SectionStep(tree, section, writes[0]).value, section, writes[1..]); }
  }

  /**
   * The writes to the section, folded over what is held at it and over its own tree, come to the same. What is held must be a
   * table, or nothing at all if the section does not then start as a numeric child.
   */
  predicate StillAgree(held: Tree, own: Tree, section: string, writes: seq<Write>)
    requires own.Table?
  {
    var start := if held.Null? then Table(map[]) else held;
    && start.Table? && (held.Null? ==> !StartsNumeric(section, writes))
    && SectionFold(start, section, writes) == SectionFold(own, section, writes)
  }

  /**
   * Whatever the writes, a section's own tree is the section of the effective tree exactly when, after the last write to an
   * ancestor, either the section is assigned, or its later writes make the same of what that ancestor's value holds at the
   * section as of the section's own earlier tree. Without an ancestor nothing is held and the own tree is empty, and it
   * comes down to not starting as a numeric child (`AgreementWithoutAncestors`).
   */
  lemma SectionAgreement(section: string, writes: seq<Write>)
    requires Named(section) && Fold(Table(map[]), writes).Ok? && SectionFold(Table(map[]), section, writes).Ok?
    ensures var n := AncestorsEnd(section, writes);
            var own := SectionFold(Table(map[]), section, writes[..n]);
            && own.Ok? && own.value.Table?
            && (SectionFold(Table(map[]), section, writes).value == SectionOf(Fold(Table(map[]), writes).value, section) <==>
                  Assigned(section, writes[n..]) || StillAgree(HeldAfter(section, writes[..n]), own.value, section, writes[n..]))
  {
    var n := AncestorsEnd(section, writes);
    var before, after := writes[..n], writes[n..];
    assert writes == before + after;
    assert n > 0 ==> before[|before| - 1] == writes[n - 1];
    hide AncestorsEnd, Fold, SectionFold, Named, StillAgree, Assigned, HeldAfter;
    FoldConcat(Table(map[]), before, after);
    SectionFoldConcat(Table(map[]), section, before, after);
    HeldAtAncestor(section, before);
    AgreementAfter(Fold(Table(map[]), before).value, SectionFold(Table(map[]), section, before).value, section, after);
  }

  /** A later write reaches the section: it assigns it or goes inside. */
  predicate Reached(section: string, writes: seq<Write>) {
    exists w :: w in writes && Reaches(section, w.key)
  }

  lemma {:induction false} UnreachedStays(tree: Tree, section: string, writes: seq<Write>)
    requires tree.Table? && !Reached(section, writes)
    ensures SectionFold(tree, section, writes) == Ok(tree) && !StartsNumeric(section, writes) && !Assigned(section, writes)
    decreases |writes|
  {
    if writes != [] {
      assert writes[0] in writes;
      assert forall w :: w in writes[1..] ==> w in writes;
      UnreachedStays(tree, section, writes[1..]);
    }
  }

  /** When an ancestor is written last, the two agree exactly when its value holds the section's own tree, or nothing and that is empty. */
  lemma AncestorLast(section: string, writes: seq<Write>)
    requires Named(section) && Fold(Table(map[]), writes).Ok? && SectionFold(Table(map[]), section, writes).Ok?
    requires !Reached(section, writes[AncestorsEnd(section, writes)..])
    ensures var held := HeldAfter(section, writes[..AncestorsEnd(section, writes)]);
            SectionFold(Table(map[]), section, writes).value == SectionOf(Fold(Table(map[]), writes).value, section) <==>
            SectionFold(Table(map[]), section, writes).value == if held.Null? then Table(map[]) else held
  {
    var n := AncestorsEnd(section, writes);
    var own := SectionFold(Table(map[]), section, writes[..n]);
    var held := HeldAfter(section, writes[..n]);
    assert writes == writes[..n] + writes[n..];
    SectionAgreement(section, writes);
    SectionFoldConcat(Table(map[]), section, writes[..n], writes[n..]);
    hide AncestorsEnd, Fold, SectionFold, Named, Reached, HeldAfter;
    UnreachedStays(own.value, section, writes[n..]);
    var start := if held.Null? then Table(map[]) else held;
    if start.Table? { UnreachedStays(start, section, writes[n..]); }
  }

  lemma NumericParts()
    ensures Split("models.0") == ["models", "0"] && Split("models.0"[7..]) == ["0"]
    ensures Inside("models", "models.0") && IsIndex("0") && IndexOf("0") == Some(0)
  {
    hide Split;
    assert "models" + "." == "models." && "models.0"[..7] == "models." && "models.0"[7..] == "0";
    InsideParts("models", "models.0");
    SplitOne("models");
    SplitOne("0");
    Decimal.ReadWritten(0);
    AsciiIndex("0");
  }

  lemma SetOne(node: Tree, part: string, value: Tree)
    requires node.Table? || (node.Items? && IndexOf(part).Some?)
    ensures Set(node, [part], value) == Ok(Put(node, part, value))
  {
  }

  /** The smallest disagreement: one element of a list, given by its index. */
  lemma NumericChildDisagrees(value: Tree)
    ensures var writes := [Write("models.0", value)];
            && Fold(Table(map[]), writes) == Ok(Table(map["models" := Items([value])]))
            && SectionFold(Table(map[]), "models", writes) == Ok(Table(map["0" := value]))
  {
    hide Split, Inside;
    NumericParts();
    var writes, parts := [Write("models.0", value)], ["models", "0"];
    assert parts[1..] == ["0"] && writes[1..] == [];
    SetOne(Items([]), "0", value);
    SetOne(Table(map[]), "0", value);
    assert Put(Items([]), "0", value) == Items([value]);
    assert Set(Table(map[]), parts, value) == Ok(Table(map["models" := Items([value])]));
    hide Set, Put;
    PutTable(value);
    assert SectionStep(Table(map[]), "models", writes[0]) == Ok(Table(map["0" := value]));
  }

  lemma PutTable(value: Tree)
    ensures Put(Table(map[]), "0", value) == Table(map["0" := value])
  {
  }

  lemma ProviderParts()
    ensures Split("llm") == ["llm"] && Split("llm.providers") == ["llm", "providers"] && Named("llm.providers")
    ensures AncestorOf("llm", "llm.providers") && "llm.providers"[4..] == "providers" && !Inside("llm.providers", "llm")
    ensures Split("llm.providers.x") == ["llm", "providers", "x"] && Split("llm.providers.x.y") == ["llm", "providers", "x", "y"]
    ensures Inside("llm.providers", "llm.providers.x") && "llm.providers.x"[14..] == "x" && Split("x") == ["x"]
    ensures Inside("llm.providers", "llm.providers.x.y") && "llm.providers.x.y"[14..] == "x.y" && Split("x.y") == ["x", "y"]
    ensures !IsIndex("x") && !IsIndex("y") && !IsIndex("providers") && !IsIndex("llm")
  {
    hide Split, IsIndex;
    NameIsNoIndex("llm");
    NameIsNoIndex("providers");
    NameIsNoIndex("x");
    NameIsNoIndex("y");
    SplitOne("llm");
    SplitOne("providers");
    SplitOne("x");
    SplitOne("y");
    assert "llm" + "." == "llm." && "llm.providers" == "llm." + "providers";
    assert "llm.providers" + "." == "llm.providers." && "llm.providers.x" == "llm.providers." + "x" && "x" + "." + "y" == "x.y";
    assert "llm.providers.x.y" == "llm.providers." + "x.y";
    SplitConcat("llm", "providers");
    SplitConcat("llm.providers", "x");
    SplitConcat("x", "y");
    SplitConcat("llm.providers", "x.y");
  }

  /** A table given for an ancestor reaches the effective tree and not the section's own. */
  lemma AncestorDisagrees(value: Tree)
    requires value.Table?
    ensures var writes := [Write("llm", Table(map["providers" := value]))];
            && Fold(Table(map[]), writes).Ok? && At(Fold(Table(map[]), writes).value, "llm.providers") == value
            && SectionFold(Table(map[]), "llm.providers", writes) == Ok(Table(map[]))
  {
    hide Split, Inside, Get, Set;
    var held := Table(map["providers" := value]);
    var w := Write("llm", held);
    ProviderParts();
    SetOne(Table(map[]), "llm", held);
    FoldOne(Table(map[]), w);
    WriteAbove(Table(map[]), "llm.providers", w);
    SplitOne("providers");
    assert ["providers"][1..] == [];
    assert Get(held, ["providers"]) == value by { GetOne(held, "providers"); }
    assert [w][1..] == [];
  }

  lemma GetOne(node: Tree, part: string)
    ensures Get(node, [part]) == Child(node, part)
  {
    assert [part][1..] == [];
  }

  /** An ancestor can also wipe out, in the effective tree alone, the value a later child key would fail at. */
  lemma AncestorHidesFailure(a: string, b: string)
    ensures var writes := [Write("llm.providers.x", Scalar(a)), Write("llm", Table(map[])), Write("llm.providers.x.y", Scalar(b))];
            && OnlyTables("llm.providers", writes) && !StartsNumeric("llm.providers", writes)
            && Fold(Table(map[]), writes).Ok? && SectionFold(Table(map[]), "llm.providers", writes) == Raised(BelowScalar)
  {
    var empty, x := Table(map[]), Write("llm.providers.x", Scalar(a));
    var wipe, y := Write("llm", Table(map[])), Write("llm.providers.x.y", Scalar(b));
    var writes := [x, wipe, y];
    ProviderParts();
    hide Split, Inside, IsIndex;
    assert writes[1..] == [wipe, y] && [wipe, y][1..] == [y];
    NamesSucceed(["llm", "providers", "x"], Scalar(a));
    SetOne(empty, "x", Scalar(a));
    var own := Put(empty, "x", Scalar(a));
    assert Child(own, "x") == Scalar(a);
    assert Set(own, ["x", "y"], Scalar(b)) == Raised(BelowScalar);
    var e := Set(empty, ["llm", "providers", "x"], Scalar(a)).value;
    StaysTable(empty, ["llm", "providers", "x"], Scalar(a));
    SetOne(e, "llm", empty);
    var wiped := Put(e, "llm", empty);
    assert Child(wiped, "llm") == empty;
    NamesSucceedBelow(wiped, ["llm", "providers", "x", "y"], Scalar(b));
    hide Set, Put, Child;
    FoldOne(wiped, y);
    assert SectionFold(own, "llm.providers", [wipe, y]) == SectionFold(own, "llm.providers", [y]);
    assert SectionFold(own, "llm.providers", [y]) == Raised(BelowScalar);
  }

  /** Writing by names alone never fails in an empty table. */
  lemma {:induction false} NamesSucceed(parts: seq<string>, value: Tree)
    requires parts != [] && forall part :: part in parts ==> !IsIndex(part)
    ensures Set(Table(map[]), parts, value).Ok?
  {
    assert Child(Table(map[]), parts[0]) == Null;
    if |parts| > 1 { NamesSucceed(parts[1..], value); }
  }

  /** Nor below an entry that is an empty table. */
  lemma NamesSucceedBelow(tree: Tree, parts: seq<string>, value: Tree)
    requires |parts| > 1 && (forall part :: part in parts ==> !IsIndex(part)) && tree.Table? && Child(tree, parts[0]) == Table(map[])
    ensures Set(tree, parts, value).Ok?
  {
    NamesSucceed(parts[1..], value);
  }

  lemma SectionsAreNamed(section: string)
    requires IsSection(section)
    ensures Named(section)
  {
    forall part | part in Split(section) ensures !IsIndex(part) {
      assert IsSnake(part) && Lower(part[0]);
      NameIsNoIndex(part);
    }
  }

  // ---------- Sections that do not overlap ----------

  predicate Reaches(section: string, key: string) {
    key == section || Inside(section, key)
  }

  function Without(writes: seq<Write>, section: string): seq<Write> {
    if writes == [] then []
    else (if Reaches(section, writes[0].key) then [] else [writes[0]]) + Without(writes[1..], section)
  }

  lemma ReachedPrefix(section: string, key: string)
    ensures Reaches(section, key) <==>
            |section| <= |key| && key[..|section|] == section && (|section| < |key| ==> key[|section|] == '.')
  {
    if |section| < |key| && key[..|section|] == section && key[|section|] == '.' {
      assert key[..|section| + 1] == section + ".";
    }
  }

  lemma ReachesOneOnly(left: string, right: string, key: string)
    requires !ScopesOverlap(left, right) && Reaches(left, key)
    ensures !Reaches(right, key)
  {
    ReachedPrefix(left, key);
    ReachedPrefix(right, key);
    ReachedPrefix(left, right);
    ReachedPrefix(right, left);
  }

  /** Plugins whose sections do not overlap never see each other's configuration. */
  lemma {:induction false} SectionsAreIsolated(tree: Tree, mine: string, other: string, writes: seq<Write>)
    requires tree.Table? && !ScopesOverlap(mine, other)
    ensures SectionFold(tree, mine, Without(writes, other)) == SectionFold(tree, mine, writes)
    decreases |writes|
  {
    if writes != [] {
      var w, rest := writes[0], Without(writes[1..], other);
      if Reaches(other, w.key) {
        ReachesOneOnly(other, mine, w.key);
        assert Without(writes, other) == rest;
        SectionsAreIsolated(tree, mine, other, writes[1..]);
      } else {
        assert Without(writes, other) == [w] + rest && ([w] + rest)[1..] == rest;
        if SectionStep(tree, mine, w).Ok? {
          SectionsAreIsolated(SectionStep(tree, mine, w).value, mine, other, writes[1..]);
        }
      }
    }
  }

  lemma StaysTable(tree: Tree, parts: seq<string>, value: Tree)
    requires tree.Table? && parts != []
    ensures Set(tree, parts, value).Ok? ==> Set(tree, parts, value).value.Table?
  {
  }
}
