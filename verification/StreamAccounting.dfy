/** How a stream of delivered records and gap markers stands for the records a subscription accepted. */
module StreamAccounting {
  import opened Wrappers

  datatype Event = Event(name: string, level: nat, turn: Option<string>)

  datatype Filter = Filter(level: nat, names: seq<string>, turnId: string) {
    predicate Accepts(e: Event) {
      && e.level <= level
      && (names == [] || e.name in names)
      && (turnId == "" || e.turn == Some(turnId))
    }
  }

  datatype Record = Record(sequence: nat, event: Event)

  datatype Gap = Gap(first: nat, last: nat, count: nat)

  /** The bounds the gap's constructor insists on. */
  predicate GapAllowed(g: Gap) {
    1 <= g.count && g.count + g.first <= g.last + 1 && 1 <= g.first
  }

  /** What one read yields. */
  datatype Item = Delivered(record: Record) | Lost(gap: Gap)

  /** The gap after losing one more record. */
  function Extended(gap: Option<Gap>, sequence: nat): Gap {
    match gap
    case None => Gap(sequence, sequence, 1)
    case Some(g) => Gap(g.first, sequence, g.count + 1)
  }

  function Weight(item: Item): nat {
    if item.Delivered? then 1 else item.gap.count
  }

  /** One item stands for exactly these accepted records. */
  predicate StandsFor(item: Item, records: seq<Record>) {
    |records| == Weight(item) > 0
    && (item.Delivered? ==> records[0] == item.record)
    && (item.Lost? ==> records[0].sequence == item.gap.first && records[|records| - 1].sequence == item.gap.last)
  }

  /** The items, in order, stand for the records, in order, with none left over. */
  predicate Explains(items: seq<Item>, records: seq<Record>) {
    if items == [] then records == []
    else
      var w := Weight(items[0]);
      w <= |records| && StandsFor(items[0], records[..w]) && Explains(items[1..], records[w..])
  }

  predicate Increasing(records: seq<Record>) {
    forall i, j :: 0 <= i < j < |records| ==> records[i].sequence < records[j].sequence
  }

  function Latest(records: seq<Record>): nat {
    if records == [] then 0 else records[|records| - 1].sequence
  }

  lemma {:induction false} ExplainsConcat(a: seq<Item>, x: seq<Record>, b: seq<Item>, y: seq<Record>)
    requires Explains(a, x) && Explains(b, y)
    ensures Explains(a + b, x + y)
  {
    if a == [] {
      assert a + b == b && x + y == y;
    } else {
      var w := Weight(a[0]);
      ExplainsConcat(a[1..], x[w..], b, y);
      assert (a + b)[1..] == a[1..] + b;
      assert (x + y)[..w] == x[..w] && (x + y)[w..] == x[w..] + y;
    }
  }

  lemma ExplainsMore(items: seq<Item>, first: seq<Record>, rest: seq<Record>)
    requires items != [] && StandsFor(items[0], first) && Explains(items[1..], rest)
    ensures Explains(items, first + rest)
  {
    var w, all := |first|, first + rest;
    assert all[..w] == first && all[w..] == rest;
  }

  lemma ConcatTail<T>(a: seq<T>, b: seq<T>)
    requires a != []
    ensures a + b != [] && (a + b)[0] == a[0] && (a + b)[1..] == a[1..] + b
  {
  }

  lemma Regroup<T>(a: seq<T>, b: seq<T>, c: seq<T>)
    ensures a + (b + c) == (a + b) + c
  {
  }

  /** The first item takes its share of the records. */
  lemma ExplainsFirst(items: seq<Item>, records: seq<Record>)
    requires items != [] && Explains(items, records)
    ensures var w := Weight(items[0]);
            w <= |records| && StandsFor(items[0], records[..w]) && Explains(items[1..], records[w..])
  {
  }

  lemma {:induction false} ExplainsSplit(a: seq<Item>, b: seq<Item>, z: seq<Record>) returns (x: seq<Record>, y: seq<Record>)
    requires Explains(a + b, z)
    ensures z == x + y && Explains(a, x) && Explains(b, y)
  {
    if a == [] {
      assert a + b == b;
      x, y := [], z;
    } else {
      hide Explains, StandsFor, Weight;
      ConcatTail(a, b);
      ExplainsFirst(a + b, z);
      var first, rest := z[..Weight(a[0])], z[Weight(a[0])..];
      assert z == first + rest;
      x, y := ExplainsSplit(a[1..], b, rest);
      ExplainsMore(a, first, x);
      Regroup(first, x, y);
      x := first + x;
    }
  }

  lemma ExplainsOne(item: Item, records: seq<Record>)
    ensures Explains([item], records) <==> StandsFor(item, records)
  {
    assert [item][1..] == [];
    var w := Weight(item);
    if StandsFor(item, records) {
      assert records[..w] == records && records[w..] == [];
    }
    if Explains([item], records) {
      assert Explains([], records[w..]);
      assert records == records[..w] + records[w..];
    }
  }

  lemma ExplainsMiddle(a: seq<Item>, b: seq<Item>, c: seq<Item>, z: seq<Record>)
    returns (u: seq<Record>, v: seq<Record>, w: seq<Record>)
    requires Explains(a + (b + c), z)
    ensures z == u + (v + w) && Explains(a, u) && Explains(b, v) && Explains(c, w)
  {
    hide Explains;
    var rest;
    u, rest := ExplainsSplit(a, b + c, z);
    v, w := ExplainsSplit(b, c, rest);
  }

  lemma MergeTwo(gap: Option<Gap>, lost: Record, records: seq<Record>)
    requires Explains((if gap.Some? then [Lost(gap.value)] else []) + [Delivered(lost)], records)
    ensures StandsFor(Lost(Extended(gap, lost.sequence)), records)
  {
    hide Explains;
    ExplainsOne(Delivered(lost), records);
    if gap.Some? {
      var x, y := ExplainsSplit([Lost(gap.value)], [Delivered(lost)], records);
      ExplainsOne(Lost(gap.value), x);
      ExplainsOne(Delivered(lost), y);
    } else {
      assert [] + [Delivered(lost)] == [Delivered(lost)];
    }
  }

  /** A lost record joins the gap right before it. */
  lemma Merge(before: seq<Item>, gap: Option<Gap>, lost: Record, after: seq<Item>, records: seq<Record>)
    requires Explains(before + (((if gap.Some? then [Lost(gap.value)] else []) + [Delivered(lost)]) + after), records)
    ensures Explains(before + ([Lost(Extended(gap, lost.sequence))] + after), records)
  {
    hide Explains;
    var g := if gap.Some? then [Lost(gap.value)] else [];
    var u, v, w := ExplainsMiddle(before, g + [Delivered(lost)], after, records);
    MergeTwo(gap, lost, v);
    var merged := Lost(Extended(gap, lost.sequence));
    ExplainsOne(merged, v);
    ExplainsConcat([merged], v, after, w);
    ExplainsConcat(before, u, [merged] + after, v + w);
  }

  // ---------- What a gap says ----------

  function CountWithin(records: seq<Record>, first: nat, last: nat): nat {
    if records == [] then 0
    else (if first <= records[0].sequence <= last then 1 else 0) + CountWithin(records[1..], first, last)
  }

  lemma {:induction false} CountConcat(x: seq<Record>, y: seq<Record>, first: nat, last: nat)
    ensures CountWithin(x + y, first, last) == CountWithin(x, first, last) + CountWithin(y, first, last)
  {
    if x == [] {
      assert x + y == y;
    } else {
      assert (x + y)[1..] == x[1..] + y;
      CountConcat(x[1..], y, first, last);
    }
  }

  lemma {:induction false} CountAll(records: seq<Record>, first: nat, last: nat)
    requires forall i :: 0 <= i < |records| ==> first <= records[i].sequence <= last
    ensures CountWithin(records, first, last) == |records|
  {
    if records != [] { CountAll(records[1..], first, last); }
  }

  lemma {:induction false} CountNone(records: seq<Record>, first: nat, last: nat)
    requires forall i :: 0 <= i < |records| ==> !(first <= records[i].sequence <= last)
    ensures CountWithin(records, first, last) == 0
  {
    if records != [] { CountNone(records[1..], first, last); }
  }

  /**
   * A gap's interval holds exactly its count of accepted records, and the items around it, delivered records and
   * other gaps alike, stand for records outside that interval.
   */
  lemma GapIsExact(before: seq<Item>, g: Gap, after: seq<Item>, records: seq<Record>)
    requires Increasing(records) && Explains(before + ([Lost(g)] + after), records)
    ensures CountWithin(records, g.first, g.last) == g.count
    ensures forall item :: item in before + after && item.Delivered? ==> !(g.first <= item.record.sequence <= g.last)
  {
    hide Explains;
    var x, y, z := ExplainsMiddle(before, [Lost(g)], after, records);
    ExplainsOne(Lost(g), y);
    OutsideIsOutside(x, y, z, g);
    CountConcat(x, y + z, g.first, g.last);
    CountConcat(y, z, g.first, g.last);
    CountAll(y, g.first, g.last);
    CountNone(x, g.first, g.last);
    CountNone(z, g.first, g.last);
    forall item | item in before + after && item.Delivered?
      ensures !(g.first <= item.record.sequence <= g.last)
    {
      if item in before { DeliveredIsRecord(before, x, item); } else { DeliveredIsRecord(after, z, item); }
    }
  }

  lemma OutsideIsOutside(x: seq<Record>, y: seq<Record>, z: seq<Record>, g: Gap)
    requires Increasing(x + (y + z)) && StandsFor(Lost(g), y)
    ensures forall i :: 0 <= i < |x| ==> x[i].sequence < g.first
    ensures forall i :: 0 <= i < |y| ==> g.first <= y[i].sequence <= g.last
    ensures forall i :: 0 <= i < |z| ==> z[i].sequence > g.last
  {
    var all := x + (y + z);
    assert all[|x|] == y[0] && all[|x| + |y| - 1] == y[|y| - 1];
    forall i | 0 <= i < |x| ensures x[i].sequence < g.first { assert all[i] == x[i]; }
    forall i | 0 <= i < |y| ensures g.first <= y[i].sequence <= g.last { assert all[|x| + i] == y[i]; }
    forall i | 0 <= i < |z| ensures z[i].sequence > g.last { assert all[|x| + |y| + i] == z[i]; }
  }

  lemma {:induction false} DeliveredIsRecord(items: seq<Item>, records: seq<Record>, item: Item)
    requires Explains(items, records) && item in items && item.Delivered?
    ensures item.record in records
  {
    var w := Weight(items[0]);
    if items[0] == item {
      assert records[..1][0] == records[0];
    } else {
      DeliveredIsRecord(items[1..], records[w..], item);
    }
  }
}
