/** Dotted writes into a mixed tree of tables and lists: what each write changes, and what it leaves alone. */
module ConfigTree {
  import opened Wrappers
  import opened DigitClass

  /** `Null` is both an explicit null and the padding of a list; an absent entry reads the same. */
  datatype Tree = Null | Scalar(text: string) | Table(fields: map<string, Tree>) | Items(elements: seq<Tree>)

  datatype ConfigError = BelowScalar | NotAnIndex | BadIndex | ScalarSection | EmptySection

  predicate IsContainer(t: Tree) {
    t.Table? || t.Items?
  }

  /** Whether two parts name the same entry: tables compare names, lists compare numbers, in whatever script they are. */
  predicate SameSlot(node: Tree, a: string, b: string) {
    match node
    case Items(_) => IndexOf(a).Some? && IndexOf(a) == IndexOf(b)
    case Table(_) => a == b
    case Null => a == b
    case Scalar(_) => a == b
  }

  function Child(node: Tree, part: string): Tree {
    match node
    case Table(fields) => if part in fields then fields[part] else Null
    case Items(elements) => if IndexOf(part).Some? && IndexOf(part).value < |elements| then elements[IndexOf(part).value] else Null
    case Null => Null
    case Scalar(_) => Null
  }

  function Nulls(n: nat): seq<Tree> {
    seq(n, _ => Null)
  }

  /** The entry replaced; a list grows with nulls up to it. */
  function Put(node: Tree, part: string, child: Tree): Tree
    requires node.Table? || (node.Items? && IndexOf(part).Some?)
  {
    match node
    case Table(fields) => Table(fields[part := child])
    case Items(elements) =>
      var i := IndexOf(part).value;
      var padded := if i < |elements| then elements else elements + Nulls(i + 1 - |elements|);
      Items(padded[i := child])
  }

  /** The container created on the way to a part that does not exist yet. */
  function Fresh(next: string): Tree {
    if IsIndex(next) then Items([]) else Table(map[])
  }

  function Enter(node: Tree, next: string): Tree {
    if node.Null? then Fresh(next) else node
  }

  function Set(node: Tree, parts: seq<string>, value: Tree): (r: Outcome<Tree, ConfigError>)
    requires IsContainer(node) && parts != []
    ensures r.Ok? ==> IsContainer(r.value)
    decreases |parts|
  {
    if node.Items? && !IsIndex(parts[0]) then Raised(NotAnIndex)
    else if node.Items? && IndexOf(parts[0]).None? then Raised(BadIndex)
    else if |parts| == 1 then Ok(Put(node, parts[0], value))
    else
      var child := Enter(Child(node, parts[0]), parts[1]);
      if child.Scalar? then Raised(BelowScalar)
      else
        match Set(child, parts[1..], value)
        case Ok(t) => Ok(Put(node, parts[0], t))
        case Raised(e) => Raised(e)
  }

  function Get(node: Tree, parts: seq<string>): Tree
    decreases |parts|
  {
    if parts == [] then node else Get(Child(node, parts[0]), parts[1..])
  }

  // ---------- What a write changes ----------

  lemma ChildOfPut(node: Tree, a: string, x: Tree, b: string)
    requires node.Table? || (node.Items? && IndexOf(a).Some?)
    ensures Child(Put(node, a, x), b) == if SameSlot(node, a, b) then x else Child(node, b)
  {
  }

  lemma {:induction false} NothingInside(node: Tree, parts: seq<string>)
    requires node.Null? || node.Scalar? || node == Table(map[]) || node == Items([])
    requires parts != []
    ensures Get(node, parts) == Null
    decreases |parts|
  {
    assert Child(node, parts[0]) == Null;
    if |parts| > 1 { NothingInside(Null, parts[1..]); }
  }

  /** Where a read path `q` lies with respect to a written path `p`, in the tree the write starts from. */
  datatype Relation =
    | Apart
    | Under(below: seq<string>)
    | Over(above: seq<string>)

  function Relate(node: Tree, p: seq<string>, q: seq<string>): (r: Relation)
    ensures r.Over? ==> r.above != [] && |r.above| <= |p|
    decreases |p|
  {
    if p == [] then Under(q)
    else if q == [] then Over(p)
    else if SameSlot(node, p[0], q[0]) then
      Relate(if |p| == 1 then Null else Enter(Child(node, p[0]), p[1]), p[1..], q[1..])
    else Apart
  }

  lemma SameSlotSameChild(node: Tree, a: string, b: string)
    requires SameSlot(node, a, b)
    ensures Child(node, a) == Child(node, b)
  {
  }

  /**
   * Every read after a write: at or below the written path it reads the value; above it, the old subtree with the rest
   * of the path written into it; anywhere else, what was there before.
   */
  lemma {:induction false} GetAfterSet(node: Tree, p: seq<string>, value: Tree, q: seq<string>)
    requires IsContainer(node) && p != [] && Set(node, p, value).Ok?
    ensures var t := Set(node, p, value).value;
            match Relate(node, p, q)
            case Apart => Get(t, q) == Get(node, q)
            case Under(below) => Get(t, q) == Get(value, below)
            case Over(above) =>
              var start := Enter(Get(node, q), above[0]);
              IsContainer(start) && Set(start, above, value) == Ok(Get(t, q))
    decreases |p|
  {
    if q != [] {
      var child := if |p| == 1 then value else Set(Enter(Child(node, p[0]), p[1]), p[1..], value).value;
      assert Set(node, p, value).value == Put(node, p[0], child);
      ChildOfPut(node, p[0], child, q[0]);
      if SameSlot(node, p[0], q[0]) {
        SameSlotSameChild(node, p[0], q[0]);
        if |p| > 1 {
          var inner := Enter(Child(node, p[0]), p[1]);
          GetAfterSet(inner, p[1..], value, q[1..]);
          assert Get(Set(node, p, value).value, q) == Get(child, q[1..]);
          assert Get(node, q) == Get(Child(node, p[0]), q[1..]);
          if q[1..] != [] && Child(node, p[0]).Null? {
            NothingInside(inner, q[1..]);
            NothingInside(Null, q[1..]);
          }
        } else {
          assert p[1..] == [];
          assert Relate(node, p, q) == Relate(Null, [], q[1..]);
        }
      }
    }
  }

  /** A successful write reads back. */
  lemma SetThenGet(node: Tree, p: seq<string>, value: Tree)
    requires IsContainer(node) && p != [] && Set(node, p, value).Ok?
    ensures Get(Set(node, p, value).value, p) == value
  {
    RelateSelf(node, p, value, []);
    assert p + [] == p;
    GetAfterSet(node, p, value, p);
  }

  lemma {:induction false} RelateSelf(node: Tree, p: seq<string>, value: Tree, rest: seq<string>)
    requires p != [] ==> IsContainer(node) && Set(node, p, value).Ok?
    ensures Relate(node, p, p + rest) == Under(rest)
    decreases |p|
  {
    if p == [] {
      assert p + rest == rest;
    } else if |p| == 1 {
      assert (p + rest)[1..] == rest;
    } else {
      assert (p + rest)[1..] == p[1..] + rest;
      RelateSelf(Enter(Child(node, p[0]), p[1]), p[1..], value, rest);
    }
  }

  // ---------- When a write fails ----------

  /** A write can go on from what stands here: not from a plain value, and into a list only at an index. */
  predicate GoesOn(here: Tree, part: string) {
    !here.Scalar? && (here.Items? || (here.Null? && IsIndex(part)) ==> IndexOf(part).Some?)
  }

  /** A write succeeds exactly when it can go on from everything it passes, as that stands before the write. */
  lemma {:induction false} SetSucceedsExactly(node: Tree, parts: seq<string>, value: Tree)
    requires IsContainer(node) && parts != []
    ensures Set(node, parts, value).Ok? <==> forall i | 0 <= i < |parts| :: GoesOn(Get(node, parts[..i]), parts[i])
    decreases |parts|
  {
    hide Put;
    assert Get(node, parts[..0]) == node;
    if |parts| > 1 {
      var here, rest := Child(node, parts[0]), parts[1..];
      var child := Enter(here, rest[0]);
      forall i | 0 <= i < |rest| ensures GoesOn(Get(child, rest[..i]), rest[i]) <==> GoesOn(Get(node, parts[..i + 1]), parts[i + 1]) {
        GoesOnInside(node, parts, i);
      }
      assert forall i | 0 < i < |parts| :: GoesOn(Get(node, parts[..i]), parts[i]) <==> GoesOn(Get(child, rest[..i - 1]), rest[i - 1]);
      hide Get, GoesOn;
      if IsContainer(child) { SetSucceedsExactly(child, rest, value); }
    }
  }

  lemma GoesOnInside(node: Tree, parts: seq<string>, i: nat)
    requires i < |parts| - 1
    ensures var rest := parts[1..];
            GoesOn(Get(Enter(Child(node, parts[0]), rest[0]), rest[..i]), rest[i]) <==> GoesOn(Get(node, parts[..i + 1]), parts[i + 1])
  {
    var here, rest := Child(node, parts[0]), parts[1..];
    assert parts[..i + 1][1..] == rest[..i];
    if here.Null? && i > 0 {
      NothingInside(Enter(here, rest[0]), rest[..i]);
      NothingInside(Null, rest[..i]);
    }
  }

  /** A list grows exactly up to the index written, and nothing else does. */
  lemma PutGrowsExactly(node: Tree, part: string, child: Tree)
    requires node.Table? || (node.Items? && IndexOf(part).Some?)
    ensures match Put(node, part, child)
            case Items(after) =>
              node.Items? && var i := IndexOf(part).value; |after| == if i < |node.elements| then |node.elements| else i + 1
            case Table(after) => node.Table? && after.Keys == node.fields.Keys + {part}
            case Null => false
            case Scalar(_) => false
  {
  }

  // ---------- The walk itself ----------

  /** The containers walked through, outermost first, each with the part taken out of it. */
  function Rebuild(trail: seq<(Tree, string)>, inner: Tree): Tree
    requires forall step :: step in trail ==> step.0.Table? || (step.0.Items? && IndexOf(step.1).Some?)
    decreases |trail|
  {
    if trail == [] then inner
    else
      var last := trail[|trail| - 1];
      Rebuild(trail[..|trail| - 1], Put(last.0, last.1, inner))
  }

  function Lift(trail: seq<(Tree, string)>, r: Outcome<Tree, ConfigError>): Outcome<Tree, ConfigError>
    requires forall step :: step in trail ==> step.0.Table? || (step.0.Items? && IndexOf(step.1).Some?)
  {
    match r
    case Ok(t) => Ok(Rebuild(trail, t))
    case Raised(e) => Raised(e)
  }

  /** The descent part by part, creating what is missing, with the containers on the way put back together at the end. */
  method SetDotted(tree: Tree, parts: seq<string>, value: Tree) returns (r: Outcome<Tree, ConfigError>)
    requires tree.Table? && parts != []
    ensures r == Set(tree, parts, value)
  {
    hide IsIndex, IndexOf, Put, Child;
    var current := tree;
    var trail: seq<(Tree, string)> := [];
    var index := 0;
    assert parts[0..] == parts;
    while index < |parts| - 1
      invariant 0 <= index < |parts| && IsContainer(current)
      invariant forall step :: step in trail ==> step.0.Table? || (step.0.Items? && IndexOf(step.1).Some?)
      invariant Set(tree, parts, value) == Lift(trail, Set(current, parts[index..], value))
    {
      var part, next := parts[index], parts[index + 1];
      assert parts[index..][1..] == parts[index + 1..];
      if current.Items? && !IsIndex(part) {
        return Raised(NotAnIndex);
      }
      if current.Items? && IndexOf(part).None? {
        return Raised(BadIndex);
      }
      var existing := Child(current, part);
      if existing.Scalar? {
        return Raised(BelowScalar);
      }
      var longer := trail + [(current, part)];
      assert longer[..|trail|] == trail;
      trail := longer;
      current := Enter(existing, next);
      index := index + 1;
    }
    assert parts[index..] == [parts[index]];
    if current.Items? && !IsIndex(parts[index]) {
      return Raised(NotAnIndex);
    }
    if current.Items? && IndexOf(parts[index]).None? {
      return Raised(BadIndex);
    }
    return Ok(Rebuild(trail, Put(current, parts[index], value)));
  }
}
