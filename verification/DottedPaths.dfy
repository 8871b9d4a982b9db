/** Dotted names: splitting at the dots, joining with them, and which of two names reaches into the other. */
module DottedPaths {

  /** The parts between the dots; a name without a dot is its own only part. */
  function Split(name: string): (parts: seq<string>)
    ensures parts != []
  {
    if name == "" then [""]
    else
      var rest := Split(name[1..]);
      if name[0] == '.' then [""] + rest else [[name[0]] + rest[0]] + rest[1..]
  }

  function Join(parts: seq<string>): string
    requires parts != []
  {
    if |parts| == 1 then parts[0] else parts[0] + "." + Join(parts[1..])
  }

  predicate DotFree(part: string) {
    '.' !in part
  }

  lemma {:induction false} SplitOne(part: string)
    requires DotFree(part)
    ensures Split(part) == [part]
  {
    if part != "" {
      assert part == [part[0]] + part[1..];
      SplitOne(part[1..]);
    }
  }

  function PutFirst(c: char, parts: seq<string>): seq<string>
    requires parts != []
  {
    if c == '.' then [""] + parts else [[c] + parts[0]] + parts[1..]
  }

  lemma SplitStep(c: char, rest: string)
    ensures Split([c] + rest) == PutFirst(c, Split(rest))
  {
    assert ([c] + rest)[1..] == rest;
  }

  lemma JoinOne(part: string)
    ensures Join([part]) == part
  {
  }

  lemma PutFirstJoins(c: char, parts: seq<string>)
    requires parts != []
    ensures Join(PutFirst(c, parts)) == [c] + Join(parts)
    ensures (forall part :: part in parts ==> DotFree(part)) ==> forall part :: part in PutFirst(c, parts) ==> DotFree(part)
  {
    if c == '.' {
      assert ([""] + parts)[1..] == parts;
    } else {
      assert PutFirst(c, parts)[1..] == parts[1..] && parts[0] in parts;
    }
  }

  lemma {:induction false} JoinOfSplit(name: string)
    ensures Join(Split(name)) == name
    ensures forall part :: part in Split(name) ==> DotFree(part)
  {
    hide Join;
    if name == "" {
      JoinOne("");
    } else {
      JoinOfSplit(name[1..]);
      SplitStep(name[0], name[1..]);
      PutFirstJoins(name[0], Split(name[1..]));
      assert name == [name[0]] + name[1..];
    }
  }

  lemma PutFirstConcat(c: char, left: seq<string>, right: seq<string>)
    requires left != []
    ensures PutFirst(c, left + right) == PutFirst(c, left) + right
  {
    assert (left + right)[1..] == left[1..] + right;
  }

  /** A dot in between splits a name into the parts on its two sides. */
  lemma {:induction false} SplitConcat(left: string, right: string)
    ensures Split(left + "." + right) == Split(left) + Split(right)
  {
    if left == "" {
      SplitStep('.', right);
      assert left + "." + right == ['.'] + right;
    } else {
      SplitConcat(left[1..], right);
      hide Split, PutFirst;
      assert left == [left[0]] + left[1..];
      assert left + "." + right == [left[0]] + (left[1..] + "." + right);
      SplitStep(left[0], left[1..] + "." + right);
      SplitStep(left[0], left[1..]);
      PutFirstConcat(left[0], Split(left[1..]), Split(right));
    }
  }

  lemma {:induction false} JoinConcat(left: seq<string>, right: seq<string>)
    requires left != [] && right != []
    ensures Join(left + right) == Join(left) + "." + Join(right)
  {
    assert (left + right)[1..] == left[1..] + right;
    if |left| > 1 {
      JoinConcat(left[1..], right);
    } else {
      assert left[1..] + right == right;
    }
  }

  // ---------- Overlapping scopes ----------

  predicate ScopesOverlap(left: string, right: string) {
    left == right || left + "." <= right || right + "." <= left
  }

  lemma ReachesInto(left: string, right: string)
    ensures left + "." <= right <==> Split(left) < Split(right)
  {
    if left + "." <= right {
      var rest := right[|left| + 1..];
      assert right == left + "." + rest;
      SplitConcat(left, rest);
    }
    if Split(left) < Split(right) {
      var l, r := Split(left), Split(right);
      assert r == l + r[|l|..];
      JoinConcat(l, r[|l|..]);
      JoinOfSplit(left);
      JoinOfSplit(right);
    }
  }

  /** Two configuration scopes overlap exactly when one's parts are the beginning of the other's. */
  lemma OverlapIsPrefix(left: string, right: string)
    ensures ScopesOverlap(left, right) <==> Split(left) <= Split(right) || Split(right) <= Split(left)
  {
    ReachesInto(left, right);
    ReachesInto(right, left);
    if Split(left) == Split(right) {
      JoinOfSplit(left);
      JoinOfSplit(right);
    }
  }

  // ---------- Well-formed names ----------

  predicate Lower(c: char) { 'a' <= c <= 'z' }

  /** A lower_snake_case identity. */
  predicate IsSnake(s: string) {
    s != "" && Lower(s[0]) && forall c :: c in s ==> Lower(c) || '0' <= c <= '9' || c == '_'
  }

  /** A configuration section: dotted lower_snake_case. */
  predicate IsSection(s: string) {
    forall part :: part in Split(s) ==> IsSnake(part)
  }
}
