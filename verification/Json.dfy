/**
 * JSON values and their canonical text: compact, keys sorted, only quotes, backslashes and control characters
 * escaped (section 7 of RFC 8259). An object is kept as its key-sorted member list: the writer sorts and dictionary
 * equality ignores order, so nothing here can observe insertion order. A float is kept as the text it is written with.
 */
module Json {
  import opened Wrappers
  import opened Decimal

  datatype Json =
    | Null
    | Bool(b: bool)
    | Int(n: int)
    | Float(text: string)
    | Str(s: string)
    | Arr(items: seq<Json>)
    | Obj(members: seq<Member>)

  datatype Member = Member(key: string, value: Json)

  // ---------- Objects ----------

  /** Code point order, as strings compare in the source. */
  predicate Less(a: string, b: string) {
    b != [] && (a == [] || a[0] < b[0] || (a[0] == b[0] && Less(a[1..], b[1..])))
  }

  predicate Sorted(ms: seq<Member>) {
    forall i, j :: 0 <= i < j < |ms| ==> Less(ms[i].key, ms[j].key)
  }

  function Put(ms: seq<Member>, key: string, value: Json): seq<Member> {
    if ms == [] then [Member(key, value)]
    else if ms[0].key == key then [Member(key, value)] + ms[1..]
    else if Less(key, ms[0].key) then [Member(key, value)] + ms
    else [ms[0]] + Put(ms[1..], key, value)
  }

  function Get(ms: seq<Member>, key: string): Option<Json> {
    if ms == [] then None
    else if ms[0].key == key then Some(ms[0].value)
    else Get(ms[1..], key)
  }

  predicate Has(ms: seq<Member>, key: string) {
    Get(ms, key).Some?
  }

  function Keys(ms: seq<Member>): set<string> {
    set i | 0 <= i < |ms| :: ms[i].key
  }

  lemma {:induction false} LessAsymmetric(a: string, b: string)
    ensures !(Less(a, b) && Less(b, a)) && !Less(a, a)
  {
    if a != [] && b != [] { LessAsymmetric(a[1..], b[1..]); }
    if a != [] { LessAsymmetric(a[1..], a[1..]); }
  }

  lemma {:induction false} LessTransitive(a: string, b: string, c: string)
    requires Less(a, b) && Less(b, c)
    ensures Less(a, c)
  {
    if a != [] && a[0] == b[0] == c[0] { LessTransitive(a[1..], b[1..], c[1..]); }
  }

  lemma {:induction false} LessTotal(a: string, b: string)
    ensures a == b || Less(a, b) || Less(b, a)
  {
    if a != [] && b != [] && a[0] == b[0] {
      LessTotal(a[1..], b[1..]);
      assert a == [a[0]] + a[1..] && b == [b[0]] + b[1..];
    }
  }

  lemma {:induction false} GetPut(ms: seq<Member>, key: string, value: Json, other: string)
    ensures Get(Put(ms, key, value), other) == if other == key then Some(value) else Get(ms, other)
  {
    if ms != [] {
      var r := Put(ms, key, value);
      if ms[0].key != key && !Less(key, ms[0].key) {
        GetPut(ms[1..], key, value, other);
        assert r[1..] == Put(ms[1..], key, value);
      } else if ms[0].key != key {
        assert r[1..] == ms;
        if other == key { assert Get(r, other) == Some(value); }
      }
    }
  }

  lemma {:induction false} SortedChain(ms: seq<Member>)
    requires forall i :: 0 <= i < |ms| - 1 ==> Less(ms[i].key, ms[i + 1].key)
    ensures Sorted(ms)
  {
    if |ms| > 1 {
      SortedChain(ms[1..]);
      forall j | 1 <= j < |ms|
        ensures Less(ms[0].key, ms[j].key)
      {
        if j > 1 {
          assert ms[1..][0] == ms[1] && ms[1..][j - 1] == ms[j];
          LessTransitive(ms[0].key, ms[1].key, ms[j].key);
        }
      }
      forall i, j | 0 <= i < j < |ms|
        ensures Less(ms[i].key, ms[j].key)
      {
        if i > 0 { assert ms[1..][i - 1] == ms[i] && ms[1..][j - 1] == ms[j]; }
      }
    }
  }

  lemma {:induction false} GetAt(ms: seq<Member>, i: nat)
    requires i < |ms| && Sorted(ms)
    ensures Get(ms, ms[i].key) == Some(ms[i].value)
  {
    if i > 0 {
      assert Less(ms[0].key, ms[i].key);
      LessAsymmetric(ms[0].key, ms[i].key);
      GetAt(ms[1..], i - 1);
    }
  }

  /** Every member of the result is the new one or an old one. */
  lemma {:induction false} PutMembers(ms: seq<Member>, key: string, value: Json, i: nat)
    requires i < |Put(ms, key, value)|
    ensures Put(ms, key, value)[i] == Member(key, value) || Put(ms, key, value)[i] in ms
  {
    if ms != [] && ms[0].key != key && !Less(key, ms[0].key) && i > 0 {
      PutMembers(ms[1..], key, value, i - 1);
    }
  }

  lemma {:induction false} PutSorted(ms: seq<Member>, key: string, value: Json)
    requires Sorted(ms)
    ensures Sorted(Put(ms, key, value))
  {
    var r := Put(ms, key, value);
    if ms == [] || ms[0].key == key {
    } else if Less(key, ms[0].key) {
      forall i, j | 0 <= i < j < |r|
        ensures Less(r[i].key, r[j].key)
      {
        if i == 0 && j > 1 { LessTransitive(key, ms[0].key, ms[j - 1].key); }
      }
    } else {
      LessTotal(key, ms[0].key);
      PutSorted(ms[1..], key, value);
      forall i, j | 0 <= i < j < |r|
        ensures Less(r[i].key, r[j].key)
      {
        if i == 0 {
          PutMembers(ms[1..], key, value, j - 1);
        } else {
          assert r[i] == Put(ms[1..], key, value)[i - 1] && r[j] == Put(ms[1..], key, value)[j - 1];
        }
      }
    }
  }

  /** Members arriving in key order are simply appended. */
  lemma {:induction false} PutLast(ms: seq<Member>, key: string, value: Json)
    requires forall i :: 0 <= i < |ms| ==> Less(ms[i].key, key)
    ensures Put(ms, key, value) == ms + [Member(key, value)]
  {
    if ms != [] {
      LessAsymmetric(ms[0].key, key);
      PutLast(ms[1..], key, value);
      assert ms == [ms[0]] + ms[1..];
    }
  }

  // ---------- Writing ----------

  const BACKSPACE: char := 8 as char
  const FORM_FEED: char := 12 as char

  predicate IsControl(c: char) {
    c < ' '
  }

  predicate NoControl(s: string) {
    forall i :: 0 <= i < |s| ==> !IsControl(s[i])
  }

  function HexChar(n: nat): char
    requires n < 16
  {
    if n < 10 then DigitChar(n) else (n - 10 + 'a' as int) as char
  }

  function EscapeChar(c: char): (s: string)
    ensures 1 <= |s| <= 6 && NoControl(s)
    ensures !IsControl(c) ==> |s| <= 2
  {
    if c == '"' then "\\\""
    else if c == '\\' then "\\\\"
    else if c == '\n' then "\\n"
    else if c == '\r' then "\\r"
    else if c == '\t' then "\\t"
    else if c == BACKSPACE then "\\b"
    else if c == FORM_FEED then "\\f"
    else if IsControl(c) then "\\u00" + [HexChar(c as int / 16), HexChar(c as int % 16)]
    else [c]
  }

  function Escape(s: string): (t: string)
    ensures NoControl(t)
  {
    if s == [] then [] else EscapeChar(s[0]) + Escape(s[1..])
  }

  function DumpsString(s: string): (t: string)
    ensures NoControl(t)
  {
    "\"" + Escape(s) + "\""
  }

  function IntText(n: int): string {
    if n < 0 then "-" + NatText(-n) else NatText(n)
  }

  function Dumps(v: Json): string
    decreases v, 1
  {
    match v
    case Null => "null"
    case Bool(b) => if b then "true" else "false"
    case Int(n) => IntText(n)
    case Float(text) => text
    case Str(s) => DumpsString(s)
    case Arr(items) => "[" + DumpsItems(items) + "]"
    case Obj(members) => "{" + DumpsMembers(members) + "}"
  }

  function DumpsItems(vs: seq<Json>): string
    decreases vs, 0
  {
    if vs == [] then ""
    else if |vs| == 1 then Dumps(vs[0])
    else Dumps(vs[0]) + "," + DumpsItems(vs[1..])
  }

  function DumpsMember(m: Member): string
    decreases m, 1
  {
    DumpsString(m.key) + ":" + Dumps(m.value)
  }

  function DumpsMembers(ms: seq<Member>): string
    decreases ms, 0
  {
    if ms == [] then ""
    else if |ms| == 1 then DumpsMember(ms[0])
    else DumpsMember(ms[0]) + "," + DumpsMembers(ms[1..])
  }

  /** Keys sorted everywhere, and float texts free of control characters. */
  predicate WellFormed(v: Json) {
    match v
    case Float(text) => text != [] && NoControl(text)
    case Arr(items) => forall i :: 0 <= i < |items| ==> WellFormed(items[i])
    case Obj(members) => Sorted(members) && forall i :: 0 <= i < |members| ==> WellFormed(members[i].value)
    case _ => true
  }

  /** Canonical text has no control character, so escaping it again at most doubles each character. */
  lemma {:induction false} DumpsPrintable(v: Json)
    requires WellFormed(v)
    ensures NoControl(Dumps(v)) && Dumps(v) != []
    decreases v, 1
  {
    match v
    case Int(n) =>
      assert NoControl(NatText(if n < 0 then -n else n));
    case Arr(items) =>
      ItemsPrintable(items);
    case Obj(members) =>
      MembersPrintable(members);
    case _ =>
  }

  lemma {:induction false} ItemsPrintable(vs: seq<Json>)
    requires forall i :: 0 <= i < |vs| ==> WellFormed(vs[i])
    ensures NoControl(DumpsItems(vs))
    decreases vs, 0
  {
    if vs != [] {
      DumpsPrintable(vs[0]);
      ItemsPrintable(vs[1..]);
    }
  }

  lemma {:induction false} MembersPrintable(ms: seq<Member>)
    requires forall i :: 0 <= i < |ms| ==> WellFormed(ms[i].value)
    ensures NoControl(DumpsMembers(ms))
    decreases ms, 0
  {
    if ms != [] {
      DumpsPrintable(ms[0].value);
      MembersPrintable(ms[1..]);
    }
  }

  lemma {:induction false} EscapeConcat(s: string, t: string)
    ensures Escape(s + t) == Escape(s) + Escape(t)
  {
    if s == [] {
      assert s + t == t;
    } else {
      assert (s + t)[1..] == s[1..] + t;
      EscapeConcat(s[1..], t);
    }
  }

  /** Extending a string never shortens its escaped form. */
  lemma EscapeGrows(s: string, t: string)
    ensures |Escape(s)| <= |Escape(s + t)|
  {
    EscapeConcat(s, t);
  }
}
