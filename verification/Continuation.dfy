/**
 * The opaque continuation token: canonical JSON of an owner-bound position, base64url, and a digest of the body.
 * The digest is any function from bytes to 64 hex digits; nothing here needs it to be free of collisions.
 */
module Continuation {
  import opened Wrappers
  import opened Decimal
  import opened Utf8
  import Base64Url
  import opened Json
  import JsonReader
  import opened FloatText

  datatype Reason = Invalid | Mismatch | OutOfRange | ContentChanged | BudgetTooSmall | InvalidLimit

  datatype Position = Position(index: nat, offset: nat, digest: string)

  const START := Position(0, 0, "")

  datatype Codec = Codec(owner: string, operation: string, sha: seq<byte> -> string, floats: Floats)

  predicate IsHex64(s: string) {
    |s| == 64 && forall i :: 0 <= i < |s| ==> IsDigit(s[i]) || 'a' <= s[i] <= 'f'
  }

  ghost predicate HexDigests(sha: seq<byte> -> string) {
    forall bs :: IsHex64(sha(bs))
  }

  predicate IsItemDigest(s: string) {
    |s| == 71 && s[..7] == "sha256:" && IsHex64(s[7..])
  }

  function ItemDigest(sha: seq<byte> -> string, text: string): string {
    "sha256:" + sha(Utf8.Encode(text))
  }

  /** A fragment position names the content it cuts; a whole-item position names none. */
  predicate ValidPosition(p: Position) {
    if p.offset > 0 then IsItemDigest(p.digest) else p.digest == ""
  }

  // ---------- Encoding ----------

  function PositionValue(p: Position): Json {
    Obj([Member("char_offset", Int(p.offset)), Member("item_digest", Str(p.digest)), Member("item_index", Int(p.index))])
  }

  function TokenValue(c: Codec, p: Position, ref: string, binding: seq<Member>): Json {
    Obj([
      Member("binding", Obj(binding)),
      Member("operation", Str(c.operation)),
      Member("owner", Str(c.owner)),
      Member("position", PositionValue(p)),
      Member("ref", Str(ref)),
      Member("version", Int(1))
    ])
  }

  function TokenBody(c: Codec, p: Position, ref: string, binding: seq<Member>): seq<byte> {
    Utf8.Encode(Dumps(TokenValue(c, p, ref, binding)))
  }

  function EncodeToken(c: Codec, p: Position, ref: string, binding: seq<Member>): string {
    var body := TokenBody(c, p, ref, binding);
    "v1." + Base64Url.Write(body) + "." + c.sha(body)
  }

  // ---------- Decoding ----------

  /** The text before and after the first dot. */
  function CutAtDot(s: string): Option<(string, string)> {
    if s == [] then None
    else if s[0] == '.' then Some(("", s[1..]))
    else
      match CutAtDot(s[1..])
      case None => None
      case Some((before, after)) => Some(([s[0]] + before, after))
  }

  /** The JSON value a token carries, once its shape, version, digest, UTF-8 and JSON all read. */
  function TokenPayload(c: Codec, token: string): Option<Json> {
    match CutAtDot(token)
    case None => None
    case Some((prefix, tail)) =>
      match CutAtDot(tail)
      case None => None
      case Some((encoded, digest)) =>
        if prefix != "v1" then None
        else
          match Base64Url.Read(encoded)
          case None => None
          case Some(body) =>
            if c.sha(body) != digest then None
            else
              match Utf8.Decode(body)
              case None => None
              case Some(text) => JsonReader.Loads(text)
  }

  predicate IsNumber(v: Json) {
    v.Bool? || v.Int? || v.Float?
  }

  /** The number a boolean, an integer or a float counts as. */
  function NumberOf(f: Floats, v: Json): FloatValue
    requires IsNumber(v)
  {
    match v
    case Bool(b) => Finite(if b then 1.0 else 0.0)
    case Int(n) => Finite(n as real)
    case Float(text) => ValueOf(f, text)
  }

  /** Python's `==` on JSON values: numbers compare by value, whatever their type, and NaN equals only itself if shared. */
  predicate SameValue(f: Floats, a: Json, b: Json) {
    match (a, b)
    case (Arr(xs), Arr(ys)) => |xs| == |ys| && forall i :: 0 <= i < |xs| ==> SameValue(f, xs[i], ys[i])
    case (Obj(ms), Obj(ns)) =>
      |ms| == |ns| && forall i :: 0 <= i < |ms| ==> ms[i].key == ns[i].key && SameValue(f, ms[i].value, ns[i].value)
    case _ =>
      if IsNumber(a) && IsNumber(b) then
        NumberOf(f, a) == NumberOf(f, b) && (NumberOf(f, a).NotANumber? ==> f.sharedNaN)
      else a == b
  }

  function GetOrNull(ms: seq<Member>, key: string): Json {
    match Get(ms, key)
    case None => Null
    case Some(v) => v
  }

  predicate Truthy(f: Floats, v: Json) {
    match v
    case Null => false
    case Bool(b) => b
    case Int(n) => n != 0
    case Float(text) => ValueOf(f, text) != Finite(0.0)
    case Str(s) => s != ""
    case Arr(items) => items != []
    case Obj(members) => members != []
  }

  function ReadPosition(f: Floats, v: Json): Outcome<Position, Reason> {
    if !v.Obj? || Keys(v.members) != {"item_index", "char_offset", "item_digest"} then
      Raised(Invalid)
    else
      var index, offset := GetOrNull(v.members, "item_index"), GetOrNull(v.members, "char_offset");
      var digest := GetOrNull(v.members, "item_digest");
      if !index.Int? || index.n < 0 || !offset.Int? || offset.n < 0 then Raised(Invalid)
      else if offset.n > 0 then
        if digest.Str? && IsItemDigest(digest.s) then Ok(Position(index.n, offset.n, digest.s)) else Raised(Invalid)
      else if Truthy(f, digest) then Raised(Invalid)
      else Ok(Position(index.n, 0, ""))
  }

  function DecodeToken(c: Codec, token: Option<string>, ref: string, binding: seq<Member>): (r: Outcome<Position, Reason>)
    ensures r.Ok? ==> ValidPosition(r.value)
  {
    if token.None? then Ok(START)
    else if token.value == "" then Raised(Invalid)
    else
      match TokenPayload(c, token.value)
      case None => Raised(Invalid)
      case Some(raw) =>
        if !raw.Obj? then Raised(Invalid)
        else if !(&& SameValue(c.floats, GetOrNull(raw.members, "version"), Int(1))
                  && SameValue(c.floats, GetOrNull(raw.members, "owner"), Str(c.owner))
                  && SameValue(c.floats, GetOrNull(raw.members, "operation"), Str(c.operation))
                  && SameValue(c.floats, GetOrNull(raw.members, "ref"), Str(ref))
                  && SameValue(c.floats, GetOrNull(raw.members, "binding"), Obj(binding))) then Raised(Mismatch)
        else ReadPosition(c.floats, GetOrNull(raw.members, "position"))
  }

  // ---------- Round trip ----------

  lemma {:induction false} CutAfter(s: string, rest: string)
    requires forall i :: 0 <= i < |s| ==> s[i] != '.'
    ensures CutAtDot(s + "." + rest) == Some((s, rest))
  {
    var t := s + "." + rest;
    if s == [] {
      assert t[1..] == rest;
    } else {
      assert t[1..] == s[1..] + "." + rest;
      CutAfter(s[1..], rest);
      assert [s[0]] + s[1..] == s;
    }
  }

  lemma KeyOrder()
    ensures Less("char_offset", "item_digest") && Less("item_digest", "item_index")
    ensures Less("binding", "operation") && Less("operation", "owner") && Less("owner", "position")
    ensures Less("position", "ref") && Less("ref", "version")
  {
    LessAfter("item_", "digest", "index");
    LessAfter("o", "peration", "wner");
    assert "item_" + "digest" == "item_digest" && "item_" + "index" == "item_index";
    assert "o" + "peration" == "operation" && "o" + "wner" == "owner";
  }

  lemma PositionKeysSorted(p: Position)
    ensures Sorted(PositionValue(p).members) && JsonReader.Exact(PositionValue(p))
  {
    hide Less;
    KeyOrder();
    SortedChain(PositionValue(p).members);
  }

  lemma TokenKeysSorted(c: Codec, p: Position, ref: string, binding: seq<Member>)
    requires JsonReader.Exact(Obj(binding))
    ensures Sorted(TokenValue(c, p, ref, binding).members) && JsonReader.Exact(TokenValue(c, p, ref, binding))
  {
    hide Less;
    KeyOrder();
    PositionKeysSorted(p);
    SortedChain(TokenValue(c, p, ref, binding).members);
  }

  lemma {:induction false} LessAfter(common: string, a: string, b: string)
    requires Less(a, b)
    ensures Less(common + a, common + b)
  {
    if common == [] {
      assert common + a == a && common + b == b;
    } else {
      assert (common + a)[1..] == common[1..] + a && (common + b)[1..] == common[1..] + b;
      LessAfter(common[1..], a, b);
    }
  }

  lemma PayloadOfToken(c: Codec, p: Position, ref: string, binding: seq<Member>)
    requires JsonReader.Exact(Obj(binding))
    ensures EncodeToken(c, p, ref, binding) != ""
    ensures TokenPayload(c, EncodeToken(c, p, ref, binding)) == Some(TokenValue(c, p, ref, binding))
  {
    hide Dumps, JsonReader.Exact, Sorted, JsonReader.Loads, Base64Url.Write, Base64Url.Read, Utf8.Encode, Utf8.Decode;
    var value := TokenValue(c, p, ref, binding);
    var body := TokenBody(c, p, ref, binding);
    var encoded, digest := Base64Url.Write(body), c.sha(body);
    Base64Url.WriteShape(body);
    assert EncodeToken(c, p, ref, binding) == "v1" + "." + (encoded + "." + digest);
    CutAfter("v1", encoded + "." + digest);
    CutAfter(encoded, digest);
    Base64Url.ReadWritten(body);
    Utf8.DecodeEncode(Dumps(value));
    TokenKeysSorted(c, p, ref, binding);
    JsonReader.LoadsDumps(value);
  }

  lemma PositionKeys(p: Position)
    ensures Keys(PositionValue(p).members) == {"item_index", "char_offset", "item_digest"}
  {
    var ms := PositionValue(p).members;
    assert ms[0].key == "char_offset" && ms[1].key == "item_digest" && ms[2].key == "item_index";
  }

  lemma ReadPositionValue(f: Floats, p: Position)
    requires ValidPosition(p)
    ensures ReadPosition(f, PositionValue(p)) == Ok(p)
  {
    hide Keys, Get, Less, IsItemDigest;
    var ms := PositionValue(p).members;
    PositionKeys(p);
    PositionKeysSorted(p);
    GetAt(ms, 0);
    GetAt(ms, 1);
    GetAt(ms, 2);
  }

  lemma TokenFields(c: Codec, p: Position, ref: string, binding: seq<Member>)
    requires JsonReader.Exact(Obj(binding))
    ensures var ms := TokenValue(c, p, ref, binding).members;
            && Get(ms, "binding") == Some(Obj(binding)) && Get(ms, "operation") == Some(Str(c.operation))
            && Get(ms, "owner") == Some(Str(c.owner)) && Get(ms, "position") == Some(PositionValue(p))
            && Get(ms, "ref") == Some(Str(ref)) && Get(ms, "version") == Some(Int(1))
  {
    hide Less, Get;
    var ms := TokenValue(c, p, ref, binding).members;
    TokenKeysSorted(c, p, ref, binding);
    forall i: nat | i < |ms| ensures Get(ms, ms[i].key) == Some(ms[i].value) { GetAt(ms, i); }
    assert ms[0].key == "binding" && ms[1].key == "operation" && ms[2].key == "owner";
    assert ms[3].key == "position" && ms[4].key == "ref" && ms[5].key == "version";
  }

  /**
   * A token decodes to the very position it was made from, under exactly the owner, operation, reference and binding
   * it was made for; under any others it is a mismatch, never a wrong position.
   */
  lemma DecodeEncoded(c: Codec, p: Position, ref: string, binding: seq<Member>,
                      owner': string, operation': string, ref': string, binding': seq<Member>)
    requires ValidPosition(p) && JsonReader.Exact(Obj(binding))
    ensures DecodeToken(c.(owner := owner', operation := operation'), Some(EncodeToken(c, p, ref, binding)), ref', binding')
         == if owner' == c.owner && operation' == c.operation && ref' == ref && SameValue(c.floats, Obj(binding), Obj(binding'))
            then Ok(p) else Raised(Mismatch)
  {
    hide EncodeToken, ReadPosition, Get, PositionValue, NumberOf;
    var c' := c.(owner := owner', operation := operation');
    PayloadOfToken(c, p, ref, binding);
    assert TokenPayload(c', EncodeToken(c, p, ref, binding)) == TokenPayload(c, EncodeToken(c, p, ref, binding));
    TokenFields(c, p, ref, binding);
    ReadPositionValue(c.floats, p);
    SameVersion(c.floats);
  }

  lemma SameVersion(f: Floats)
    ensures SameValue(f, Int(1), Int(1))
  {
  }

  // ---------- Which bindings a token takes for its own ----------

  /** A value with its numbers reduced to what they count as. */
  datatype Normal = Plain(v: Json) | Number(value: FloatValue) | Items(items: seq<Normal>) | Members(keys: seq<string>, values: seq<Normal>)

  function Normalize(f: Floats, v: Json): Normal {
    match v
    case Arr(items) => Items(seq(|items|, i requires 0 <= i < |items| => Normalize(f, items[i])))
    case Obj(ms) =>
      Members(seq(|ms|, i requires 0 <= i < |ms| => ms[i].key), seq(|ms|, i requires 0 <= i < |ms| => Normalize(f, ms[i].value)))
    case Bool(_) => Number(NumberOf(f, v))
    case Int(_) => Number(NumberOf(f, v))
    case Float(_) => Number(NumberOf(f, v))
    case Null => Plain(v)
    case Str(_) => Plain(v)
  }

  predicate NaNFree(f: Floats, v: Json) {
    match v
    case Arr(items) => forall i :: 0 <= i < |items| ==> NaNFree(f, items[i])
    case Obj(ms) => forall i :: 0 <= i < |ms| ==> NaNFree(f, ms[i].value)
    case Float(text) => !ValueOf(f, text).NotANumber?
    case Null => true
    case Bool(_) => true
    case Int(_) => true
    case Str(_) => true
  }

  /** Two values are taken for equal exactly when they normalise alike and hold no NaN, unless NaN is shared. */
  lemma {:induction false} SameValueExactly(f: Floats, a: Json, b: Json)
    ensures SameValue(f, a, b) <==> Normalize(f, a) == Normalize(f, b) && (f.sharedNaN || NaNFree(f, a))
    decreases a, 1
  {
    hide NumberOf, ValueOf;
    match a
    case Arr(xs) =>
      if b.Arr? { SameItems(f, xs, b.items); }
    case Obj(ms) =>
      if b.Obj? { SameMembers(f, ms, b.members); }
    case Null =>
    case Str(_) =>
    case Bool(_) => FiniteNumber(f, a);
    case Int(_) => FiniteNumber(f, a);
    case Float(_) => FiniteNumber(f, a);
  }

  lemma FiniteNumber(f: Floats, v: Json)
    requires IsNumber(v)
    ensures NumberOf(f, v).NotANumber? <==> !NaNFree(f, v)
  {
    hide ValueOf;
  }

  lemma {:induction false} SameItems(f: Floats, xs: seq<Json>, ys: seq<Json>)
    ensures SameValue(f, Arr(xs), Arr(ys)) <==>
            Normalize(f, Arr(xs)) == Normalize(f, Arr(ys)) && (f.sharedNaN || NaNFree(f, Arr(xs)))
    decreases xs, 0
  {
    var ns, ms := Normalize(f, Arr(xs)).items, Normalize(f, Arr(ys)).items;
    if |xs| == |ys| {
      forall i | 0 <= i < |xs|
        ensures SameValue(f, xs[i], ys[i]) <==> ns[i] == ms[i] && (f.sharedNaN || NaNFree(f, xs[i]))
      {
        SameValueExactly(f, xs[i], ys[i]);
      }
    } else {
      assert |ns| != |ms|;
    }
  }

  lemma {:induction false} SameMembers(f: Floats, xs: seq<Member>, ys: seq<Member>)
    ensures SameValue(f, Obj(xs), Obj(ys)) <==>
            Normalize(f, Obj(xs)) == Normalize(f, Obj(ys)) && (f.sharedNaN || NaNFree(f, Obj(xs)))
    decreases xs, 0
  {
    var n, m := Normalize(f, Obj(xs)), Normalize(f, Obj(ys));
    if |xs| == |ys| {
      forall i | 0 <= i < |xs|
        ensures SameValue(f, xs[i].value, ys[i].value) <==> n.values[i] == m.values[i] && (f.sharedNaN || NaNFree(f, xs[i].value))
      {
        SameValueExactly(f, xs[i].value, ys[i].value);
      }
      assert n == m <==> (forall i :: 0 <= i < |xs| ==> n.keys[i] == m.keys[i] && n.values[i] == m.values[i]);
    } else {
      assert |n.keys| != |m.keys|;
    }
  }

  /** A token accepts its own binding exactly when that holds no NaN, or the NaN it is compared with is the shared one. */
  lemma OwnBindingAccepted(f: Floats, v: Json)
    ensures SameValue(f, v, v) <==> f.sharedNaN || NaNFree(f, v)
  {
    SameValueExactly(f, v, v);
  }

  /** No booleans and no floats: every number is an integer. */
  predicate IntegersOnly(v: Json) {
    match v
    case Bool(_) => false
    case Float(_) => false
    case Arr(items) => forall i :: 0 <= i < |items| ==> IntegersOnly(items[i])
    case Obj(members) => forall i :: 0 <= i < |members| ==> IntegersOnly(members[i].value)
    case Null => true
    case Int(_) => true
    case Str(_) => true
  }

  /** Among bindings whose numbers are all integers, a token distinguishes every two. */
  lemma {:induction false} SameValueIsEquality(f: Floats, a: Json, b: Json)
    requires IntegersOnly(a) && IntegersOnly(b)
    ensures SameValue(f, a, b) <==> a == b
  {
    match a
    case Arr(xs) =>
      if b.Arr? && |xs| == |b.items| {
        forall i | 0 <= i < |xs| ensures SameValue(f, xs[i], b.items[i]) <==> xs[i] == b.items[i] { SameValueIsEquality(f, xs[i], b.items[i]); }
      }
    case Obj(ms) =>
      if b.Obj? && |ms| == |b.members| {
        forall i | 0 <= i < |ms| ensures SameValue(f, ms[i].value, b.members[i].value) <==> ms[i].value == b.members[i].value {
          SameValueIsEquality(f, ms[i].value, b.members[i].value);
        }
      }
    case Null =>
    case Int(_) =>
    case Str(_) =>
  }

  /** Otherwise it need not: generation 1, generation true and generation 1.0 accept one another's tokens. */
  lemma NumberBindingsCollide(c: Codec, p: Position, ref: string)
    requires ValidPosition(p) && c.floats.round(1.0) == Finite(1.0)
    ensures var one, yes, float :=
              [Member("generation", Int(1))], [Member("generation", Bool(true))], [Member("generation", Float("1.0"))];
            && one != yes && one != float
            && DecodeToken(c, Some(EncodeToken(c, p, ref, one)), ref, yes) == Ok(p)
            && DecodeToken(c, Some(EncodeToken(c, p, ref, one)), ref, float) == Ok(p)
  {
    hide EncodeToken, DecodeToken, UnsignedDecimal;
    var one, yes, float := [Member("generation", Int(1))], [Member("generation", Bool(true))], [Member("generation", Float("1.0"))];
    DecodeEncoded(c, p, ref, one, c.owner, c.operation, ref, yes);
    DecodeEncoded(c, p, ref, one, c.owner, c.operation, ref, float);
    OnePointZero();
    assert one[0].value.Int? && yes[0].value.Bool? && float[0].value.Float?;
    assert SameValue(c.floats, Int(1), Bool(true)) && SameValue(c.floats, Int(1), Float("1.0"));
  }
}
