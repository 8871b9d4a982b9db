/** The text of an embedding cache file: how it is written, how it is loaded, and that loading inverts writing. */
module EmbeddingFile {
  import opened Wrappers
  import opened Sequences
  import opened OrderedMap
  import opened EmbeddingResponse
  import Decimal
  import Json
  import JsonReader

  datatype Stored = Stored(digest: string, vector: Vector)

  type Table = seq<Pair<Stored>>

  // ---------- Writing ----------

  function HexText(n: nat): string
    requires n < 0x10000
  {
    [Json.HexChar(n / 4096), Json.HexChar(n / 256 % 16), Json.HexChar(n / 16 % 16), Json.HexChar(n % 16)]
  }

  /** Everything but printable ASCII is escaped, characters beyond the basic plane as a pair. */
  function AsciiChar(c: char): string {
    if ' ' <= c <= '~' || (c < ' ' && |Json.EscapeChar(c)| == 2) then Json.EscapeChar(c)
    else if c as int < 0x10000 then "\\u" + HexText(c as int)
    else
      var n := c as int - 0x10000;
      "\\u" + HexText(0xD800 + n / 1024) + ("\\u" + HexText(0xDC00 + n % 1024))
  }

  function AsciiEscape(s: string): string {
    if s == "" then "" else AsciiChar(s[0]) + AsciiEscape(s[1..])
  }

  function Commas(texts: seq<string>): string {
    if texts == [] then "" else if |texts| == 1 then texts[0] else texts[0] + "," + Commas(texts[1..])
  }

  /** A member, up to the end of its value. */
  function MemberText(key: string, value: string): string {
    "\"" + AsciiEscape(key) + "\":" + value
  }

  function VectorThen(vector: Vector, more: string): string {
    "[" + Commas(vector) + "]" + more
  }

  function QuotedThen(text: string, more: string): string {
    "\"" + AsciiEscape(text) + "\"" + more
  }

  /** The table of one entry followed by more text. */
  function ValueThen(entry: Stored, more: string): string {
    "{" + MemberText("digest", QuotedThen(entry.digest, "," + MemberText("vector", VectorThen(entry.vector, "}" + more))))
  }

  /** An entry followed by more text. */
  function EntryThen(key: string, entry: Stored, more: string): string {
    MemberText(key, ValueThen(entry, more))
  }

  function EntryText(key: string, entry: Stored): string {
    EntryThen(key, entry, "")
  }

  function EntryTexts(entries: Table): seq<string> {
    seq(|entries|, i requires 0 <= i < |entries| => EntryText(entries[i].key, entries[i].value))
  }

  function FileText(entries: Table): string {
    "{" + Commas(EntryTexts(entries)) + "}"
  }

  // ---------- Loading ----------

  /** The members of a table in the order of the text; a repeated key keeps its place and takes the last value. */
  function ReadEntries(s: string, read: seq<Pair<Json.Json>>): Option<(seq<Pair<Json.Json>>, string)>
    decreases |s|
  {
    if s == "" || s[0] != '"' then None
    else
      match JsonReader.ReadString(s[1..])
      case Bad => None
      case Got(key, afterKey) =>
        var colon := JsonReader.SkipSpaces(afterKey);
        if colon == "" || colon[0] != ':' then None
        else
          match JsonReader.ReadValue(JsonReader.SkipSpaces(colon[1..]))
          case Bad => None
          case Got(v, rest) =>
            var t := JsonReader.SkipSpaces(rest);
            if t != "" && t[0] == '}' then Some((Assign(read, key, v), t[1..]))
            else if t != "" && t[0] == ',' then ReadEntries(JsonReader.SkipSpaces(t[1..]), Assign(read, key, v))
            else None
  }

  /** The members of a text that is one table; `None` for any other text. */
  function ReadTable(text: string): Option<seq<Pair<Json.Json>>> {
    var s := JsonReader.SkipSpaces(text);
    if s == "" || s[0] != '{' then None
    else
      var t := JsonReader.SkipSpaces(s[1..]);
      if t != "" && t[0] == '}' then if JsonReader.SkipSpaces(t[1..]) == "" then Some([]) else None
      else
        match ReadEntries(t, [])
        case None => None
        case Some((members, rest)) => if JsonReader.SkipSpaces(rest) == "" then Some(members) else None
  }

  predicate IsInfinite(text: string) {
    text == "NaN" || text == "Infinity" || text == "-Infinity"
  }

  /** The float a JSON number is taken for, as its text; `None` for a boolean, anything else, or a float that is not finite. */
  function ComponentOf(repr: string -> string, v: Json.Json): Option<Component> {
    match v
    case Int(n) => if IsInfinite(repr(Json.IntText(n))) then None else Some(repr(Json.IntText(n)))
    case Float(text) => if IsInfinite(text) || IsInfinite(repr(text)) then None else Some(repr(text))
    case Null => None
    case Bool(_) => None
    case Str(_) => None
    case Arr(_) => None
    case Obj(_) => None
  }

  function ComponentsOf(repr: string -> string, items: seq<Json.Json>): Option<Vector> {
    if items == [] then Some([])
    else
      match (ComponentOf(repr, items[0]), ComponentsOf(repr, items[1..]))
      case (Some(first), Some(rest)) => Some([first] + rest)
      case _ => None
  }

  function StoredOf(repr: string -> string, v: Json.Json): Option<Stored> {
    if !v.Obj? then None
    else
      match (Json.Get(v.members, "digest"), Json.Get(v.members, "vector"))
      case (Some(Str(digest)), Some(Arr(items))) =>
        if items == [] then None
        else (match ComponentsOf(repr, items) case Some(vector) => Some(Stored(digest, vector)) case None => None)
      case _ => None
  }

  function TableOf(repr: string -> string, members: seq<Pair<Json.Json>>): Option<Table> {
    if members == [] then Some([])
    else
      match (StoredOf(repr, members[0].value), TableOf(repr, members[1..]))
      case (Some(first), Some(rest)) => Some([Pair(members[0].key, first)] + rest)
      case _ => None
  }

  /** A file that is missing, too long, or not a table of well-formed entries loads as an empty cache. */
  function Load(repr: string -> string, maxChars: nat, file: Option<string>): Table {
    if file.None? || |file.value| > maxChars then []
    else
      match ReadTable(file.value)
      case None => []
      case Some(members) => (match TableOf(repr, members) case Some(table) => table case None => [])
  }

  // ---------- Loading inverts writing ----------

  /** The text of a finite float, as the writer puts it. */
  predicate IsComponent(repr: string -> string, t: Component) {
    JsonReader.IsFloatText(t) && !IsInfinite(t) && repr(t) == t
  }

  predicate AllComponents(repr: string -> string, v: Vector) {
    forall t :: t in v ==> IsComponent(repr, t)
  }

  predicate Writable(repr: string -> string, entries: Table) {
    Unique(entries) && forall e :: e in entries ==> e.value.vector != [] && AllComponents(repr, e.value.vector)
  }

  lemma HexSum(n: nat)
    requires n < 0x10000
    ensures n / 4096 < 16
    ensures n / 4096 * 4096 + n / 256 % 16 * 256 + n / 16 % 16 * 16 + n % 16 == n
  {
    var tens := n / 16;
    assert n == tens * 16 + n % 16;
    assert n / 256 == tens / 16 && n / 4096 == tens / 256;
  }

  lemma HexReads(n: nat, rest: string)
    requires n < 0x10000
    ensures JsonReader.Hex4(HexText(n) + rest) == Some(n)
  {
    hide Json.HexChar, JsonReader.HexValue;
    HexSum(n);
    HexQuad(n / 4096, n / 256 % 16, n / 16 % 16, n % 16, rest);
  }

  lemma HexQuad(a: nat, b: nat, c: nat, d: nat, rest: string)
    requires a < 16 && b < 16 && c < 16 && d < 16
    ensures JsonReader.Hex4([Json.HexChar(a), Json.HexChar(b), Json.HexChar(c), Json.HexChar(d)] + rest)
         == Some(a * 4096 + b * 256 + c * 16 + d)
  {
    hide Json.HexChar, JsonReader.HexValue;
    HexDigitReads(a);
    HexDigitReads(b);
    HexDigitReads(c);
    HexDigitReads(d);
  }

  lemma HexDigitReads(d: nat)
    requires d < 16
    ensures JsonReader.HexValue(Json.HexChar(d)) == Some(d)
  {
  }

  lemma ReadBasicChar(c: char, more: string)
    requires c as int < 0x10000
    ensures JsonReader.ReadEscape("u" + HexText(c as int) + more) == JsonReader.Got(c, more)
  {
    hide HexText, JsonReader.Hex4;
    var s := "u" + HexText(c as int) + more;
    HexLength(c as int);
    assert s[1..] == HexText(c as int) + more && s[5..] == more;
    HexReads(c as int, more);
  }

  lemma HexLength(n: nat)
    requires n < 0x10000
    ensures |HexText(n)| == 4
  {
  }

  lemma ReadPair(c: char, more: string)
    requires c as int >= 0x10000
    ensures var n := c as int - 0x10000;
            JsonReader.ReadEscape("u" + HexText(0xD800 + n / 1024) + ("\\u" + HexText(0xDC00 + n % 1024)) + more) == JsonReader.Got(c, more)
  {
    hide HexText, JsonReader.Hex4;
    var n := c as int - 0x10000;
    var high, low := 0xD800 + n / 1024, 0xDC00 + n % 1024;
    HexLength(high);
    HexLength(low);
    var s := "u" + HexText(high) + ("\\u" + HexText(low)) + more;
    assert s[1..] == HexText(high) + ("\\u" + HexText(low) + more);
    HexReads(high, "\\u" + HexText(low) + more);
    assert s[5] == '\\' && s[6] == 'u' && s[7..] == HexText(low) + more && s[11..] == more;
    HexReads(low, more);
  }

  lemma ReadBackslash(escape: string, c: char, more: string)
    requires JsonReader.ReadEscape(escape) == JsonReader.Got(c, more)
    ensures JsonReader.ReadString("\\" + escape) == Prepended(c, JsonReader.ReadString(more))
  {
    hide JsonReader.ReadEscape;
    assert ("\\" + escape)[1..] == escape;
  }

  /** One written character is read back as it was. */
  lemma ReadAsciiChar(c: char, more: string)
    ensures JsonReader.ReadString(AsciiChar(c) + more) == Prepended(c, JsonReader.ReadString(more))
  {
    hide HexText, JsonReader.ReadEscape, JsonReader.ReadString, Json.EscapeChar;
    if ' ' <= c <= '~' || (c < ' ' && |Json.EscapeChar(c)| == 2) {
      JsonReader.ReadStringChar(c, more);
    } else if c as int < 0x10000 {
      var hex := HexText(c as int);
      ReadBasicChar(c, more);
      ReadBackslash("u" + hex + more, c, more);
      assert ("\\u" + hex) + more == "\\" + ("u" + hex + more);
    } else {
      var n := c as int - 0x10000;
      var high, low := HexText(0xD800 + n / 1024), HexText(0xDC00 + n % 1024);
      ReadPair(c, more);
      ReadBackslash("u" + high + ("\\u" + low) + more, c, more);
      assert ("\\u" + high + ("\\u" + low)) + more == "\\" + ("u" + high + ("\\u" + low) + more);
    }
  }

  function Prepended(c: char, r: JsonReader.Parsed<string>): JsonReader.Parsed<string> {
    if r.Bad? then r else JsonReader.Got([c] + r.value, r.rest)
  }

  lemma {:induction false} ReadAscii(s: string, rest: string)
    ensures JsonReader.ReadString(AsciiEscape(s) + "\"" + rest) == JsonReader.Got(s, rest)
  {
    hide AsciiChar, JsonReader.ReadEscape;
    if s == "" {
      assert AsciiEscape(s) + "\"" + rest == ['"'] + rest;
    } else {
      var more := AsciiEscape(s[1..]) + "\"" + rest;
      assert AsciiEscape(s) + "\"" + rest == AsciiChar(s[0]) + more;
      ReadAsciiChar(s[0], more);
      ReadAscii(s[1..], rest);
      assert [s[0]] + s[1..] == s;
    }
  }

  lemma ReadMember(key: string, value: string, read: seq<Json.Member>)
    requires value != "" && !JsonReader.IsSpace(value[0])
    ensures JsonReader.ReadMembers(MemberText(key, value), read) == JsonReader.AfterValue(key, JsonReader.ReadValue(value), read)
    ensures MemberText(key, value) != "" && MemberText(key, value)[0] == '"'
  {
    hide JsonReader.ReadString, JsonReader.ReadValue, Json.Put, AsciiEscape;
    var s, after := MemberText(key, value), ":" + value;
    assert s[1..] == AsciiEscape(key) + "\"" + after;
    ReadAscii(key, after);
    assert after[1..] == value;
    assert JsonReader.SkipSpaces(after) == after && JsonReader.SkipSpaces(value) == value;
  }

  function Numbers(vector: Vector): seq<Json.Json> {
    seq(|vector|, i requires 0 <= i < |vector| => Json.Float(vector[i]))
  }

  lemma {:induction false} CommasAreItems(vector: Vector)
    ensures Json.DumpsItems(Numbers(vector)) == Commas(vector)
  {
    if |vector| > 1 {
      assert Numbers(vector)[1..] == Numbers(vector[1..]);
      CommasAreItems(vector[1..]);
    }
  }

  lemma ReadVector(repr: string -> string, vector: Vector, more: string)
    requires AllComponents(repr, vector) && JsonReader.EndsNumber(more)
    ensures JsonReader.ReadValue(VectorThen(vector, more)) == JsonReader.Got(Json.Arr(Numbers(vector)), more)
  {
    hide JsonReader.ReadValue, JsonReader.IsFloatText;
    CommasAreItems(vector);
    forall i | 0 <= i < |vector| ensures JsonReader.Exact(Numbers(vector)[i]) { assert IsComponent(repr, vector[i]); }
    JsonReader.ReadWrittenArray(Numbers(vector), more);
  }

  lemma ReadQuoted(text: string, more: string)
    ensures JsonReader.ReadValue(QuotedThen(text, more)) == JsonReader.Got(Json.Str(text), more)
  {
    hide JsonReader.ReadString, AsciiEscape;
    var s := QuotedThen(text, more);
    assert s[1..] == AsciiEscape(text) + "\"" + more;
    ReadAscii(text, more);
  }

  /** The table an entry is read as. */
  function EntryMembers(entry: Stored): seq<Json.Member> {
    [Json.Member("digest", Json.Str(entry.digest)), Json.Member("vector", Json.Arr(Numbers(entry.vector)))]
  }

  lemma PutBoth(digest: Json.Json, vector: Json.Json)
    ensures Json.Put(Json.Put([], "digest", digest), "vector", vector) == [Json.Member("digest", digest), Json.Member("vector", vector)]
  {
    assert Json.Less("digest", "vector");
    assert [Json.Member("digest", digest)][1..] == [];
  }

  lemma ReadVectorMember(repr: string -> string, vector: Vector, more: string, read: seq<Json.Member>)
    requires AllComponents(repr, vector)
    ensures JsonReader.ReadMembers(MemberText("vector", VectorThen(vector, "}" + more)), read)
         == JsonReader.Got(Json.Obj(Json.Put(read, "vector", Json.Arr(Numbers(vector)))), more)
  {
    hide JsonReader.ReadMembers, JsonReader.ReadValue, Json.Put, Commas, MemberText;
    var after := "}" + more;
    ReadVector(repr, vector, after);
    ReadMember("vector", VectorThen(vector, after), read);
    assert JsonReader.SkipSpaces(after) == after && after[1..] == more;
  }

  lemma ReadDigestMember(digest: string, more: string)
    requires more != "" && !JsonReader.IsSpace(more[0])
    ensures JsonReader.ReadMembers(MemberText("digest", QuotedThen(digest, "," + more)), [])
         == JsonReader.ReadMembers(more, Json.Put([], "digest", Json.Str(digest)))
  {
    hide JsonReader.ReadMembers, JsonReader.ReadValue, Json.Put, AsciiEscape, MemberText;
    var after := "," + more;
    ReadQuoted(digest, after);
    ReadMember("digest", QuotedThen(digest, after), []);
    assert JsonReader.SkipSpaces(after) == after && after[1..] == more && JsonReader.SkipSpaces(more) == more;
  }

  /** The table of an entry reads as what it was written from. */
  lemma ReadEntryValue(repr: string -> string, entry: Stored, more: string)
    requires AllComponents(repr, entry.vector)
    ensures JsonReader.ReadValue(ValueThen(entry, more)) == JsonReader.Got(Json.Obj(EntryMembers(entry)), more)
  {
    hide JsonReader.ReadMembers, JsonReader.ReadValue, Json.Put, MemberText, QuotedThen, VectorThen, Numbers;
    var vector := MemberText("vector", VectorThen(entry.vector, "}" + more));
    var digest := MemberText("digest", QuotedThen(entry.digest, "," + vector));
    MemberStarts("vector", VectorThen(entry.vector, "}" + more));
    MemberStarts("digest", QuotedThen(entry.digest, "," + vector));
    ReadDigestMember(entry.digest, vector);
    ReadVectorMember(repr, entry.vector, more, Json.Put([], "digest", Json.Str(entry.digest)));
    PutBoth(Json.Str(entry.digest), Json.Arr(Numbers(entry.vector)));
    JsonReader.BracketIsRead(digest);
  }

  lemma MemberStarts(key: string, value: string)
    ensures MemberText(key, value) != "" && MemberText(key, value)[0] == '"'
  {
  }

  lemma VectorMore(vector: Vector, more: string)
    ensures VectorThen(vector, "}" + more) == VectorThen(vector, "}" + "") + more
  {
    hide Commas;
  }

  lemma QuotedMore(text: string, member: string, more: string)
    ensures QuotedThen(text, "," + (member + more)) == QuotedThen(text, "," + member) + more
  {
    hide AsciiEscape;
  }

  lemma ValueMore(entry: Stored, more: string)
    ensures ValueThen(entry, more) == ValueThen(entry, "") + more
  {
    hide MemberText, VectorThen, QuotedThen;
    var vector := VectorThen(entry.vector, "}" + "");
    VectorMore(entry.vector, more);
    MemberMore("vector", vector, more);
    var quoted := QuotedThen(entry.digest, "," + MemberText("vector", vector));
    QuotedMore(entry.digest, MemberText("vector", vector), more);
    MemberMore("digest", quoted, more);
    assert "{" + (MemberText("digest", quoted) + more) == ("{" + MemberText("digest", quoted)) + more;
  }

  lemma EntryMore(key: string, entry: Stored, more: string)
    ensures EntryThen(key, entry, more) == EntryText(key, entry) + more
  {
    hide MemberText, ValueThen;
    ValueMore(entry, more);
    MemberMore(key, ValueThen(entry, ""), more);
  }

  lemma MemberMore(key: string, value: string, more: string)
    ensures MemberText(key, value + more) == MemberText(key, value) + more
  {
    hide AsciiEscape;
  }

  function Jsons(entries: Table): seq<Pair<Json.Json>> {
    seq(|entries|, i requires 0 <= i < |entries| => Pair(entries[i].key, Json.Obj(EntryMembers(entries[i].value))))
  }

  /** One entry is read, and the character after it decides how the file goes on. */
  lemma ReadEntryThen(repr: string -> string, key: string, entry: Stored, mark: char, more: string, read: seq<Pair<Json.Json>>)
    requires AllComponents(repr, entry.vector) && (mark == ',' || mark == '}') && key !in Keys(read)
    requires more == "" || !JsonReader.IsSpace(more[0])
    ensures var next := read + [Pair(key, Json.Obj(EntryMembers(entry)))];
            ReadEntries(EntryThen(key, entry, [mark] + more), read) == if mark == '}' then Some((next, more)) else ReadEntries(more, next)
  {
    hide JsonReader.ReadString, JsonReader.ReadValue, AsciiEscape, ValueThen, EntryMembers;
    var after := [mark] + more;
    var value := ValueThen(entry, after);
    var s := EntryThen(key, entry, after);
    assert value != "" && value[0] == '{' by { ValueStarts(entry, after); }
    assert s[1..] == AsciiEscape(key) + "\"" + (":" + value);
    ReadAscii(key, ":" + value);
    assert (":" + value)[1..] == value;
    assert JsonReader.SkipSpaces(":" + value) == ":" + value && JsonReader.SkipSpaces(value) == value;
    ReadEntryValue(repr, entry, after);
    assert JsonReader.SkipSpaces(after) == after && after[1..] == more && JsonReader.SkipSpaces(more) == more;
    AssignNew(read, key, Json.Obj(EntryMembers(entry)));
  }

  lemma ValueStarts(entry: Stored, more: string)
    ensures ValueThen(entry, more) != "" && ValueThen(entry, more)[0] == '{'
  {
  }

  lemma {:induction false} ReadWrittenEntries(repr: string -> string, entries: Table, read: seq<Pair<Json.Json>>)
    requires entries != [] && Writable(repr, entries) && forall k :: k in Keys(entries) ==> k !in Keys(read)
    ensures ReadEntries(Commas(EntryTexts(entries)) + "}", read) == Some((read + Jsons(entries), ""))
    decreases |entries|
  {
    hide ReadEntries, EntryText, EntryThen, EntryMembers, AllComponents;
    var key, entry, rest := entries[0].key, entries[0].value, entries[1..];
    var next := read + [Pair(key, Json.Obj(EntryMembers(entry)))];
    assert Keys(entries)[0] == key;
    assert EntryTexts(entries)[1..] == EntryTexts(rest);
    assert Jsons(entries) == [Pair(key, Json.Obj(EntryMembers(entry)))] + Jsons(rest);
    if rest == [] {
      EntryMore(key, entry, "}");
      ReadEntryThen(repr, key, entry, '}', "", read);
      assert ['}'] + "" == "}";
      assert read + Jsons(entries) == next;
    } else {
      var more := Commas(EntryTexts(rest)) + "}";
      FirstStarts(rest);
      EntryMore(key, entry, "," + more);
      ReadEntryThen(repr, key, entry, ',', more, read);
      assert [','] + more == "," + more;
      assert Commas(EntryTexts(entries)) + "}" == EntryText(key, entry) + ("," + more);
      RestIsWritable(repr, entries, read, Json.Obj(EntryMembers(entry)));
      ReadWrittenEntries(repr, rest, next);
      assert next + Jsons(rest) == read + Jsons(entries);
    }
  }

  lemma FirstStarts(entries: Table)
    requires entries != []
    ensures var text := Commas(EntryTexts(entries)) + "}"; text[0] == '"'
  {
    hide ValueThen;
    MemberStarts(entries[0].key, ValueThen(entries[0].value, ""));
    assert EntryTexts(entries)[0] == EntryText(entries[0].key, entries[0].value);
  }

  lemma RestIsWritable(repr: string -> string, entries: Table, read: seq<Pair<Json.Json>>, v: Json.Json)
    requires entries != [] && Writable(repr, entries) && forall k :: k in Keys(entries) ==> k !in Keys(read)
    ensures Writable(repr, entries[1..])
    ensures forall k :: k in Keys(entries[1..]) ==> k !in Keys(read + [Pair(entries[0].key, v)])
  {
    UniqueTail(entries);
    assert Keys(entries) == [entries[0].key] + Keys(entries[1..]);
    assert Keys(read + [Pair(entries[0].key, v)]) == Keys(read) + [entries[0].key];
  }

  lemma {:induction false} NumbersAreComponents(repr: string -> string, vector: Vector)
    requires AllComponents(repr, vector)
    ensures ComponentsOf(repr, Numbers(vector)) == Some(vector)
  {
    hide JsonReader.IsFloatText;
    if vector != [] {
      assert Numbers(vector)[1..] == Numbers(vector[1..]);
      assert IsComponent(repr, vector[0]);
      assert ComponentOf(repr, Numbers(vector)[0]) == Some(vector[0]);
      NumbersAreComponents(repr, vector[1..]);
      assert vector == [vector[0]] + vector[1..];
    }
  }

  lemma {:induction false} TableOfJsons(repr: string -> string, entries: Table)
    requires Writable(repr, entries)
    ensures TableOf(repr, Jsons(entries)) == Some(entries)
  {
    if entries != [] {
      RestIsWritable(repr, entries, [], Json.Null);
      TableOfJsons(repr, entries[1..]);
      assert Jsons(entries)[1..] == Jsons(entries[1..]);
      StoredAgain(repr, entries[0].value);
      assert entries == [Pair(entries[0].key, entries[0].value)] + entries[1..];
    }
  }

  lemma StoredAgain(repr: string -> string, entry: Stored)
    requires AllComponents(repr, entry.vector) && entry.vector != []
    ensures StoredOf(repr, Json.Obj(EntryMembers(entry))) == Some(entry)
  {
    hide ComponentsOf, AllComponents;
    var ms := EntryMembers(entry);
    assert ms[1..] == [ms[1]] && Numbers(entry.vector) != [];
    assert Json.Get(ms, "digest") == Some(Json.Str(entry.digest));
    assert Json.Get(ms, "vector") == Json.Get(ms[1..], "vector") == Some(Json.Arr(Numbers(entry.vector)));
    NumbersAreComponents(repr, entry.vector);
  }

  /** A written file within the limit loads as exactly the entries it was written from, in their order. */
  lemma FileReadsBack(repr: string -> string, maxChars: nat, entries: Table)
    requires Writable(repr, entries) && |FileText(entries)| <= maxChars
    ensures Load(repr, maxChars, Some(FileText(entries))) == entries
  {
    hide ReadEntries, EntryTexts, Writable;
    var text, body := FileText(entries), Commas(EntryTexts(entries)) + "}";
    assert text == "{" + body && text[1..] == body;
    assert JsonReader.SkipSpaces(text) == text;
    if entries == [] {
      NothingWritten();
    } else {
      FirstStarts(entries);
      assert JsonReader.SkipSpaces(body) == body;
      ReadWrittenEntries(repr, entries, []);
      assert [] + Jsons(entries) == Jsons(entries);
      TableOfJsons(repr, entries);
    }
  }

  lemma NothingWritten()
    ensures FileText([]) == "{}" && ReadTable("{}") == Some([])
  {
    assert "{}"[1..] == "}" && "}"[1..] == "";
  }

  // ---------- Whatever the text ----------

  lemma {:induction false} EntriesAreUnique(s: string, read: seq<Pair<Json.Json>>)
    requires Unique(read)
    ensures ReadEntries(s, read).Some? ==> Unique(ReadEntries(s, read).value.0)
    decreases |s|
  {
    hide JsonReader.ReadString, JsonReader.ReadValue, Unique, Assign;
    if ReadEntries(s, read).Some? {
      var key := JsonReader.ReadString(s[1..]);
      var colon := JsonReader.SkipSpaces(key.rest);
      var v := JsonReader.ReadValue(JsonReader.SkipSpaces(colon[1..]));
      var t := JsonReader.SkipSpaces(v.rest);
      AssignKeys(read, key.value, v.value);
      AssignIsUnique(read, key.value, v.value);
      if t[0] == ',' { EntriesAreUnique(JsonReader.SkipSpaces(t[1..]), Assign(read, key.value, v.value)); }
    }
  }

  lemma AssignIsUnique<V>(m: seq<Pair<V>>, key: string, value: V)
    requires Unique(m)
    ensures Unique(Assign(m, key, value))
  {
    AssignKeys(m, key, value);
    NoDuplicatesAppend(Keys(m), key);
  }

  lemma {:induction false} TableKeys(repr: string -> string, members: seq<Pair<Json.Json>>)
    ensures TableOf(repr, members).Some? ==> Keys(TableOf(repr, members).value) == Keys(members)
  {
    hide StoredOf;
    if members != [] && TableOf(repr, members).Some? {
      TableKeys(repr, members[1..]);
      assert Keys(members) == [members[0].key] + Keys(members[1..]);
    }
  }

  /** Every file loads as a table without repeated keys. */
  lemma LoadedIsUnique(repr: string -> string, maxChars: nat, file: Option<string>)
    ensures Unique(Load(repr, maxChars, file))
  {
    hide ReadEntries, TableOf;
    if Load(repr, maxChars, file) != [] {
      var s := JsonReader.SkipSpaces(file.value);
      EntriesAreUnique(JsonReader.SkipSpaces(s[1..]), []);
      TableKeys(repr, ReadTable(file.value).value);
    }
  }

  /** A vector of the file: a list with something in it, all of it numbers that are neither booleans nor infinite. */
  predicate IsVector(repr: string -> string, v: Json.Json) {
    v.Arr? && v.items != []
    && forall i :: 0 <= i < |v.items| ==>
         match v.items[i]
         case Int(n) => !IsInfinite(repr(Json.IntText(n)))
         case Float(text) => !IsInfinite(text) && !IsInfinite(repr(text))
         case _ => false
  }

  predicate IsEntry(repr: string -> string, v: Json.Json) {
    && v.Obj? && Json.Get(v.members, "digest").Some? && Json.Get(v.members, "digest").value.Str?
    && Json.Get(v.members, "vector").Some? && IsVector(repr, Json.Get(v.members, "vector").value)
  }

  lemma {:induction false} ComponentsExactly(repr: string -> string, items: seq<Json.Json>)
    ensures ComponentsOf(repr, items).Some? <==> items == [] || IsVector(repr, Json.Arr(items))
    ensures ComponentsOf(repr, items).Some? ==> |ComponentsOf(repr, items).value| == |items|
  {
    if items != [] {
      ComponentsExactly(repr, items[1..]);
      assert forall i :: 1 <= i < |items| ==> items[i] == items[1..][i - 1];
      assert forall i :: 0 <= i < |items[1..]| ==> items[1..][i] == items[i + 1];
    }
  }

  lemma EntryExactly(repr: string -> string, v: Json.Json)
    ensures StoredOf(repr, v).Some? <==> IsEntry(repr, v)
  {
    if v.Obj? {
      match (Json.Get(v.members, "digest"), Json.Get(v.members, "vector"))
      case (Some(Str(digest)), Some(Arr(items))) => ComponentsExactly(repr, items);
      case _ =>
    }
    hide Json.Get, ComponentsOf, IsVector;
  }

  lemma {:induction false} TableExactly(repr: string -> string, members: seq<Pair<Json.Json>>)
    ensures TableOf(repr, members).Some? <==> forall i :: 0 <= i < |members| ==> IsEntry(repr, members[i].value)
  {
    hide StoredOf, IsEntry;
    if members != [] {
      EntryExactly(repr, members[0].value);
      TableExactly(repr, members[1..]);
      assert forall i :: 1 <= i < |members| ==> members[i] == members[1..][i - 1];
      assert forall i :: 0 <= i < |members[1..]| ==> members[1..][i] == members[i + 1];
    }
  }

  /** A file is loaded whole or not at all: if it is too long, no table, or has one malformed entry, the cache is empty. */
  lemma LoadedWholeOrNothing(repr: string -> string, maxChars: nat, file: Option<string>)
    ensures Load(repr, maxChars, file) != [] ==>
              && file.Some? && |file.value| <= maxChars && ReadTable(file.value).Some?
              && var members := ReadTable(file.value).value;
                 && (forall i :: 0 <= i < |members| ==> IsEntry(repr, members[i].value))
                 && Keys(Load(repr, maxChars, file)) == Keys(members)
  {
    hide ReadTable, TableOf, IsEntry;
    if Load(repr, maxChars, file) != [] {
      TableExactly(repr, ReadTable(file.value).value);
      TableKeys(repr, ReadTable(file.value).value);
    }
  }
}
