/** `json.loads`: a strict reader of JSON text, and the proof that it inverts the canonical writer. */
module JsonReader {
  import opened Wrappers
  import opened Decimal
  import opened Json

  /** What was read and the text after it. */
  datatype Parsed<+T> = Got(value: T, rest: string) | Bad

  predicate IsSpace(c: char) {
    c == ' ' || c == '\t' || c == '\n' || c == '\r'
  }

  function SkipSpaces(s: string): (t: string)
    ensures |t| <= |s|
  {
    if s != [] && IsSpace(s[0]) then SkipSpaces(s[1..]) else s
  }

  // ---------- Strings ----------

  function HexValue(c: char): (r: Option<nat>)
    ensures r.Some? ==> r.value < 16
  {
    if IsDigit(c) then Some(DigitValue(c))
    else if 'a' <= c <= 'f' then Some(c as int - 'a' as int + 10)
    else if 'A' <= c <= 'F' then Some(c as int - 'A' as int + 10)
    else None
  }

  /** The four digits after `\u`. */
  function Hex4(s: string): (r: Option<nat>)
    ensures r.Some? ==> |s| >= 4 && r.value < 0x10000
  {
    if |s| < 4 then None
    else
      match (HexValue(s[0]), HexValue(s[1]), HexValue(s[2]), HexValue(s[3]))
      case (Some(a), Some(b), Some(c), Some(d)) => Some(a * 4096 + b * 256 + c * 16 + d)
      case _ => None
  }

  /** One escape, read after its backslash; a surrogate must come as a pair. */
  function ReadEscape(s: string): (r: Parsed<char>)
    ensures r.Got? ==> |r.rest| < |s|
  {
    if s == [] then Bad
    else if s[0] == '"' || s[0] == '\\' || s[0] == '/' then Got(s[0], s[1..])
    else if s[0] == 'b' then Got(BACKSPACE, s[1..])
    else if s[0] == 'f' then Got(FORM_FEED, s[1..])
    else if s[0] == 'n' then Got('\n', s[1..])
    else if s[0] == 'r' then Got('\r', s[1..])
    else if s[0] == 't' then Got('\t', s[1..])
    else if s[0] != 'u' then Bad
    else
      match Hex4(s[1..])
      case None => Bad
      case Some(n) =>
        if n < 0xD800 || 0xE000 <= n then Got(n as char, s[5..])
        else if n < 0xDC00 && |s| >= 7 && s[5] == '\\' && s[6] == 'u' then
          match Hex4(s[7..])
          case Some(low) =>
            if 0xDC00 <= low < 0xE000 then
              Got((0x10000 + (n - 0xD800) * 1024 + (low - 0xDC00)) as char, s[11..])
            else Bad
          case None => Bad
        else Bad
  }

  /** A string read after its opening quote. */
  function ReadString(s: string): (r: Parsed<string>)
    ensures r.Got? ==> |r.rest| < |s|
    decreases |s|
  {
    if s == [] || IsControl(s[0]) then Bad
    else if s[0] == '"' then Got("", s[1..])
    else if s[0] == '\\' then
      match ReadEscape(s[1..])
      case Bad => Bad
      case Got(c, rest) =>
        match ReadString(rest)
        case Bad => Bad
        case Got(tail, rest') => Got([c] + tail, rest')
    else
      match ReadString(s[1..])
      case Bad => Bad
      case Got(tail, rest') => Got([s[0]] + tail, rest')
  }

  // ---------- Numbers ----------

  /** The length of the digits at the head. */
  function Digits(s: string): (n: nat)
    ensures n <= |s| && AllDigits(s[..n])
    ensures n < |s| ==> !IsDigit(s[n])
  {
    if s != [] && IsDigit(s[0]) then
      assert s[..1 + Digits(s[1..])] == [s[0]] + s[1..][..Digits(s[1..])];
      1 + Digits(s[1..])
    else 0
  }

  /** The length of `(\.[0-9]+)?([eE][-+]?[0-9]+)?` at the head. */
  function Fraction(s: string): (n: nat)
    ensures n <= |s|
  {
    Places(s) + Exponent(s[Places(s)..])
  }

  /** The dot and the digits after it. */
  function Places(s: string): (n: nat)
    ensures n <= |s|
  {
    if |s| > 1 && s[0] == '.' && Digits(s[1..]) > 0 then 1 + Digits(s[1..]) else 0
  }

  function Exponent(e: string): (n: nat)
    ensures n <= |e|
  {
    var sign := if |e| > 1 && (e[1] == '-' || e[1] == '+') then 2 else 1;
    if |e| >= sign && (e[0] == 'e' || e[0] == 'E') && Digits(e[sign..]) > 0 then sign + Digits(e[sign..]) else 0
  }

  /** The length of the integer part at the head, and of the fraction and exponent after it. */
  function NumberShape(s: string): (r: (nat, nat))
    ensures r.0 + r.1 <= |s| && AllDigits(s[..r.0])
  {
    var whole := if s != [] && s[0] == '0' then 1 else Digits(s);
    (whole, if whole == 0 then 0 else Fraction(s[whole..]))
  }

  function ReadNumber(s: string): (r: Parsed<Json>)
    ensures r.Got? ==> |r.rest| < |s|
  {
    var sign := if s != [] && s[0] == '-' then 1 else 0;
    var (whole, fraction) := NumberShape(s[sign..]);
    if whole == 0 then Bad
    else
      var rest := s[sign + whole + fraction..];
      if fraction > 0 then Got(Float(s[..sign + whole + fraction]), rest)
      else
        var n: int := NatValue(s[sign..][..whole]);
        Got(Int(if sign == 1 then -n else n), rest)
  }

  // ---------- Values ----------

  predicate Starts(s: string, word: string) {
    |s| >= |word| && s[..|word|] == word
  }

  function ReadWord(s: string, word: string, v: Json): (r: Parsed<Json>)
    requires word != []
    ensures r.Got? ==> |r.rest| < |s|
  {
    if Starts(s, word) then Got(v, s[|word|..]) else Bad
  }

  /** Everything but the two bracketed forms. */
  function ReadAtom(s: string): (r: Parsed<Json>)
    ensures r.Got? ==> |r.rest| < |s|
  {
    if s == [] then Bad
    else if s[0] == '"' then
      match ReadString(s[1..])
      case Bad => Bad
      case Got(text, rest) => Got(Str(text), rest)
    else if s[0] == 'n' then ReadWord(s, "null", Null)
    else if s[0] == 't' then ReadWord(s, "true", Bool(true))
    else if s[0] == 'f' then ReadWord(s, "false", Bool(false))
    else if s[0] == 'N' then ReadWord(s, "NaN", Float("NaN"))
    else if s[0] == 'I' then ReadWord(s, "Infinity", Float("Infinity"))
    else if s[0] == '-' && |s| > 1 && s[1] == 'I' then ReadWord(s, "-Infinity", Float("-Infinity"))
    else ReadNumber(s)
  }

  function ReadValue(s: string): (r: Parsed<Json>)
    ensures r.Got? ==> |r.rest| < |s|
    decreases |s|, 1
  {
    if s != [] && s[0] == '{' then
      var t := SkipSpaces(s[1..]);
      if t != [] && t[0] == '}' then Got(Obj([]), t[1..]) else ReadMembers(t, [])
    else if s != [] && s[0] == '[' then
      var t := SkipSpaces(s[1..]);
      if t != [] && t[0] == ']' then Got(Arr([]), t[1..]) else ReadItems(t, [])
    else ReadAtom(s)
  }

  /** The items from here to the closing bracket, after those already read. */
  function ReadItems(s: string, read: seq<Json>): (r: Parsed<Json>)
    ensures r.Got? ==> |r.rest| < |s|
    decreases |s|, 2
  {
    match ReadValue(s)
    case Bad => Bad
    case Got(v, rest) =>
      var t := SkipSpaces(rest);
      if t != [] && t[0] == ']' then Got(Arr(read + [v]), t[1..])
      else if t != [] && t[0] == ',' then ReadItems(SkipSpaces(t[1..]), read + [v])
      else Bad
  }

  /** The members from here to the closing brace; a repeated key keeps its last value. */
  function ReadMembers(s: string, read: seq<Member>): (r: Parsed<Json>)
    ensures r.Got? ==> |r.rest| < |s|
    decreases |s|, 2
  {
    if s == [] || s[0] != '"' then Bad
    else
      match ReadString(s[1..])
      case Bad => Bad
      case Got(key, afterKey) =>
        var colon := SkipSpaces(afterKey);
        if colon == [] || colon[0] != ':' then Bad
        else
          match ReadValue(SkipSpaces(colon[1..]))
          case Bad => Bad
          case Got(v, rest) =>
            var t := SkipSpaces(rest);
            if t != [] && t[0] == '}' then Got(Obj(Put(read, key, v)), t[1..])
            else if t != [] && t[0] == ',' then ReadMembers(SkipSpaces(t[1..]), Put(read, key, v))
            else Bad
  }

  function Loads(s: string): Option<Json> {
    match ReadValue(SkipSpaces(s))
    case Bad => None
    case Got(v, rest) => if SkipSpaces(rest) == [] then Some(v) else None
  }

  /** How reading a table goes on once a member's value has been read. */
  function AfterValue(key: string, r: Parsed<Json>, read: seq<Member>): Parsed<Json> {
    if r.Bad? then Bad
    else
      var t := SkipSpaces(r.rest);
      if t != [] && t[0] == '}' then Got(Obj(Put(read, key, r.value)), t[1..])
      else if t != [] && t[0] == ',' then ReadMembers(SkipSpaces(t[1..]), Put(read, key, r.value))
      else Bad
  }

  // ---------- The reader inverts the writer ----------

  lemma ReadEscaped(c: char, rest: string)
    requires c == '"' || c == '\\' || IsControl(c)
    ensures EscapeChar(c)[0] == '\\'
    ensures ReadEscape(EscapeChar(c)[1..] + rest) == Got(c, rest)
  {
    var e := EscapeChar(c);
    var s := e[1..] + rest;
    if |e| == 2 {
      assert s[1..] == rest;
    } else {
      var high, low := c as int / 16, c as int % 16;
      assert s[1..] == ['0', '0', HexChar(high), HexChar(low)] + rest;
      assert s[5..] == rest;
      assert HexValue(HexChar(high)) == Some(high) && HexValue(HexChar(low)) == Some(low);
    }
  }

  lemma ReadStringChar(c: char, more: string)
    ensures ReadString(EscapeChar(c) + more)
         == (match ReadString(more) case Bad => Bad case Got(tail, rest) => Got([c] + tail, rest))
  {
    hide ReadEscape;
    var e := EscapeChar(c);
    var t := e + more;
    if c == '"' || c == '\\' || IsControl(c) {
      hide EscapeChar;
      ReadEscaped(c, more);
      assert t[1..] == e[1..] + more;
      assert t[0] == '\\';
    } else {
      assert t[1..] == more;
    }
  }

  lemma {:induction false} ReadWrittenString(s: string, rest: string)
    ensures ReadString(Escape(s) + "\"" + rest) == Got(s, rest)
  {
    if s == [] {
      assert Escape(s) + "\"" + rest == ['"'] + rest;
    } else {
      var more := Escape(s[1..]) + "\"" + rest;
      assert Escape(s) + "\"" + rest == EscapeChar(s[0]) + more;
      ReadStringChar(s[0], more);
      ReadWrittenString(s[1..], rest);
      assert [s[0]] + s[1..] == s;
    }
  }

  /** Text after which a number cannot go on. */
  predicate EndsNumber(rest: string) {
    rest == [] || !(IsDigit(rest[0]) || rest[0] == '.' || rest[0] == 'e' || rest[0] == 'E')
  }

  lemma {:induction false} DigitsThen(s: string, rest: string)
    requires AllDigits(s) && EndsNumber(rest)
    ensures Digits(s + rest) == |s|
  {
    if s == [] {
      assert s + rest == rest;
    } else {
      assert (s + rest)[1..] == s[1..] + rest;
      DigitsThen(s[1..], rest);
    }
  }

  lemma NumberShapeOfText(text: string, rest: string)
    requires IsCanonical(text) && EndsNumber(rest)
    ensures NumberShape(text + rest) == (|text|, 0)
  {
    DigitsThen(text, rest);
    assert (text + rest)[|text|..] == rest;
    assert (text + rest)[0] == text[0];
  }

  lemma ReadWrittenNatural(n: nat, rest: string)
    requires EndsNumber(rest)
    ensures ReadNumber(NatText(n) + rest) == Got(Int(n), rest)
  {
    hide NumberShape, NatText, NatValue;
    var text := NatText(n);
    var s := text + rest;
    NumberShapeOfText(text, rest);
    Decimal.ReadWritten(n);
    assert s[0] == text[0] && s[0..] == s;
    assert s[..|text|] == text && s[|text|..] == rest;
  }

  lemma ReadWrittenNegative(n: nat, rest: string)
    requires EndsNumber(rest)
    ensures ReadNumber("-" + NatText(n) + rest) == Got(Int(0 - n), rest)
  {
    hide NumberShape, NatText, NatValue;
    var text := NatText(n);
    var s := "-" + text + rest;
    NumberShapeOfText(text, rest);
    Decimal.ReadWritten(n);
    assert s[1..] == text + rest;
    assert s[1..][..|text|] == text && s[1 + |text|..] == rest;
  }

  /** A float text of the reader's own grammar: one of the three constants, or a number with a fraction or an exponent. */
  predicate IsFloatText(text: string) {
    || text == "NaN" || text == "Infinity" || text == "-Infinity"
    || IsPlainFloat(if text != "" && text[0] == '-' then text[1..] else text)
  }

  predicate IsPlainFloat(s: string) {
    var (whole, fraction) := NumberShape(s);
    whole > 0 && fraction > 0 && whole + fraction == |s|
  }

  /** Values the reader gives back exactly: objects with sorted keys, and floats in its own grammar. */
  predicate Exact(v: Json) {
    match v
    case Float(text) => IsFloatText(text)
    case Arr(items) => forall i :: 0 <= i < |items| ==> Exact(items[i])
    case Obj(members) => Sorted(members) && forall i :: 0 <= i < |members| ==> Exact(members[i].value)
    case _ => true
  }

  /** No written value starts with a space or a closing bracket. */
  lemma DumpsHead(v: Json)
    requires Exact(v)
    ensures Dumps(v) != []
    ensures var c := Dumps(v)[0]; !IsSpace(c) && c != ']' && c != '}'
  {
    if v.Int? { assert AllDigits(NatText(if v.n < 0 then -v.n else v.n)); }
    if v.Float? { FloatHead(v.text); }
  }

  lemma PlainFloatHead(s: string)
    requires IsPlainFloat(s)
    ensures s != "" && IsDigit(s[0])
  {
    assert s[..NumberShape(s).0][0] == s[0];
  }

  lemma FloatHead(text: string)
    requires IsFloatText(text)
    ensures text != "" && (IsDigit(text[0]) || text[0] == 'N' || text[0] == 'I' || text[0] == '-')
  {
    hide IsPlainFloat;
    if text != "NaN" && text != "Infinity" && text != "-Infinity" && (text == "" || text[0] != '-') {
      PlainFloatHead(text);
    }
  }

  /** Digits go on exactly as far with what follows a number. */
  lemma {:induction false} DigitsBefore(s: string, rest: string)
    requires EndsNumber(rest)
    ensures Digits(s + rest) == Digits(s)
  {
    if s == "" {
      assert s + rest == rest;
    } else {
      assert (s + rest)[1..] == s[1..] + rest;
      DigitsBefore(s[1..], rest);
    }
  }

  lemma FractionBefore(s: string, rest: string)
    requires EndsNumber(rest) && Fraction(s) == |s| > 0
    ensures Fraction(s + rest) == |s|
  {
    hide Places, Exponent;
    PlacesBefore(s, rest);
    var dot := Places(s);
    assert (s + rest)[dot..] == s[dot..] + rest;
    ExponentBefore(s[dot..], rest);
  }

  lemma PlacesBefore(s: string, rest: string)
    requires EndsNumber(rest)
    ensures Places(s + rest) == Places(s)
  {
    hide Digits;
    if s == "" {
      assert s + rest == rest;
    } else {
      assert (s + rest)[1..] == s[1..] + rest;
      DigitsBefore(s[1..], rest);
    }
  }

  lemma ExponentBefore(e: string, rest: string)
    requires EndsNumber(rest) && Exponent(e) == |e|
    ensures Exponent(e + rest) == |e|
  {
    hide Digits;
    if e == "" {
      assert e + rest == rest;
    } else {
      var sign := if |e| > 1 && (e[1] == '-' || e[1] == '+') then 2 else 1;
      assert (e + rest)[sign..] == e[sign..] + rest;
      DigitsBefore(e[sign..], rest);
    }
  }

  lemma ShapeBefore(s: string, rest: string)
    requires EndsNumber(rest) && IsPlainFloat(s)
    ensures NumberShape(s + rest) == NumberShape(s)
  {
    hide Digits, Fraction;
    var whole := NumberShape(s).0;
    DigitsBefore(s, rest);
    assert (s + rest)[whole..] == s[whole..] + rest;
    FractionBefore(s[whole..], rest);
  }

  lemma ReadWrittenFloat(s: string, rest: string)
    requires EndsNumber(rest) && IsPlainFloat(s)
    ensures ReadNumber(s + rest) == Got(Float(s), rest)
    ensures ReadNumber("-" + s + rest) == Got(Float("-" + s), rest)
  {
    hide NumberShape;
    PlainFloatHead(s);
    ShapeBefore(s, rest);
    assert s + rest == (s + rest)[0..] && (s + rest)[..|s|] == s && (s + rest)[|s|..] == rest;
    var t := "-" + s + rest;
    assert t[1..] == s + rest && t[..1 + |s|] == "-" + s && t[1 + |s|..] == rest;
  }

  lemma FloatIsRead(text: string, rest: string)
    requires EndsNumber(rest) && IsFloatText(text)
    ensures ReadAtom(text + rest) == Got(Float(text), rest)
  {
    hide ReadNumber, ReadString, IsPlainFloat;
    var s := text + rest;
    if text == "NaN" || text == "Infinity" || text == "-Infinity" {
      hide NumberShape;
      ReadWrittenWord(s, rest, text, Float(text));
      assert s[0] == text[0] && (|text| > 1 ==> s[1] == text[1]);
    } else if text != "" && text[0] == '-' {
      PlainFloatHead(text[1..]);
      assert text == "-" + text[1..] && s[1] == text[1];
      ReadWrittenFloat(text[1..], rest);
      NumberIsRead(s);
    } else {
      PlainFloatHead(text);
      assert s[0] == text[0];
      ReadWrittenFloat(text, rest);
      NumberIsRead(s);
    }
  }

  lemma ReadWrittenWord(s: string, rest: string, word: string, v: Json)
    requires word != [] && s == word + rest
    ensures ReadWord(s, word, v) == Got(v, rest)
  {
    assert s[..|word|] == word && s[|word|..] == rest;
  }

  lemma NumberIsRead(s: string)
    requires s != []
    requires IsDigit(s[0]) || (s[0] == '-' && |s| > 1 && IsDigit(s[1]))
    ensures ReadAtom(s) == ReadNumber(s)
  {
    hide ReadNumber, ReadString, ReadWord;
  }

  lemma IntIsRead(n: int, rest: string)
    requires EndsNumber(rest)
    ensures ReadAtom(IntText(n) + rest) == Got(Int(n), rest)
    ensures IntText(n)[0] == '-' || IsDigit(IntText(n)[0])
  {
    hide ReadAtom, ReadNumber, NatText;
    NumberIsRead(IntText(n) + rest);
    if n < 0 { ReadWrittenNegative(-n, rest); } else { ReadWrittenNatural(n, rest); }
  }

  lemma WordIsRead(v: Json, rest: string)
    requires v.Null? || v.Bool?
    ensures ReadAtom(Dumps(v) + rest) == Got(v, rest)
  {
    var s := Dumps(v) + rest;
    if v.Null? {
      ReadWrittenWord(s, rest, "null", v);
    } else if v.b {
      ReadWrittenWord(s, rest, "true", v);
    } else {
      ReadWrittenWord(s, rest, "false", v);
    }
  }

  lemma StringIsRead(text: string, rest: string)
    ensures ReadAtom(DumpsString(text) + rest) == Got(Str(text), rest)
  {
    var s := DumpsString(text) + rest;
    assert s[1..] == Escape(text) + "\"" + rest;
    ReadWrittenString(text, rest);
  }

  lemma BracketIsRead(t: string)
    requires t != [] && !IsSpace(t[0])
    ensures ReadValue("[" + t) == if t[0] == ']' then Got(Arr([]), t[1..]) else ReadItems(t, [])
    ensures ReadValue("{" + t) == if t[0] == '}' then Got(Obj([]), t[1..]) else ReadMembers(t, [])
  {
    assert ("[" + t)[1..] == t && ("{" + t)[1..] == t;
    assert SkipSpaces(t) == t;
  }

  lemma {:induction false} ReadWritten(v: Json, rest: string)
    requires Exact(v) && EndsNumber(rest)
    ensures ReadValue(Dumps(v) + rest) == Got(v, rest)
    decreases v, 1
  {
    match v
    case Null => WordIsRead(v, rest);
    case Bool(_) => WordIsRead(v, rest);
    case Int(n) => IntIsRead(n, rest);
    case Float(text) => FloatRead(text, rest);
    case Str(text) => StringIsRead(text, rest);
    case Arr(items) => ReadWrittenArray(items, rest);
    case Obj(members) => ReadWrittenObject(members, rest);
  }

  lemma FloatRead(text: string, rest: string)
    requires EndsNumber(rest) && IsFloatText(text)
    ensures ReadValue(text + rest) == Got(Float(text), rest)
  {
    hide ReadAtom, IsFloatText;
    FloatHead(text);
    FloatIsRead(text, rest);
  }

  lemma {:induction false} ReadWrittenArray(items: seq<Json>, rest: string)
    requires forall i :: 0 <= i < |items| ==> Exact(items[i])
    ensures ReadValue("[" + DumpsItems(items) + "]" + rest) == Got(Arr(items), rest)
    decreases items, 1
  {
    var t := DumpsItems(items) + "]" + rest;
    assert "[" + DumpsItems(items) + "]" + rest == "[" + t;
    if items == [] {
      assert t == "]" + rest;
    } else {
      DumpsHead(items[0]);
      ItemsHead(items);
      ReadWrittenItems(items, rest, []);
      assert [] + items == items;
    }
    BracketIsRead(t);
  }

  lemma {:induction false} ReadWrittenObject(members: seq<Member>, rest: string)
    requires Sorted(members) && forall i :: 0 <= i < |members| ==> Exact(members[i].value)
    ensures ReadValue("{" + DumpsMembers(members) + "}" + rest) == Got(Obj(members), rest)
    decreases members, 1
  {
    hide ReadMembers, ReadValue, Exact, Sorted;
    var t := DumpsMembers(members) + "}" + rest;
    assert "{" + DumpsMembers(members) + "}" + rest == "{" + t;
    if members == [] {
      assert t == "}" + rest;
    } else {
      MembersHead(members);
      assert [] + members == members;
      ReadWrittenMembers(members, rest, []);
    }
    BracketIsRead(t);
  }

  lemma ItemsHead(vs: seq<Json>)
    requires vs != [] && Dumps(vs[0]) != []
    ensures DumpsItems(vs) != [] && DumpsItems(vs)[0] == Dumps(vs[0])[0]
  {
  }

  lemma MembersHead(ms: seq<Member>)
    requires ms != []
    ensures DumpsMembers(ms) != [] && DumpsMembers(ms)[0] == '"'
  {
  }

  lemma {:induction false} ReadWrittenItems(vs: seq<Json>, rest: string, read: seq<Json>)
    requires vs != [] && forall i :: 0 <= i < |vs| ==> Exact(vs[i])
    ensures ReadItems(DumpsItems(vs) + "]" + rest, read) == Got(Arr(read + vs), rest)
    decreases vs, 0
  {
    hide ReadItems, Dumps;
    if |vs| == 1 {
      ReadItemThen(vs[0], ']', rest, read);
      assert DumpsItems(vs) + "]" + rest == Dumps(vs[0]) + [']'] + rest;
      assert read + vs == read + [vs[0]];
    } else {
      var more := DumpsItems(vs[1..]) + "]" + rest;
      ReadItemThen(vs[0], ',', more, read);
      assert DumpsItems(vs) + "]" + rest == Dumps(vs[0]) + [','] + more;
      DumpsHead(vs[1]);
      ItemsHead(vs[1..]);
      assert SkipSpaces(more) == more;
      ReadWrittenItems(vs[1..], rest, read + [vs[0]]);
      assert read + [vs[0]] + vs[1..] == read + vs;
    }
  }

  /** One item is read, and the character after it decides how the array goes on. */
  lemma {:induction false} ReadItemThen(v: Json, mark: char, more: string, read: seq<Json>)
    requires Exact(v) && (mark == ',' || mark == ']')
    ensures ReadItems(Dumps(v) + [mark] + more, read)
         == if mark == ']' then Got(Arr(read + [v]), more) else ReadItems(SkipSpaces(more), read + [v])
    decreases v, 2
  {
    hide Dumps, ReadValue;
    var tail := [mark] + more;
    assert Dumps(v) + [mark] + more == Dumps(v) + tail;
    ReadWritten(v, tail);
    assert tail[1..] == more && SkipSpaces(tail) == tail;
  }

  lemma PutNext(read: seq<Member>, ms: seq<Member>)
    requires ms != [] && Sorted(read + ms)
    ensures Put(read, ms[0].key, ms[0].value) == read + [ms[0]]
    ensures read + [ms[0]] + ms[1..] == read + ms
  {
    forall i | 0 <= i < |read|
      ensures Less(read[i].key, ms[0].key)
    {
      assert (read + ms)[i] == read[i] && (read + ms)[|read|] == ms[0];
    }
    PutLast(read, ms[0].key, ms[0].value);
  }

  lemma {:induction false} ReadWrittenMembers(ms: seq<Member>, rest: string, read: seq<Member>)
    requires ms != [] && Sorted(read + ms) && forall i :: 0 <= i < |ms| ==> Exact(ms[i].value)
    ensures ReadMembers(DumpsMembers(ms) + "}" + rest, read) == Got(Obj(read + ms), rest)
    decreases ms, 0
  {
    hide ReadMembers, DumpsMember, Put;
    PutNext(read, ms);
    var next := read + [ms[0]];
    if |ms| == 1 {
      ReadMemberThen(ms[0], '}', rest, read, next);
      assert DumpsMembers(ms) + "}" + rest == DumpsMember(ms[0]) + ['}'] + rest;
      assert next == read + ms;
    } else {
      var t := DumpsMembers(ms[1..]) + "}" + rest;
      ReadWrittenMembers(ms[1..], rest, next);
      MembersHead(ms[1..]);
      assert SkipSpaces(t) == t;
      ReadMemberThen(ms[0], ',', t, read, next);
      assert DumpsMembers(ms) + "}" + rest == DumpsMember(ms[0]) + [','] + t;
    }
  }

  /** One member is read, and the character after it decides how the object goes on. */
  lemma {:induction false} ReadMemberThen(m: Member, mark: char, more: string, read: seq<Member>, next: seq<Member>)
    requires Exact(m.value) && (mark == ',' || mark == '}') && next == Put(read, m.key, m.value)
    ensures ReadMembers(DumpsMember(m) + [mark] + more, read)
         == if mark == '}' then Got(Obj(next), more) else ReadMembers(SkipSpaces(more), next)
    decreases m, 2
  {
    hide DumpsMember, ReadString, ReadValue, Put;
    var tail := [mark] + more;
    assert DumpsMember(m) + [mark] + more == DumpsMember(m) + tail;
    ReadWrittenMember(m, tail);
    assert tail[1..] == more && SkipSpaces(tail) == tail;
  }

  lemma {:induction false} ReadWrittenMember(m: Member, more: string)
    requires Exact(m.value) && more != [] && (more[0] == ',' || more[0] == '}')
    ensures var s := DumpsMember(m) + more;
            var value := Dumps(m.value) + more;
            && s[0] == '"' && ReadString(s[1..]) == Got(m.key, ":" + value)
            && (":" + value)[1..] == value && SkipSpaces(value) == value
            && ReadValue(value) == Got(m.value, more)
    decreases m, 1
  {
    hide ReadString, ReadValue, Dumps, Escape, Exact;
    var s := DumpsMember(m) + more;
    var value := Dumps(m.value) + more;
    assert s[1..] == Escape(m.key) + "\"" + (":" + value);
    ReadWrittenString(m.key, ":" + value);
    DumpsHead(m.value);
    ReadWritten(m.value, more);
  }

  lemma LoadsDumps(v: Json)
    requires Exact(v)
    ensures Loads(Dumps(v)) == Some(v)
  {
    DumpsHead(v);
    ReadWritten(v, "");
    assert Dumps(v) + "" == Dumps(v);
  }

  /** A text loads as the value it starts with exactly when nothing but space follows. */
  lemma NothingFollows(v: Json, rest: string)
    requires Exact(v) && EndsNumber(rest)
    ensures Loads(Dumps(v) + rest) == if SkipSpaces(rest) == "" then Some(v) else None
  {
    hide Dumps, ReadValue;
    DumpsHead(v);
    ReadWritten(v, rest);
    assert SkipSpaces(Dumps(v) + rest) == Dumps(v) + rest;
  }
}
