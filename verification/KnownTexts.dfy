/** The written forms on single examples: what a reader and a writer that only agreed with each other could still get wrong. */
module KnownTexts {
  import Base64Url
  import Utf8
  import opened Json
  import opened TurnIdentity
  import opened OrderedMap
  import opened BackgroundHeap
  import opened BackgroundEviction

  /** One character of each length (section 3 of RFC 3629). */
  lemma Utf8Examples()
    ensures Utf8.EncodeChar('A') == [0x41] && Utf8.EncodeChar('\U{e9}') == [0xC3, 0xA9]
    ensures Utf8.EncodeChar('\U{20ac}') == [0xE2, 0x82, 0xAC] && Utf8.EncodeChar('\U{1f600}') == [0xF0, 0x9F, 0x98, 0x80]
  {
  }

  /** Three bytes, and the two characters in which the URL alphabet differs (section 5 of RFC 4648). */
  lemma Base64Examples()
    ensures Base64Url.Write([0x66, 0x6F, 0x6F]) == "Zm9v"
    ensures Base64Url.Write([0xFB, 0xFF]) == "-_8"
  {
    Quads();
    hide Base64Url.Quad, Base64Url.Quad3;
    assert [0x66, 0x6F, 0x6F][3..] == [];
  }

  lemma Quads()
    ensures Base64Url.Quad(0x66, 0x6F, 0x6F) == "Zm9v" && Base64Url.Quad3(0xFB, 0xFF, 0) == "-_8"
  {
    assert Base64Url.CharOf(25) == 'Z' && Base64Url.CharOf(38) == 'm' && Base64Url.CharOf(61) == '9' && Base64Url.CharOf(47) == 'v';
    assert Base64Url.CharOf(62) == '-' && Base64Url.CharOf(63) == '_' && Base64Url.CharOf(60) == '8';
    hide Base64Url.CharOf;
  }

  /** Lists and tables on one line, without spaces, and the escapes of a quote and a newline. */
  lemma JsonExamples()
    ensures Dumps(Arr([Null, Bool(true)])) == "[null,true]"
    ensures Dumps(Obj([Member("a", Null), Member("b", Bool(false))])) == "{\"a\":null,\"b\":false}"
    ensures EscapeChar('"') == "\\\"" && EscapeChar('\n') == "\\n" && EscapeChar(1 as char) == "\\u0001"
  {
    PlainKeys();
    hide Escape;
    assert [Null, Bool(true)][1..] == [Bool(true)];
    assert [Member("a", Null), Member("b", Bool(false))][1..] == [Member("b", Bool(false))];
  }

  lemma PlainKeys()
    ensures Escape("a") == "a" && Escape("b") == "b"
  {
    assert "a"[1..] == "" && "b"[1..] == "";
  }

  /** A day, and an identity of it. */
  lemma IdentityExample()
    ensures DayText(Day(2024, 1, 5)) == "2024-01-05" && Text(Identity(Day(2024, 1, 5), 7)) == "2024-01-05/7"
  {
  }

  /** Leap years, by the rule of four, a hundred and four hundred. */
  lemma CalendarExamples()
    ensures ValidDay(Day(2024, 2, 29)) && !ValidDay(Day(2023, 2, 29)) && !ValidDay(Day(1900, 2, 29)) && ValidDay(Day(2000, 2, 29))
    ensures ValidDay(Day(2024, 12, 31)) && !ValidDay(Day(2024, 11, 31)) && !ValidDay(Day(2024, 13, 1)) && !ValidDay(Day(0, 1, 1))
  {
  }

  /** A ref of two characters with a content of three. */
  lemma CostExample(source: Source, owner: string, evictable: bool)
    ensures Cost(Pair("ab", Entry("xyz", source, owner, evictable))) == 29
  {
  }
}
