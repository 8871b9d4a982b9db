/**
 * The persisted high-water mark behind Turn identities, over every history of allocations, failed and interrupted
 * writes, and restarts.
 */
module TurnAllocation {
  import opened Wrappers
  import opened Decimal
  import opened Json
  import opened JsonReader
  import opened TurnIdentity

  datatype AllocationError = NotActiveDay | StartupFailure

  // ---------- The persisted mark ----------

  /** The mark as the writer lays it out, with a space after each colon and comma. */
  function MarkText(t: Identity): string
    requires ValidIdentity(t)
  {
    "{\"day\": \"" + DayText(t.day) + "\", \"sequence\": " + NatText(t.sequence) + "}"
  }

  /** How a field is put into text; `None` for floats, lists and tables, whose text is never part of an identity. */
  function FieldText(v: Json): Option<string> {
    match v
    case Str(s) => Some(s)
    case Int(n) => Some(IntText(n))
    case Bool(b) => Some(if b then "True" else "False")
    case Null => Some("None")
    case Float(_) => None
    case Arr(_) => None
    case Obj(_) => None
  }

  /** The identity in a mark file, unless the file is not exactly a day and a sequence. */
  function ReadMark(text: string): Option<Identity> {
    match Loads(text)
    case Some(Obj(members)) =>
      if |members| == 2 && Has(members, "day") && Has(members, "sequence") then
        match (FieldText(Get(members, "day").value), FieldText(Get(members, "sequence").value))
        case (Some(day), Some(sequence)) => Parse(day + "/" + sequence)
        case _ => None
      else None
    case _ => None
  }

  predicate Plain(c: char) {
    IsDigit(c) || c == '-' || 'a' <= c <= 'z'
  }

  lemma {:induction false} PlainEscape(s: string)
    requires forall c :: c in s ==> Plain(c)
    ensures Escape(s) == s
  {
    if s != "" {
      assert s[0] in s && EscapeChar(s[0]) == [s[0]];
      PlainEscape(s[1..]);
    }
  }

  lemma DayIsPlain(d: Day)
    requires ValidDay(d)
    ensures Escape(DayText(d)) == DayText(d)
  {
    PlainEscape(DayText(d));
  }

  /** One member laid out with a space after its colon: the reader takes its key and goes on with its value. */
  lemma ReadSpacedMember(key: string, value: string, read: seq<Member>)
    requires Escape(key) == key && value != "" && !IsSpace(value[0])
    ensures ReadMembers("\"" + key + "\": " + value, read) == AfterValue(key, ReadValue(value), read)
  {
    hide ReadString, ReadValue, Put, Escape;
    var s := "\"" + key + "\": " + value;
    var after := ": " + value;
    assert s[1..] == key + "\"" + after;
    ReadWrittenString(key, after);
    assert after[1..] == " " + value && (" " + value)[1..] == value;
    assert SkipSpaces(after) == after;
    assert SkipSpaces(" " + value) == SkipSpaces(value) == value;
  }

  lemma ReadDayValue(d: Day, rest: string)
    requires ValidDay(d)
    ensures ReadValue("\"" + DayText(d) + "\"" + rest) == Got(Str(DayText(d)), rest)
  {
    hide Escape, ReadAtom, DayText;
    DayIsPlain(d);
    StringIsRead(DayText(d), rest);
  }

  lemma ReadSequenceValue(n: nat)
    ensures ReadValue(NatText(n) + "}") == Got(Int(n), "}")
    ensures NatText(n) + "}" != "" && !IsSpace((NatText(n) + "}")[0])
  {
    hide NatText, ReadAtom;
    IntIsRead(n, "}");
  }

  lemma KeysAreOrdered()
    ensures Less("day", "sequence") && !Less("sequence", "day")
    ensures Escape("day") == "day" && Escape("sequence") == "sequence"
  {
    PlainEscape("day");
    PlainEscape("sequence");
  }

  lemma MarkObject(d: Json, n: Json)
    ensures Put(Put([], "day", d), "sequence", n) == [Member("day", d), Member("sequence", n)]
  {
    hide Less, Escape;
    KeysAreOrdered();
    var ms := [Member("day", d)];
    assert ms[1..] == [];
  }

  lemma MarkFields(d: Json, n: Json)
    ensures Get([Member("day", d), Member("sequence", n)], "day") == Some(d)
    ensures Get([Member("day", d), Member("sequence", n)], "sequence") == Some(n)
  {
    assert [Member("day", d), Member("sequence", n)][1..] == [Member("sequence", n)];
  }

  lemma ReadSequenceMember(n: nat, read: seq<Member>)
    ensures ReadMembers("\"sequence\": " + (NatText(n) + "}"), read) == Got(Obj(Put(read, "sequence", Int(n))), "")
  {
    hide ReadMembers, ReadValue, Put, NatText, Escape, Less;
    KeysAreOrdered();
    ReadSequenceValue(n);
    var value := NatText(n) + "}";
    assert "\"" + "sequence" + "\": " + value == "\"sequence\": " + value;
    ReadSpacedMember("sequence", value, read);
    assert SkipSpaces("}") == "}" && "}"[1..] == "";
  }

  lemma ReadDayMember(d: Day, tail: string, read: seq<Member>)
    requires ValidDay(d) && tail != "" && !IsSpace(tail[0])
    ensures ReadMembers("\"day\": " + ("\"" + DayText(d) + "\"" + (", " + tail)), read) ==
            ReadMembers(tail, Put(read, "day", Str(DayText(d))))
  {
    hide ReadMembers, ReadValue, Put, DayText, Escape, Less;
    KeysAreOrdered();
    var rest := ", " + tail;
    ReadDayValue(d, rest);
    var value := "\"" + DayText(d) + "\"" + rest;
    assert "\"" + "day" + "\": " + value == "\"day\": " + value;
    ReadSpacedMember("day", value, read);
    assert rest[1..] == " " + tail && (" " + tail)[1..] == tail;
    assert SkipSpaces(rest) == rest && SkipSpaces(" " + tail) == SkipSpaces(tail) == tail;
  }

  /** A written mark loads as the table of its day and sequence. */
  lemma MarkLoads(t: Identity)
    requires ValidIdentity(t)
    ensures Loads(MarkText(t)) == Some(Obj([Member("day", Str(DayText(t.day))), Member("sequence", Int(t.sequence))]))
  {
    hide ReadMembers, ReadValue, Put, NatText, DayText;
    var tail := "\"sequence\": " + (NatText(t.sequence) + "}");
    var body := "\"day\": " + ("\"" + DayText(t.day) + "\"" + (", " + tail));
    assert MarkText(t) == "{" + body;
    ReadDayMember(t.day, tail, []);
    ReadSequenceMember(t.sequence, Put([], "day", Str(DayText(t.day))));
    MarkObject(Str(DayText(t.day)), Int(t.sequence));
    BracketIsRead(body);
  }

  /** Writing the mark and reading it gives the same identity back. */
  lemma MarkReadsBack(t: Identity)
    requires ValidIdentity(t)
    ensures ReadMark(MarkText(t)) == Some(t)
  {
    hide Loads, Parse, NatText, DayText, Get;
    MarkLoads(t);
    MarkFields(Str(DayText(t.day)), Int(t.sequence));
    IdentityReadsBack(t);
  }

  // ---------- Allocation ----------

  /** How far an allocation's atomic write gets: it completes, it fails before the replacement, or it is cut off after. */
  datatype WriteOutcome = Completed | FailedBefore | LostAfter

  /** The mark file, and the active day of the running process. */
  datatype State = State(mark: Option<string>, activeDay: Option<Day>)

  /** The identity an allocation would hand out. */
  function Next(s: State, day: Day): (r: Outcome<Identity, AllocationError>)
    requires ValidDay(day)
    ensures r.Ok? ==> ValidIdentity(r.value) && r.value.day == day
  {
    if s.activeDay != Some(day) then Raised(NotActiveDay)
    else if s.mark.None? then Ok(Identity(day, 1))
    else
      match ReadMark(s.mark.value)
      case None => Raised(StartupFailure)
      case Some(previous) =>
        if Earlier(day, previous.day) then Raised(StartupFailure)
        else Ok(Identity(day, if previous.day == day then previous.sequence + 1 else 1))
  }

  datatype Event =
    | Allocate(day: Day, write: WriteOutcome)
    | Prepare(active: Day)
    | Restart

  predicate ValidEvent(e: Event) {
    match e
    case Allocate(day, _) => ValidDay(day)
    case Prepare(active) => ValidDay(active)
    case Restart => true
  }

  function Apply(s: State, e: Event): State
    requires ValidEvent(e)
  {
    match e
    case Prepare(active) => s.(activeDay := Some(active))
    case Restart => s.(activeDay := None)
    case Allocate(day, write) =>
      if Next(s, day).Ok? && !write.FailedBefore? then s.(mark := Some(MarkText(Next(s, day).value))) else s
  }

  /** The identities handed out, as text, in order. */
  function Returned(s: State, e: Event): seq<string>
    requires ValidEvent(e)
  {
    if e.Allocate? && Next(s, e.day).Ok? && e.write.Completed? then [Text(Next(s, e.day).value)] else []
  }

  predicate ValidHistory(events: seq<Event>) {
    forall e :: e in events ==> ValidEvent(e)
  }

  function AllReturned(s: State, events: seq<Event>): seq<string>
    requires ValidHistory(events)
    decreases |events|
  {
    if events == [] then [] else Returned(s, events[0]) + AllReturned(Apply(s, events[0]), events[1..])
  }

  /** Every identity from here on lies after `low`. */
  ghost predicate Above(s: State, low: Identity) {
    s.mark.Some? && ReadMark(s.mark.value).Some? && (ReadMark(s.mark.value).value == low || Before(low, ReadMark(s.mark.value).value))
  }

  lemma NextIsLater(s: State, day: Day)
    requires ValidDay(day) && Next(s, day).Ok?
    ensures s.mark.Some? ==> ReadMark(s.mark.value).Some? && Before(ReadMark(s.mark.value).value, Next(s, day).value)
  {
    hide ReadMark;
    if s.mark.Some? {
      var previous := ReadMark(s.mark.value).value;
      assert !Earlier(day, previous.day) ==> day == previous.day || Earlier(previous.day, day);
    }
  }

  lemma AboveStays(s: State, e: Event, low: Identity)
    requires ValidEvent(e) && Above(s, low)
    ensures Above(Apply(s, e), low)
    ensures Returned(s, e) != [] ==> Before(low, Next(s, e.day).value) && Above(Apply(s, e), Next(s, e.day).value)
  {
    hide ReadMark, MarkText;
    if e.Allocate? && Next(s, e.day).Ok? {
      NextIsLater(s, e.day);
      MarkReadsBack(Next(s, e.day).value);
    }
  }

  lemma {:induction false} ReturnedAreAbove(s: State, events: seq<Event>, low: Identity, k: nat)
    requires ValidHistory(events) && Above(s, low) && k < |AllReturned(s, events)|
    ensures Parse(AllReturned(s, events)[k]).Some? && Before(low, Parse(AllReturned(s, events)[k]).value)
    decreases |events|
  {
    hide Above, Returned, Apply, Parse, Next;
    var e := events[0];
    AboveStays(s, e, low);
    OneAtMost(s, e);
    if k < |Returned(s, e)| {
      IdentityReadsBack(Next(s, e.day).value);
    } else {
      ReturnedAreAbove(Apply(s, e), events[1..], low, k - |Returned(s, e)|);
    }
  }

  lemma OneAtMost(s: State, e: Event)
    requires ValidEvent(e)
    ensures Returned(s, e) == [] || (e.Allocate? && Next(s, e.day).Ok? && Returned(s, e) == [Text(Next(s, e.day).value)])
  {
  }

  /**
   * Over every history of allocations, day changes, failed and cut-off writes and restarts, from whatever the mark file
   * holds: each identity handed out is an identity, and lies after every one handed out before. None is ever reused.
   */
  lemma {:induction false} IdentitiesIncrease(s: State, events: seq<Event>, i: nat, j: nat)
    requires ValidHistory(events) && i < j < |AllReturned(s, events)|
    ensures var texts := AllReturned(s, events);
            && Parse(texts[i]).Some? && Parse(texts[j]).Some? && Before(Parse(texts[i]).value, Parse(texts[j]).value)
            && texts[i] != texts[j]
    decreases |events|
  {
    hide Above, Returned, Apply, Parse, Next, Before;
    var e, rest := events[0], AllReturned(Apply(s, events[0]), events[1..]);
    OneAtMost(s, e);
    if i < |Returned(s, e)| {
      var t := Next(s, e.day).value;
      IdentityReadsBack(t);
      FirstMark(s, e);
      ReturnedAreAbove(Apply(s, e), events[1..], t, j - 1);
      NotItself(t);
    } else {
      IdentitiesIncrease(Apply(s, e), events[1..], i - |Returned(s, e)|, j - |Returned(s, e)|);
    }
  }

  /** A write that fails leaves the mark as it was and hands nothing out; one cut off after it uses its identity up. */
  lemma FailedWrites(s: State, day: Day)
    requires ValidDay(day)
    ensures Apply(s, Allocate(day, FailedBefore)) == s
    ensures Returned(s, Allocate(day, FailedBefore)) == [] && Returned(s, Allocate(day, LostAfter)) == []
    ensures Next(s, day).Ok? ==>
              var t := Apply(s, Allocate(day, LostAfter)); t.mark.Some? && ReadMark(t.mark.value) == Some(Next(s, day).value)
  {
    hide ReadMark, MarkText;
    if Next(s, day).Ok? { MarkReadsBack(Next(s, day).value); }
  }

  // ---------- Within one day ----------

  function Allocations(day: Day, n: nat): (events: seq<Event>)
    requires ValidDay(day)
    ensures ValidHistory(events)
  {
    seq(n, _ => Allocate(day, Completed))
  }

  /** The number the day goes on with: after its own last one, or with one on a day the mark has not reached. */
  function FirstNumber(s: State, day: Day): nat {
    if s.mark.Some? && ReadMark(s.mark.value).Some? && ReadMark(s.mark.value).value.day == day then ReadMark(s.mark.value).value.sequence + 1
    else 1
  }

  ghost predicate MayAllocate(s: State, day: Day) {
    s.activeDay == Some(day) && (s.mark.Some? ==> ReadMark(s.mark.value).Some? && !Earlier(day, ReadMark(s.mark.value).value.day))
  }

  /** The identities of one active day are numbered one after the other, from one on a new day, without a hole. */
  lemma {:induction false} NumberedConsecutively(s: State, day: Day, n: nat, k: nat)
    requires ValidDay(day) && MayAllocate(s, day) && k < n
    ensures |AllReturned(s, Allocations(day, n))| == n
    ensures AllReturned(s, Allocations(day, n))[k] == Text(Identity(day, FirstNumber(s, day) + k))
    decreases n
  {
    hide ReadMark, MarkText, Text;
    var events, e := Allocations(day, n), Allocate(day, Completed);
    var first := Identity(day, FirstNumber(s, day));
    var t := Apply(s, e);
    assert events[0] == e && events[1..] == Allocations(day, n - 1);
    assert Next(s, day) == Ok(first);
    MarkReadsBack(first);
    assert Returned(s, e) == [Text(first)];
    if n > 1 {
      NotEarlierItself(day);
      NumberedConsecutively(t, day, n - 1, if k > 0 then k - 1 else 0);
    } else {
      assert AllReturned(t, events[1..]) == [];
    }
  }

  lemma NotEarlierItself(day: Day)
    ensures !Earlier(day, day)
  {
  }

  lemma NotItself(t: Identity)
    ensures !Before(t, t)
  {
  }

  lemma FirstMark(s: State, e: Event)
    requires ValidEvent(e) && Returned(s, e) != []
    ensures Above(Apply(s, e), Next(s, e.day).value)
  {
    hide ReadMark, MarkText;
    MarkReadsBack(Next(s, e.day).value);
  }

  // ---------- The coordinator ----------

  class AgentDayCoordinator {
    var mark: Option<string>
    var activeDay: Option<Day>

    ghost function Now(): State
      reads this
    {
      State(mark, activeDay)
    }

    constructor (mark: Option<string>)
      ensures Now() == State(mark, None)
    {
      this.mark, activeDay := mark, None;
    }

    method Prepare(active: Day)
      requires ValidDay(active)
      modifies this`activeDay
      ensures Now() == Apply(old(Now()), Event.Prepare(active))
    {
      activeDay := Some(active);
    }

    /** The next identity of the active day, persisted before it is handed out. */
    method AllocateTurn(day: Day, write: WriteOutcome) returns (r: Outcome<string, AllocationError>)
      requires ValidDay(day)
      modifies this`mark
      ensures Now() == Apply(old(Now()), Allocate(day, write))
      ensures Returned(old(Now()), Allocate(day, write)) == if r.Ok? then [r.value] else []
    {
      hide ReadMark, MarkText, Text;
      if activeDay != Some(day) {
        return Raised(NotActiveDay);
      }
      var sequence := 1;
      if mark.Some? {
        var previous := ReadMark(mark.value);
        if previous.None? || Earlier(day, previous.value.day) {
          return Raised(StartupFailure);
        }
        if previous.value.day == day {
          sequence := previous.value.sequence + 1;
        }
      }
      var identity := Identity(day, sequence);
      if write.FailedBefore? {
        return Raised(StartupFailure);
      }
      mark := Some(MarkText(identity));
      return if write.Completed? then Ok(Text(identity)) else Raised(StartupFailure);
    }
  }
}
