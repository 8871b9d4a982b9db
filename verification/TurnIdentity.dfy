/** Calendar days and Turn identities, and the one text each is written as and read from. */
module TurnIdentity {
  import opened Wrappers
  import opened Decimal

  datatype Day = Day(year: nat, month: nat, day: nat)

  predicate IsLeap(year: nat) {
    year % 4 == 0 && (year % 100 != 0 || year % 400 == 0)
  }

  function DaysIn(year: nat, month: nat): nat {
    if month == 2 then if IsLeap(year) then 29 else 28
    else if month in {4, 6, 9, 11} then 30
    else 31
  }

  predicate ValidDay(d: Day) {
    1 <= d.year <= 9999 && 1 <= d.month <= 12 && 1 <= d.day <= DaysIn(d.year, d.month)
  }

  function Two(n: nat): string
    requires n < 100
  {
    [DigitChar(n / 10), DigitChar(n % 10)]
  }

  function DayText(d: Day): (s: string)
    requires ValidDay(d)
    ensures |s| == 10 && '/' !in s
  {
    Two(d.year / 100) + Two(d.year % 100) + "-" + Two(d.month) + "-" + Two(d.day)
  }

  function TwoValue(s: string): (r: Option<nat>)
    requires |s| == 2
    ensures r.Some? ==> r.value < 100 && Two(r.value) == s
  {
    if IsDigit(s[0]) && IsDigit(s[1]) then Some(DigitValue(s[0]) * 10 + DigitValue(s[1])) else None
  }

  /** Only the canonical form of a real date; every other ISO spelling is refused. */
  function ParseDay(s: string): (r: Option<Day>)
    ensures r.Some? ==> ValidDay(r.value)
  {
    if |s| != 10 || s[4] != '-' || s[7] != '-' then None
    else
      match (TwoValue(s[..2]), TwoValue(s[2..4]), TwoValue(s[5..7]), TwoValue(s[8..]))
      case (Some(c), Some(y), Some(m), Some(d)) =>
        var day := Day(c * 100 + y, m, d);
        if ValidDay(day) then Some(day) else None
      case _ => None
  }

  lemma TwoRead(n: nat)
    requires n < 100
    ensures TwoValue(Two(n)) == Some(n)
  {
  }

  lemma DayReadsBack(d: Day)
    requires ValidDay(d)
    ensures ParseDay(DayText(d)) == Some(d)
  {
    var s := DayText(d);
    assert s[..2] == Two(d.year / 100) && s[2..4] == Two(d.year % 100) && s[5..7] == Two(d.month) && s[8..] == Two(d.day);
    hide Two, TwoValue;
    TwoRead(d.year / 100);
    TwoRead(d.year % 100);
    TwoRead(d.month);
    TwoRead(d.day);
  }

  /** A day that can be read is written back as it was. */
  lemma DayWritesBack(s: string)
    requires ParseDay(s).Some?
    ensures DayText(ParseDay(s).value) == s
  {
    assert s == s[..2] + s[2..4] + "-" + s[5..7] + "-" + s[8..];
    var c, y := TwoValue(s[..2]).value, TwoValue(s[2..4]).value;
    assert (c * 100 + y) / 100 == c && (c * 100 + y) % 100 == y;
  }

  predicate Earlier(a: Day, b: Day) {
    a.year < b.year || (a.year == b.year && (a.month < b.month || (a.month == b.month && a.day < b.day)))
  }

  // ---------- Turn identities ----------

  datatype Identity = Identity(day: Day, sequence: nat)

  predicate ValidIdentity(t: Identity) {
    ValidDay(t.day) && t.sequence >= 1
  }

  function Text(t: Identity): string
    requires ValidIdentity(t)
  {
    DayText(t.day) + "/" + NatText(t.sequence)
  }

  /** The text before the first slash, and the text after it. */
  function Partition(s: string): Option<(string, string)> {
    if s == "" then None
    else if s[0] == '/' then Some(("", s[1..]))
    else
      match Partition(s[1..])
      case None => None
      case Some((before, after)) => Some(([s[0]] + before, after))
  }

  function Parse(s: string): (r: Option<Identity>)
    ensures r.Some? ==> ValidIdentity(r.value)
  {
    match Partition(s)
    case None => None
    case Some((day, sequence)) =>
      if sequence == "" || !AllDigits(sequence) || sequence[0] == '0' then None
      else
        assert NatValue(sequence) >= 1 by { PositiveValue(sequence); }
        match ParseDay(day)
        case None => None
        case Some(d) => Some(Identity(d, NatValue(sequence)))
  }

  lemma PositiveValue(s: string)
    requires s != "" && AllDigits(s) && s[0] != '0'
    ensures NatValue(s) >= 1
  {
    WriteRead(s);
  }

  lemma {:induction false} PartitionAt(before: string, after: string)
    requires '/' !in before
    ensures Partition(before + "/" + after) == Some((before, after))
  {
    var s := before + "/" + after;
    if before == "" {
      assert s[1..] == after;
    } else {
      assert before == [before[0]] + before[1..];
      assert s[1..] == before[1..] + "/" + after;
      PartitionAt(before[1..], after);
    }
  }

  lemma {:induction false} PartitionJoins(s: string)
    requires Partition(s).Some?
    ensures s == Partition(s).value.0 + "/" + Partition(s).value.1 && '/' !in Partition(s).value.0
  {
    assert s == [s[0]] + s[1..];
    if s[0] != '/' { PartitionJoins(s[1..]); }
  }

  /** What is written reads back as the same identity. */
  lemma IdentityReadsBack(t: Identity)
    requires ValidIdentity(t)
    ensures Parse(Text(t)) == Some(t)
  {
    PartitionAt(DayText(t.day), NatText(t.sequence));
    DayReadsBack(t.day);
    ReadWritten(t.sequence);
  }

  /** What can be read is written back as it was: there is exactly one text for each identity. */
  lemma IdentityWritesBack(s: string)
    requires Parse(s).Some?
    ensures Text(Parse(s).value) == s
  {
    PartitionJoins(s);
    var (day, sequence) := Partition(s).value;
    DayWritesBack(day);
    WriteRead(sequence);
  }

  /** Identities are ordered by day, then by sequence. */
  predicate Before(a: Identity, b: Identity) {
    Earlier(a.day, b.day) || (a.day == b.day && a.sequence < b.sequence)
  }
}
