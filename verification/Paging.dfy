/** Pages of a JSON sequence under a hard character budget, and the chain of pages their tokens lead through. */
module Paging {
  import opened Wrappers
  import opened Json
  import JsonReader
  import Utf8
  import opened Continuation
  import opened PageSize

  datatype Query = Query(
    items: seq<Json>,
    base: seq<Member>,
    field: string,
    codec: Codec,
    ref: string,
    binding: seq<Member>,
    maxChars: int,
    maxItems: Option<int>)

  ghost predicate ValidQuery(q: Query) {
    && (forall i :: 0 <= i < |q.items| ==> WellFormed(q.items[i]))
    && WellFormed(Obj(q.base))
    && JsonReader.Exact(Obj(q.binding))
    && HexDigests(q.codec.sha)
  }

  // ---------- One page ----------

  function FragmentValue(text: string): Json {
    Obj([Member("encoding", Str("canonical_json")), Member("text", Str(text))])
  }

  function PageMembers(q: Query, items: seq<Json>, fragment: Option<string>, token: Option<string>): seq<Member> {
    var whole := Put(q.base, q.field, Arr(items));
    var cut := if fragment.Some? then Put(whole, "content_fragment", FragmentValue(fragment.value)) else whole;
    if token.Some? then Put(cut, "next_continuation", Str(token.value)) else cut
  }

  function Token(q: Query, next: Option<Position>): Option<string> {
    if next.None? then None else Some(EncodeToken(q.codec, next.value, q.ref, q.binding))
  }

  /** Where reading goes on at an item boundary; nowhere after the last item. */
  function Boundary(q: Query, index: nat): Option<Position> {
    if index < |q.items| then Some(Position(index, 0, "")) else None
  }

  function Text(q: Query, index: nat): string
    requires index < |q.items|
  {
    Dumps(q.items[index])
  }

  function AfterCut(q: Query, index: nat, stop: nat): Option<Position>
    requires index < |q.items|
  {
    var text := Text(q, index);
    if stop < |text| then Some(Position(index, stop, ItemDigest(q.codec.sha, text))) else Boundary(q, index + 1)
  }

  function WholePage(q: Query, from: nat, to: nat): seq<Member>
    requires from <= to <= |q.items|
  {
    PageMembers(q, q.items[from..to], None, Token(q, Boundary(q, to)))
  }

  function FragmentPage(q: Query, index: nat, from: nat, stop: nat): seq<Member>
    requires index < |q.items| && from <= stop <= |Text(q, index)|
  {
    PageMembers(q, [], Some(Text(q, index)[from..stop]), Token(q, AfterCut(q, index, stop)))
  }

  predicate WholeFits(q: Query, from: nat, to: nat)
    requires from <= to <= |q.items|
  {
    Size(WholePage(q, from, to)) <= q.maxChars
  }

  predicate CutFits(q: Query, index: nat, from: nat, stop: nat)
    requires index < |q.items| && from <= stop <= |Text(q, index)|
  {
    Size(FragmentPage(q, index, from, stop)) <= q.maxChars
  }

  predicate MayTake(q: Query, taken: nat) {
    q.maxItems.None? || taken < q.maxItems.value
  }

  /** Greedy end of a whole-item page: the first boundary that cannot be extended by one more item. */
  function GreedyEnd(q: Query, from: nat, to: nat): (end: nat)
    requires from <= to <= |q.items|
    ensures to <= end <= |q.items|
    decreases |q.items| - to
  {
    if to < |q.items| && MayTake(q, to - from) && WholeFits(q, from, to + 1) then GreedyEnd(q, from, to + 1) else to
  }

  /** Every boundary up to the greedy end fits, and the next one does not, unless items or the item limit ran out. */
  lemma {:induction false} GreedyMaximal(q: Query, from: nat, to: nat)
    requires from <= to <= |q.items|
    ensures var end := GreedyEnd(q, from, to);
            && (forall k :: to < k <= end ==> WholeFits(q, from, k) && MayTake(q, k - 1 - from))
            && (end < |q.items| && MayTake(q, end - from) ==> !WholeFits(q, from, end + 1))
    decreases |q.items| - to
  {
    hide WholePage, PageSize.Size;
    if to < |q.items| && MayTake(q, to - from) && WholeFits(q, from, to + 1) {
      GreedyMaximal(q, from, to + 1);
      forall k | to < k <= GreedyEnd(q, from, to)
        ensures WholeFits(q, from, k) && MayTake(q, k - 1 - from)
      {
        if k == to + 1 {
          assert WholeFits(q, from, to + 1);
        } else {
          assert to + 1 < k <= GreedyEnd(q, from, to + 1);
        }
      }
    }
  }

  /** The largest fitting cut in `(from, high]`, or `from`. */
  function LastFit(q: Query, index: nat, from: nat, high: nat): (m: nat)
    requires index < |q.items| && from <= high <= |Text(q, index)|
    ensures from <= m <= high
  {
    if high == from then from
    else if CutFits(q, index, from, high) then high
    else LastFit(q, index, from, high - 1)
  }

  lemma {:induction false} LastFitIsLargest(q: Query, index: nat, from: nat, high: nat)
    requires index < |q.items| && from <= high <= |Text(q, index)|
    ensures var m := LastFit(q, index, from, high);
            && (m > from ==> CutFits(q, index, from, m))
            && (forall k :: m < k <= high ==> !CutFits(q, index, from, k))
  {
    hide FragmentPage, PageSize.Size, Text;
    if high > from && !CutFits(q, index, from, high) { LastFitIsLargest(q, index, from, high - 1); }
  }

  /**
   * The cut a fragment page ends at: the largest fitting one short of the item's end, except that the end itself is
   * taken when every shorter cut fits and so does it. The end is not reached otherwise, although its page may be
   * smaller than an earlier one because the token after it names no offset or is absent.
   */
  function BestCut(q: Query, index: nat, from: nat): Option<nat>
    requires index < |q.items| && from <= |Text(q, index)|
  {
    var end := |Text(q, index)|;
    if from == end then None
    else
      var m := LastFit(q, index, from, end - 1);
      if m == end - 1 && CutFits(q, index, from, end) then Some(end)
      else if m > from then Some(m)
      else None
  }

  /** What one page shows and where reading goes on. */
  datatype Cut = Cut(items: seq<Json>, fragment: Option<string>, next: Option<Position>)

  function FragmentCut(q: Query, p: Position): Outcome<Cut, Reason>
    requires p.index < |q.items|
  {
    var text := Text(q, p.index);
    if p.digest != "" && p.digest != ItemDigest(q.codec.sha, text) then Raised(ContentChanged)
    else if p.offset > |text| then Raised(OutOfRange)
    else
      match BestCut(q, p.index, p.offset)
      case None => Raised(BudgetTooSmall)
      case Some(stop) => Ok(Cut([], Some(text[p.offset..stop]), AfterCut(q, p.index, stop)))
  }

  function PageCut(q: Query, p: Position): Outcome<Cut, Reason>
    requires p.index < |q.items|
  {
    var end := GreedyEnd(q, p.index, p.index);
    if p.offset > 0 || end == p.index then FragmentCut(q, p)
    else Ok(Cut(q.items[p.index..end], None, Boundary(q, end)))
  }

  function PageOf(q: Query, cut: Cut): seq<Member> {
    PageMembers(q, cut.items, cut.fragment, Token(q, cut.next))
  }

  function PageFrom(q: Query, p: Position): Outcome<seq<Member>, Reason>
    requires p.index < |q.items|
  {
    match PageCut(q, p)
    case Raised(reason) => Raised(reason)
    case Ok(cut) => Ok(PageOf(q, cut))
  }

  predicate Acceptable(q: Query) {
    q.field != "" && !Has(q.base, q.field) && !Has(q.base, "next_continuation")
  }

  function Page(q: Query, continuation: Option<string>): Outcome<seq<Member>, Reason> {
    if q.maxChars <= 0 || (q.maxItems.Some? && q.maxItems.value < 1) then Raised(InvalidLimit)
    else if !Acceptable(q) then Raised(Invalid)
    else
      match DecodeToken(q.codec, continuation, q.ref, q.binding)
      case Raised(reason) => Raised(reason)
      case Ok(p) =>
        if p.index >= |q.items| then
          if continuation.None? && q.items == [] then
            if Size(PageMembers(q, [], None, None)) > q.maxChars then Raised(BudgetTooSmall)
            else Ok(PageMembers(q, [], None, None))
          else Raised(OutOfRange)
        else PageFrom(q, p)
  }

  // ---------- The two loops meet this specification ----------

  /** Short of the item's end, a longer cut never writes shorter: the fragment grows and so does the token. */
  lemma CutSizeMonotone(q: Query, index: nat, from: nat, a: nat, b: nat)
    requires ValidQuery(q) && index < |q.items| && from <= a <= b < |Text(q, index)|
    ensures Size(FragmentPage(q, index, from, a)) <= Size(FragmentPage(q, index, from, b))
  {
    var text := Text(q, index);
    var digest := ItemDigest(q.codec.sha, text);
    DigestShape(q.codec, text);
    assert text[from..b] == text[from..a] + text[a..b];
    EscapeGrows(text[from..a], text[a..b]);
    TokenMonotone(q.codec, Position(index, a, digest), Position(index, b, digest), q.ref, q.binding);
    FragmentWithin(q, text[from..a], text[from..b], Position(index, a, digest), Position(index, b, digest));
  }

  lemma ShorterCutFits(q: Query, index: nat, from: nat, a: nat, b: nat)
    requires ValidQuery(q) && index < |q.items| && from <= a <= b < |Text(q, index)| && CutFits(q, index, from, b)
    ensures CutFits(q, index, from, a)
  {
    CutSizeMonotone(q, index, from, a, b);
  }

  lemma DigestShape(c: Codec, text: string)
    requires HexDigests(c.sha)
    ensures IsItemDigest(ItemDigest(c.sha, text))
  {
    var bytes := Utf8.Encode(text);
    assert IsHex64(c.sha(bytes));
    assert ("sha256:" + c.sha(bytes))[..7] == "sha256:" && ("sha256:" + c.sha(bytes))[7..] == c.sha(bytes);
  }

  lemma FragmentValueSize(a: string, b: string)
    requires |Escape(a)| <= |Escape(b)|
    ensures |Dumps(FragmentValue(a))| <= |Dumps(FragmentValue(b))|
  {
    WithinSize(FragmentValue(a).members, FragmentValue(b).members);
  }

  /** A shorter fragment under a shorter token makes a shorter page. */
  lemma FragmentWithin(q: Query, a: string, b: string, p: Position, r: Position)
    requires HexDigests(q.codec.sha) && |Escape(a)| <= |Escape(b)|
    requires |EncodeToken(q.codec, p, q.ref, q.binding)| <= |EncodeToken(q.codec, r, q.ref, q.binding)|
    ensures Size(PageMembers(q, [], Some(a), Token(q, Some(p)))) <= Size(PageMembers(q, [], Some(b), Token(q, Some(r))))
  {
    hide Less, Put, EncodeToken, Escape;
    FragmentValueSize(a, b);
    var s, t := EncodeToken(q.codec, p, q.ref, q.binding), EncodeToken(q.codec, r, q.ref, q.binding);
    TokenPlain(q.codec, p, q.ref, q.binding);
    TokenPlain(q.codec, r, q.ref, q.binding);
    EscapePlain(s);
    EscapePlain(t);
    var whole := Put(q.base, q.field, Arr([]));
    PutWithin(whole, whole, "content_fragment", FragmentValue(a), FragmentValue(b));
    var cutA, cutB := Put(whole, "content_fragment", FragmentValue(a)), Put(whole, "content_fragment", FragmentValue(b));
    PutWithin(cutA, cutB, "next_continuation", Str(s), Str(t));
    WithinSize(Put(cutA, "next_continuation", Str(s)), Put(cutB, "next_continuation", Str(t)));
  }

  /** The state of the search: every cut before `low` fits, and either nothing failed yet or the cut after `high` did. */
  ghost predicate Searching(q: Query, index: nat, from: nat, low: nat, high: nat)
    requires index < |q.items|
  {
    var end := |Text(q, index)|;
    && from < low <= high + 1 && high <= end
    && (forall k :: from < k < low ==> CutFits(q, index, from, k))
    && (high < end ==> !CutFits(q, index, from, high + 1))
    && (high == end - 1 ==> low == end)
  }

  lemma SearchDone(q: Query, index: nat, from: nat, low: nat, high: nat)
    requires ValidQuery(q) && index < |q.items| && Searching(q, index, from, low, high) && low == high + 1
    ensures BestCut(q, index, from) == if low == from + 1 then None else Some(low - 1)
  {
    hide PageMembers, PageSize.Size, Token, Dumps;
    var end := |Text(q, index)|;
    if from < end {
      var m := LastFit(q, index, from, end - 1);
      LastFitIsLargest(q, index, from, end - 1);
      assert low > from + 1 ==> CutFits(q, index, from, low - 1);
      assert end > from + 1 && low == end ==> CutFits(q, index, from, end - 1);
      if low <= m {
        ShorterCutFits(q, index, from, low, m);
      }
    }
  }

  /** The binary search of the source finds exactly the specified cut. */
  method ContinueFragment(q: Query, p: Position) returns (r: Outcome<seq<Member>, Reason>)
    requires ValidQuery(q) && p.index < |q.items|
    ensures r == (match FragmentCut(q, p) case Raised(reason) => Raised(reason) case Ok(cut) => Ok(PageOf(q, cut)))
  {
    hide PageMembers, PageSize.Size, EncodeToken, Dumps;
    var serialized := Dumps(q.items[p.index]);
    var digest := ItemDigest(q.codec.sha, serialized);
    if p.digest != "" && p.digest != digest {
      return Raised(ContentChanged);
    }
    if p.offset > |serialized| {
      return Raised(OutOfRange);
    }
    var low: nat, high: nat := p.offset + 1, |serialized|;
    var best: Option<seq<Member>> := None;
    while low <= high
      invariant Searching(q, p.index, p.offset, low, high)
      invariant best == if low == p.offset + 1 then None else Some(FragmentPage(q, p.index, p.offset, low - 1))
    {
      var stop := (low + high) / 2;
      var next := if stop < |serialized| then Some(Position(p.index, stop, digest))
                  else if p.index + 1 < |q.items| then Some(Position(p.index + 1, 0, "")) else None;
      var candidate := PageMembers(q, [], Some(serialized[p.offset..stop]), Token(q, next));
      if Size(candidate) <= q.maxChars {
        forall k | p.offset < k < stop
          ensures CutFits(q, p.index, p.offset, k)
        {
          if k >= low && stop < |serialized| { ShorterCutFits(q, p.index, p.offset, k, stop); }
        }
        best := Some(candidate);
        low := stop + 1;
      } else {
        high := stop - 1;
      }
    }
    SearchDone(q, p.index, p.offset, low, high);
    if best.None? {
      return Raised(BudgetTooSmall);
    }
    return Ok(best.value);
  }

  /** The page loop of the source; its final size check can never fire. */
  method ContinueFrom(q: Query, p: Position) returns (r: Outcome<seq<Member>, Reason>)
    requires ValidQuery(q) && p.index < |q.items| && MayTake(q, 0)
    ensures r == PageFrom(q, p)
  {
    hide PageMembers, PageSize.Size, EncodeToken, Dumps;
    if p.offset > 0 {
      r := ContinueFragment(q, p);
      return;
    }
    var selected: seq<Json> := [];
    var index := p.index;
    while index < |q.items| && (q.maxItems.None? || |selected| < q.maxItems.value)
      invariant p.index <= index <= |q.items| && selected == q.items[p.index..index]
      invariant index > p.index ==> WholeFits(q, p.index, index)
      invariant GreedyEnd(q, p.index, p.index) == GreedyEnd(q, p.index, index)
    {
      var next := if index + 1 < |q.items| then Some(Position(index + 1, 0, "")) else None;
      var taken := selected + [q.items[index]];
      assert taken == q.items[p.index..index + 1];
      var candidate := PageMembers(q, taken, None, Token(q, next));
      assert candidate == WholePage(q, p.index, index + 1);
      if Size(candidate) > q.maxChars {
        if selected == [] {
          r := ContinueFragment(q, p);
          return;
        }
        break;
      }
      selected := taken;
      index := index + 1;
    }
    var page := PageMembers(q, selected, None, Token(q, if index < |q.items| then Some(Position(index, 0, "")) else None));
    assert page == WholePage(q, p.index, index);
    if Size(page) > q.maxChars {
      return Raised(BudgetTooSmall);
    }
    return Ok(page);
  }

  method ContinueJsonSequence(q: Query, continuation: Option<string>) returns (r: Outcome<seq<Member>, Reason>)
    requires ValidQuery(q)
    ensures r == Page(q, continuation)
  {
    if q.maxChars <= 0 || (q.maxItems.Some? && q.maxItems.value < 1) {
      return Raised(InvalidLimit);
    }
    if q.field == "" || Has(q.base, q.field) || Has(q.base, "next_continuation") {
      return Raised(Invalid);
    }
    var decoded := DecodeToken(q.codec, continuation, q.ref, q.binding);
    if decoded.Raised? {
      return Raised(decoded.error);
    }
    var p := decoded.value;
    if p.index >= |q.items| {
      if continuation.None? && q.items == [] {
        var empty := PageMembers(q, [], None, None);
        if Size(empty) > q.maxChars {
          return Raised(BudgetTooSmall);
        }
        return Ok(empty);
      }
      return Raised(OutOfRange);
    }
    r := ContinueFrom(q, p);
  }
}
