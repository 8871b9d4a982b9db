/** Following a page's token again and again: the chain ends, reproduces the items exactly, and needs only a stated budget. */
module PageChain {
  import opened Wrappers
  import opened Json
  import JsonReader
  import opened Continuation
  import opened FloatText
  import opened PageSize
  import opened Paging

  // ---------- Reading a page ----------

  function NextToken(page: seq<Member>): Option<string> {
    match Get(page, "next_continuation")
    case Some(Str(token)) => Some(token)
    case _ => None
  }

  function Fragment(page: seq<Member>): Option<string> {
    match Get(page, "content_fragment")
    case Some(Obj(members)) => (match Get(members, "text") case Some(Str(text)) => Some(text) case _ => None)
    case _ => None
  }

  function Items(page: seq<Member>, field: string): seq<Json> {
    match Get(page, field)
    case Some(Arr(items)) => items
    case _ => []
  }

  /** The page's own three fields have three names, none of which the base uses. */
  predicate ProperFields(q: Query) {
    Acceptable(q) && q.field != "content_fragment" && q.field != "next_continuation" && !Has(q.base, "content_fragment")
  }

  ghost predicate Readable(q: Query, items: seq<Json>, fragment: Option<string>, token: Option<string>) {
    var page := PageMembers(q, items, fragment, token);
    && Get(page, q.field) == Some(Arr(items))
    && Get(page, "content_fragment") == (if fragment.Some? then Some(FragmentValue(fragment.value)) else None)
    && Get(page, "next_continuation") == (if token.Some? then Some(Str(token.value)) else None)
  }

  lemma PageFields(q: Query, items: seq<Json>, fragment: Option<string>, token: Option<string>, key: string)
    ensures Get(PageMembers(q, items, fragment, token), key)
         == if token.Some? && key == "next_continuation" then Some(Str(token.value))
            else if fragment.Some? && key == "content_fragment" then Some(FragmentValue(fragment.value))
            else if key == q.field then Some(Arr(items)) else Get(q.base, key)
  {
    hide Get, Put;
    var whole := Put(q.base, q.field, Arr(items));
    GetPut(q.base, q.field, Arr(items), key);
    if fragment.Some? { GetPut(whole, "content_fragment", FragmentValue(fragment.value), key); }
    var cut := if fragment.Some? then Put(whole, "content_fragment", FragmentValue(fragment.value)) else whole;
    if token.Some? { GetPut(cut, "next_continuation", Str(token.value), key); }
  }

  /**
   * The source only refuses an item field the base already has. That is not enough: its pages can be read back, for
   * every content and token, exactly when the item field is neither reserved name and the base holds no fragment.
   */
  lemma ReadableExactlyWhenProper(q: Query)
    requires Acceptable(q)
    ensures ProperFields(q) <==> forall items, fragment, token :: Readable(q, items, fragment, token)
  {
    hide Get, Put, PageMembers;
    forall items, fragment, token
      ensures ProperFields(q) ==> Readable(q, items, fragment, token)
    {
      PageFields(q, items, fragment, token, q.field);
      PageFields(q, items, fragment, token, "content_fragment");
      PageFields(q, items, fragment, token, "next_continuation");
    }
    if !ProperFields(q) {
      PageFields(q, [], Some(""), Some(""), q.field);
      PageFields(q, [], None, None, "content_fragment");
      assert !Readable(q, [], Some(""), Some("")) || !Readable(q, [], None, None);
    }
  }

  lemma ReadBack(q: Query, cut: Cut)
    requires ProperFields(q)
    ensures var page := PageOf(q, cut);
            && Items(page, q.field) == cut.items && Fragment(page) == cut.fragment && NextToken(page) == Token(q, cut.next)
  {
    hide PageMembers;
    PageFields(q, cut.items, cut.fragment, Token(q, cut.next), q.field);
    PageFields(q, cut.items, cut.fragment, Token(q, cut.next), "content_fragment");
    PageFields(q, cut.items, cut.fragment, Token(q, cut.next), "next_continuation");
    if cut.fragment.Some? {
      var ms := FragmentValue(cut.fragment.value).members;
      assert ms[1..][0] == ms[1];
      assert Get(ms, "text") == Get(ms[1..], "text") == Some(Str(cut.fragment.value));
    }
  }

  /** Every page is an object in canonical form, so its text loads back as the page. */
  lemma PageLoadsBack(q: Query, items: seq<Json>, fragment: Option<string>, token: Option<string>)
    requires JsonReader.Exact(Obj(q.base)) && JsonReader.Exact(Arr(items))
    ensures var page := Obj(PageMembers(q, items, fragment, token));
            JsonReader.Exact(page) && JsonReader.Loads(Dumps(page)) == Some(page)
  {
    hide Put, JsonReader.Loads, Dumps, Less;
    var whole := Put(q.base, q.field, Arr(items));
    PutExact(q.base, q.field, Arr(items));
    if fragment.Some? {
      FragmentExact(fragment.value);
      PutExact(whole, "content_fragment", FragmentValue(fragment.value));
    }
    var cut := if fragment.Some? then Put(whole, "content_fragment", FragmentValue(fragment.value)) else whole;
    if token.Some? { PutExact(cut, "next_continuation", Str(token.value)); }
    JsonReader.LoadsDumps(Obj(PageMembers(q, items, fragment, token)));
  }

  lemma FragmentExact(text: string)
    ensures JsonReader.Exact(FragmentValue(text))
  {
    SortedChain(FragmentValue(text).members);
  }

  lemma PutExact(ms: seq<Member>, key: string, value: Json)
    requires JsonReader.Exact(Obj(ms)) && JsonReader.Exact(value)
    ensures JsonReader.Exact(Obj(Put(ms, key, value)))
  {
    hide Put, Sorted;
    PutSorted(ms, key, value);
    forall i: nat | i < |Put(ms, key, value)| ensures JsonReader.Exact(Put(ms, key, value)[i].value) {
      PutMembers(ms, key, value, i);
    }
  }

  // ---------- One step of the chain ----------

  /** A position the chain can stand at. */
  predicate Reached(q: Query, p: Position) {
    && p.index < |q.items| && p.offset < |Text(q, p.index)|
    && p.digest == if p.offset > 0 then ItemDigest(q.codec.sha, Text(q, p.index)) else ""
  }

  /** The cut is the content between the position and the next one. */
  predicate Covers(q: Query, p: Position, cut: Cut)
    requires Reached(q, p)
  {
    if cut.fragment.None? then
      && p.offset == 0 && 0 < |cut.items| <= |q.items| - p.index
      && cut.items == q.items[p.index..p.index + |cut.items|]
      && cut.next == Boundary(q, p.index + |cut.items|)
    else
      var text := Text(q, p.index);
      var stop := p.offset + |cut.fragment.value|;
      && cut.items == [] && cut.fragment.value != []
      && stop <= |text| && cut.fragment.value == text[p.offset..stop]
      && cut.next == AfterCut(q, p.index, stop)
  }

  lemma CutCovers(q: Query, p: Position)
    requires ValidQuery(q) && Reached(q, p) && PageCut(q, p).Ok?
    ensures Covers(q, p, PageCut(q, p).value)
    ensures PageCut(q, p).value.next.Some? ==> Reached(q, PageCut(q, p).value.next.value)
    ensures Size(PageOf(q, PageCut(q, p).value)) <= q.maxChars
  {
    hide PageMembers, PageSize.Size, Dumps, EncodeToken, BestCut, AfterCut, Text, MayTake;
    var end := GreedyEnd(q, p.index, p.index);
    if p.offset > 0 || end == p.index {
      CutStop(q, p);
    } else {
      GreedyMaximal(q, p.index, p.index);
      assert WholeFits(q, p.index, end);
      BoundaryReached(q, end);
    }
  }

  lemma CutStop(q: Query, p: Position)
    requires ValidQuery(q) && Reached(q, p) && BestCut(q, p.index, p.offset).Some?
    ensures var stop := BestCut(q, p.index, p.offset).value;
            && p.offset < stop <= |Text(q, p.index)| && CutFits(q, p.index, p.offset, stop)
            && var next := AfterCut(q, p.index, stop); next.Some? ==> Reached(q, next.value)
  {
    hide PageMembers, PageSize.Size, Dumps, EncodeToken;
    LastFitIsLargest(q, p.index, p.offset, |Text(q, p.index)| - 1);
    BoundaryReached(q, p.index + 1);
  }

  lemma BoundaryReached(q: Query, index: nat)
    requires ValidQuery(q)
    ensures Boundary(q, index).Some? ==> Reached(q, Boundary(q, index).value)
  {
    hide Dumps;
    if index < |q.items| { TextNonEmpty(q, index); }
  }

  lemma TextNonEmpty(q: Query, index: nat)
    requires ValidQuery(q) && index < |q.items|
    ensures |Text(q, index)| > 0
  {
    DumpsPrintable(q.items[index]);
  }

  /** The binding is one a token made under it accepts. */
  predicate TakesBack(q: Query) {
    SameValue(q.codec.floats, Obj(q.binding), Obj(q.binding))
  }

  lemma TakesBackExactly(q: Query)
    ensures TakesBack(q) <==> q.codec.floats.sharedNaN || NaNFree(q.codec.floats, Obj(q.binding))
  {
    OwnBindingAccepted(q.codec.floats, Obj(q.binding));
  }

  lemma TokenDecodes(q: Query, p: Position)
    requires ValidQuery(q) && Reached(q, p)
    ensures DecodeToken(q.codec, Some(EncodeToken(q.codec, p, q.ref, q.binding)), q.ref, q.binding)
         == if TakesBack(q) then Ok(p) else Raised(Mismatch)
  {
    hide EncodeToken, DecodeToken, SameValue;
    DigestShape(q.codec, Text(q, p.index));
    DecodeEncoded(q.codec, p, q.ref, q.binding, q.codec.owner, q.codec.operation, q.ref, q.binding);
  }

  /** Under a binding with a NaN of its own the first page never leads on: the query refuses the token it made itself. */
  lemma OwnNaNStopsTheChain(q: Query, page: seq<Member>)
    requires ValidQuery(q) && ProperFields(q) && !TakesBack(q)
    requires Page(q, None) == Ok(page) && NextToken(page).Some?
    ensures Page(q, NextToken(page)) == Raised(Mismatch)
  {
    hide PageMembers, PageSize.Size, Dumps, EncodeToken, DecodeToken, PageCut, Get, TakesBack;
    DecodeNone(q);
    if q.items == [] {
      ReadBack(q, Cut([], None, None));
    } else {
      StartReached(q);
      var cut := PageCut(q, START).value;
      CutCovers(q, START);
      ReadBack(q, cut);
      TokenDecodes(q, cut.next.value);
    }
  }

  // ---------- The chain ----------

  function At(q: Query, continuation: Option<string>): Position {
    match DecodeToken(q.codec, continuation, q.ref, q.binding)
    case Ok(p) => p
    case Raised(_) => Position(|q.items|, 0, "")
  }

  function ItemsLeft(q: Query, p: Position): nat {
    if p.index < |q.items| then |q.items| - p.index else 0
  }

  function CharsLeft(q: Query, p: Position): nat {
    if p.index < |q.items| && p.offset <= |Text(q, p.index)| then |Text(q, p.index)| - p.offset else 0
  }

  /** The pages reached by feeding each page's token back, and the failure that stopped it, if any. */
  ghost function Follow(q: Query, continuation: Option<string>): (seq<seq<Member>>, Option<Reason>)
    requires ValidQuery(q) && ProperFields(q) && TakesBack(q)
    requires continuation.Some? ==> Reached(q, At(q, continuation))
    decreases ItemsLeft(q, At(q, continuation)), CharsLeft(q, At(q, continuation))
  {
    match Page(q, continuation)
    case Raised(reason) => ([], Some(reason))
    case Ok(page) =>
      match NextToken(page)
      case None => ([page], None)
      case Some(token) =>
        Progress(q, continuation, page);
        var rest := Follow(q, Some(token));
        ([page] + rest.0, rest.1)
  }

  lemma StartReached(q: Query)
    requires ValidQuery(q) && q.items != []
    ensures At(q, None) == START && Reached(q, START)
  {
    TextNonEmpty(q, 0);
  }

  /** The measure: fewer items left, or the same item with fewer characters left. */
  lemma Progress(q: Query, continuation: Option<string>, page: seq<Member>)
    requires ValidQuery(q) && ProperFields(q) && TakesBack(q) && Page(q, continuation) == Ok(page) && NextToken(page).Some?
    requires continuation.Some? ==> Reached(q, At(q, continuation))
    ensures var p, next := At(q, continuation), At(q, NextToken(page));
            && Reached(q, p) && Reached(q, next) && PageCut(q, p).Ok?
            && page == PageOf(q, PageCut(q, p).value) && PageCut(q, p).value.next == Some(next)
            && (ItemsLeft(q, next) < ItemsLeft(q, p)
                || (ItemsLeft(q, next) == ItemsLeft(q, p) && CharsLeft(q, next) < CharsLeft(q, p)))
  {
    hide PageMembers, PageSize.Size, Dumps, EncodeToken, DecodeToken, PageCut, Get, TakesBack;
    if q.items == [] {
      assert DecodeToken(q.codec, None, q.ref, q.binding) == Ok(START) by { DecodeNone(q); }
      ReadBack(q, Cut([], None, None));
    } else {
      DecodeNone(q);
      StartReached(q);
      var p := At(q, continuation);
      var cut := PageCut(q, p).value;
      CutCovers(q, p);
      ReadBack(q, cut);
      TokenDecodes(q, cut.next.value);
    }
  }

  lemma DecodeNone(q: Query)
    ensures DecodeToken(q.codec, None, q.ref, q.binding) == Ok(START)
  {
  }

  // ---------- Reassembly ----------

  function Texts(items: seq<Json>): seq<string> {
    seq(|items|, i requires 0 <= i < |items| => Dumps(items[i]))
  }

  /**
   * What the owner of the tokens puts together: whole items one by one, and fragments joined until the next position
   * starts an item. A client, to whom tokens are opaque, does not see where one cut item ends and the next begins.
   */
  function Collect(q: Query, pages: seq<seq<Member>>, carry: string): seq<string> {
    if pages == [] then []
    else
      var page := pages[0];
      match Fragment(page)
      case None => Texts(Items(page, q.field)) + Collect(q, pages[1..], "")
      case Some(text) =>
        if NextToken(page).None? || At(q, NextToken(page)).offset == 0 then [carry + text] + Collect(q, pages[1..], "")
        else Collect(q, pages[1..], carry + text)
  }

  /** From any position of the chain on, the rest of the current item and every later item come out once, in order. */
  lemma {:induction false} RestReassembled(q: Query, continuation: Option<string>)
    requires ValidQuery(q) && ProperFields(q) && TakesBack(q) && q.items != []
    requires Reached(q, At(q, continuation))
    requires Follow(q, continuation).1.None?
    ensures var p := At(q, continuation);
            Collect(q, Follow(q, continuation).0, Text(q, p.index)[..p.offset]) == Texts(q.items[p.index..])
    decreases ItemsLeft(q, At(q, continuation)), CharsLeft(q, At(q, continuation))
  {
    hide TakesBack, PageMembers, PageSize.Size, Dumps, EncodeToken, DecodeToken, PageCut, Get, Put, NextToken, Fragment, Items;
    var p := At(q, continuation);
    var page := Page(q, continuation).value;
    PageFollows(q, continuation);
    var cut := PageCut(q, p).value;
    CutCovers(q, p);
    ReadBack(q, cut);
    var carry := Text(q, p.index)[..p.offset];
    if cut.next.Some? { TokenDecodes(q, cut.next.value); }
    var rest := if cut.next.None? then [] else Follow(q, NextToken(page)).0;
    assert Follow(q, continuation).0 == [page] + rest;
    assert ([page] + rest)[1..] == rest;
    if cut.next.Some? { RestReassembled(q, NextToken(page)); }
    StepReassembled(q, p, cut, carry);
  }

  lemma PageFollows(q: Query, continuation: Option<string>)
    requires ValidQuery(q) && ProperFields(q) && TakesBack(q) && q.items != []
    requires Reached(q, At(q, continuation)) && Page(q, continuation).Ok?
    ensures PageCut(q, At(q, continuation)).Ok?
    ensures Page(q, continuation).value == PageOf(q, PageCut(q, At(q, continuation)).value)
  {
    hide PageMembers, PageSize.Size, Dumps, EncodeToken, DecodeToken, PageCut;
    DecodeNone(q);
    StartReached(q);
  }

  /** One cut's contribution: the texts it completes come before those of the next position. */
  lemma StepReassembled(q: Query, p: Position, cut: Cut, carry: string)
    requires Reached(q, p) && Covers(q, p, cut) && carry == Text(q, p.index)[..p.offset]
    requires cut.next.Some? ==> Reached(q, cut.next.value)
    ensures cut.fragment.None? ==>
              Texts(q.items[p.index..]) == Texts(cut.items) + (if cut.next.None? then [] else Texts(q.items[cut.next.value.index..]))
    ensures cut.fragment.None? && cut.next.Some? ==> cut.next.value.offset == 0
    ensures cut.fragment.Some? && (cut.next.None? || cut.next.value.offset == 0) ==>
              Texts(q.items[p.index..])
              == [carry + cut.fragment.value] + (if cut.next.None? then [] else Texts(q.items[cut.next.value.index..]))
    ensures cut.fragment.Some? && cut.next.Some? && cut.next.value.offset > 0 ==>
              cut.next.value.index == p.index && carry + cut.fragment.value == Text(q, p.index)[..cut.next.value.offset]
  {
    hide Dumps, Texts;
    NoTexts(q);
    if cut.fragment.None? {
      var to := p.index + |cut.items|;
      assert q.items[p.index..] == cut.items + q.items[to..];
      TextsConcat(cut.items, q.items[to..]);
    } else {
      var text := Text(q, p.index);
      var stop := p.offset + |cut.fragment.value|;
      assert carry + cut.fragment.value == text[..stop];
      if stop == |text| {
        assert text[..stop] == text;
        NextText(q, p.index);
      }
    }
  }

  lemma NoTexts(q: Query)
    ensures Texts(q.items[|q.items|..]) == []
  {
  }

  lemma NextText(q: Query, index: nat)
    requires index < |q.items|
    ensures Texts(q.items[index..]) == [Text(q, index)] + Texts(q.items[index + 1..])
  {
    assert q.items[index..][1..] == q.items[index + 1..];
  }

  lemma TextsConcat(xs: seq<Json>, ys: seq<Json>)
    ensures Texts(xs + ys) == Texts(xs) + Texts(ys)
  {
  }

  /**
   * Starting with no token and following tokens until none is left, the collected texts are the canonical texts of
   * the items: each once, whole, and in order.
   */
  lemma ChainReproducesItems(q: Query)
    requires ValidQuery(q) && ProperFields(q) && TakesBack(q) && Follow(q, None).1.None?
    ensures Collect(q, Follow(q, None).0, "") == Texts(q.items)
  {
    if q.items == [] {
      hide PageMembers, PageSize.Size, EncodeToken, Get, Put;
      ReadBack(q, Cut([], None, None));
      var page := Page(q, None).value;
      assert Follow(q, None).0 == [page];
      assert [page][1..] == [];
      assert Texts(Items(page, q.field)) == [];
      assert Collect(q, [page], "") == [];
    } else {
      StartReached(q);
      RestReassembled(q, None);
      assert Text(q, 0)[..0] == "";
      assert q.items[0..] == q.items;
    }
  }

  // ---------- Sufficient budget ----------

  function LongestText(items: seq<Json>): nat {
    if items == [] then 0
    else
      var rest := LongestText(items[1..]);
      if |Dumps(items[0])| > rest then |Dumps(items[0])| else rest
  }

  lemma {:induction false} LongestIsLongest(items: seq<Json>, i: nat)
    requires i < |items|
    ensures |Dumps(items[i])| <= LongestText(items)
  {
    hide Dumps;
    if i > 0 { LongestIsLongest(items[1..], i - 1); }
  }

  /** No position of the chain has larger numbers or a longer digest. */
  function LongestPosition(q: Query): Position {
    Position(|q.items|, LongestText(q.items), ItemDigest(q.codec.sha, ""))
  }

  /** The size of a page that shows one doubly written character under the longest token. */
  function SufficientBudget(q: Query): nat {
    Size(PageMembers(q, [], Some("\""), Token(q, Some(LongestPosition(q)))))
  }

  lemma LongestTokenIsLongest(q: Query, p: Position)
    requires ValidQuery(q) && Reached(q, p)
    ensures |EncodeToken(q.codec, p, q.ref, q.binding)| <= |EncodeToken(q.codec, LongestPosition(q), q.ref, q.binding)|
  {
    hide EncodeToken, Dumps, IsItemDigest;
    LongestIsLongest(q.items, p.index);
    DigestShape(q.codec, "");
    DigestShape(q.codec, Text(q, p.index));
    TokenMonotone(q.codec, p, LongestPosition(q), q.ref, q.binding);
  }

  /** Dropping the token from a page only shrinks it. */
  lemma TokenlessIsSmaller(q: Query, fragment: Option<string>, token: string)
    requires ProperFields(q)
    ensures Size(PageMembers(q, [], fragment, None)) <= Size(PageMembers(q, [], fragment, Some(token)))
  {
    hide Get, Put, Dumps, DumpsMembers;
    PageFields(q, [], fragment, None, "next_continuation");
    PutGrows(PageMembers(q, [], fragment, None), "next_continuation", Str(token));
    ObjectSize(PageMembers(q, [], fragment, None));
    ObjectSize(PageMembers(q, [], fragment, Some(token)));
  }

  lemma ObjectSize(ms: seq<Member>)
    ensures PageSize.Size(ms) == |DumpsMembers(ms)| + 2
  {
  }

  lemma FragmentlessIsSmaller(q: Query, text: string)
    requires ProperFields(q)
    ensures Size(PageMembers(q, [], None, None)) <= Size(PageMembers(q, [], Some(text), None))
  {
    hide Get, Put, Dumps, DumpsMembers;
    PageFields(q, [], None, None, "content_fragment");
    PutGrows(PageMembers(q, [], None, None), "content_fragment", FragmentValue(text));
    ObjectSize(PageMembers(q, [], None, None));
    ObjectSize(PageMembers(q, [], Some(text), None));
  }

  /** One more character of an item always fits: written canonically it costs at most two characters in the page. */
  lemma NextCharacterFits(q: Query, index: nat, from: nat)
    requires ValidQuery(q) && ProperFields(q) && index < |q.items| && from < |Text(q, index)|
    ensures Size(FragmentPage(q, index, from, from + 1)) <= SufficientBudget(q)
  {
    hide PageMembers, PageSize.Size, EncodeToken, Dumps;
    var text := Text(q, index);
    var one := text[from..from + 1];
    DumpsPrintable(q.items[index]);
    assert one == [text[from]];
    assert |Escape(one)| <= |Escape("\"")| by { EscapeOne(text[from]); EscapeOne('"'); }
    var next := AfterCut(q, index, from + 1);
    var longest := EncodeToken(q.codec, LongestPosition(q), q.ref, q.binding);
    if next.Some? {
      if next.value.index < |q.items| { TextNonEmpty(q, next.value.index); }
      LongestTokenIsLongest(q, next.value);
      FragmentWithin(q, one, "\"", next.value, LongestPosition(q));
    } else {
      TokenlessIsSmaller(q, Some(one), longest);
      FragmentWithin(q, one, "\"", LongestPosition(q), LongestPosition(q));
    }
  }

  lemma EscapeOne(c: char)
    ensures Escape([c]) == EscapeChar(c)
    ensures |EscapeChar('"')| == 2
  {
    assert [c][1..] == [];
  }

  /**
   * With that budget a position of the chain is never refused for size. The one position that is, whatever the
   * budget, stands at the very end of an item, and no page ever leads there.
   */
  lemma BudgetSuffices(q: Query, p: Position)
    requires ValidQuery(q) && ProperFields(q) && SufficientBudget(q) <= q.maxChars
    requires p.index < |q.items| && p.offset <= |Text(q, p.index)|
    requires p.offset > 0 ==> p.digest == ItemDigest(q.codec.sha, Text(q, p.index))
    requires p.offset == 0 ==> p.digest == ""
    ensures PageCut(q, p) == Raised(BudgetTooSmall) <==> p.offset == |Text(q, p.index)|
  {
    hide PageMembers, PageSize.Size, EncodeToken, Dumps;
    TextNonEmpty(q, p.index);
    var end := |Text(q, p.index)|;
    if p.offset < end {
      NextCharacterFits(q, p.index, p.offset);
      assert CutFits(q, p.index, p.offset, p.offset + 1);
      LastFitIsLargest(q, p.index, p.offset, end - 1);
    }
  }

  lemma {:induction false} ChainSuffices(q: Query, continuation: Option<string>)
    requires ValidQuery(q) && ProperFields(q) && TakesBack(q) && SufficientBudget(q) <= q.maxChars && MayTake(q, 0)
    requires continuation.Some? ==> Reached(q, At(q, continuation))
    ensures Follow(q, continuation).1.None?
    ensures forall page :: page in Follow(q, continuation).0 ==> Size(page) <= q.maxChars
    decreases ItemsLeft(q, At(q, continuation)), CharsLeft(q, At(q, continuation))
  {
    hide TakesBack, PageMembers, PageSize.Size, Dumps, EncodeToken, DecodeToken, PageCut, Get, Put, NextToken;
    DecodeNone(q);
    if q.items == [] {
      var longest := EncodeToken(q.codec, LongestPosition(q), q.ref, q.binding);
      FragmentlessIsSmaller(q, "\"");
      TokenlessIsSmaller(q, Some("\""), longest);
      ReadBack(q, Cut([], None, None));
      BudgetPositive(q);
    } else {
      StartReached(q);
      var p := At(q, continuation);
      BudgetPositive(q);
      BudgetSuffices(q, p);
      NoOtherFailure(q, p);
      CutCovers(q, p);
      var cut := PageCut(q, p).value;
      ReadBack(q, cut);
      if cut.next.Some? {
        TokenDecodes(q, cut.next.value);
        ChainSuffices(q, NextToken(PageOf(q, cut)));
      }
    }
  }

  lemma BudgetPositive(q: Query)
    ensures SufficientBudget(q) > 0
  {
  }

  lemma NoOtherFailure(q: Query, p: Position)
    requires Reached(q, p)
    ensures PageCut(q, p).Raised? ==> PageCut(q, p).error == BudgetTooSmall
  {
    hide PageMembers, PageSize.Size, Dumps, EncodeToken;
  }

  /** Any budget from the stated one up lets the whole chain through: no page fails, and every page fits. */
  lemma ChainNeverTooSmall(q: Query)
    requires ValidQuery(q) && ProperFields(q) && TakesBack(q) && SufficientBudget(q) <= q.maxChars
    requires q.maxItems.Some? ==> q.maxItems.value >= 1
    ensures Follow(q, None).1.None?
    ensures forall page :: page in Follow(q, None).0 ==> Size(page) <= q.maxChars
    ensures Collect(q, Follow(q, None).0, "") == Texts(q.items)
  {
    ChainSuffices(q, None);
    ChainReproducesItems(q);
  }
}
