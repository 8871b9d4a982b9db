/** Tokens that do not fit: made over other content, for another limit of items, or not made here at all. */
module StaleTokens {
  import opened Wrappers
  import opened Json
  import JsonReader
  import Base64Url
  import Utf8
  import opened Continuation
  import opened PageSize
  import opened Paging
  import opened PageChain

  // ---------- The content changes between two pages ----------

  /** The same reader of the same node, over what it holds now. */
  ghost predicate SameReader(q: Query, now: Query) {
    now == q.(items := now.items)
  }

  predicate LimitsHold(q: Query) {
    q.maxChars > 0 && (q.maxItems.Some? ==> q.maxItems.value >= 1) && Acceptable(q)
  }

  /** The digest tells the two texts apart. */
  ghost predicate Tells(sha: seq<Utf8.byte> -> string, a: string, b: string) {
    sha(Utf8.Encode(a)) == sha(Utf8.Encode(b)) ==> a == b
  }

  lemma DigestsDiffer(sha: seq<Utf8.byte> -> string, a: string, b: string)
    requires Tells(sha, a, b)
    ensures ItemDigest(sha, a) == ItemDigest(sha, b) <==> a == b
  {
    assert ItemDigest(sha, a)[7..] == sha(Utf8.Encode(a)) && ItemDigest(sha, b)[7..] == sha(Utf8.Encode(b));
  }

  /**
   * A token for a place inside an item is refused as changed content exactly when that item is still there and its text
   * is no longer the one the token was made over; it is refused as out of range exactly when the item is gone.
   */
  lemma ChangedContentIsRefused(q: Query, now: Query, p: Position)
    requires ValidQuery(q) && TakesBack(q) && Reached(q, p) && SameReader(q, now) && LimitsHold(now)
    requires p.offset > 0 && p.index < |now.items| ==> Tells(q.codec.sha, Dumps(q.items[p.index]), Dumps(now.items[p.index]))
    ensures var r := Page(now, Some(EncodeToken(q.codec, p, q.ref, q.binding)));
            && (r == Raised(OutOfRange) <==> p.index >= |now.items|)
            && (r == Raised(ContentChanged) <==>
                  p.offset > 0 && p.index < |now.items| && Dumps(now.items[p.index]) != Dumps(q.items[p.index]))
            && r != Raised(Invalid) && r != Raised(Mismatch) && r != Raised(InvalidLimit)
  {
    hide Dumps, EncodeToken, DecodeToken, PageMembers, PageSize.Size, TakesBack, BestCut, ItemDigest;
    TokenDecodes(q, p);
    if p.index < |now.items| && p.offset > 0 {
      DigestsDiffer(q.codec.sha, Dumps(q.items[p.index]), Dumps(now.items[p.index]));
    }
  }

  /** A token that is still good shows the present content from its place on, and nothing else. */
  lemma GoodTokenShowsThePresent(q: Query, now: Query, p: Position)
    requires ValidQuery(q) && ValidQuery(now) && TakesBack(q) && Reached(q, p) && SameReader(q, now) && ProperFields(now)
    requires p.offset > 0 && p.index < |now.items| ==> Tells(q.codec.sha, Dumps(q.items[p.index]), Dumps(now.items[p.index]))
    requires Page(now, Some(EncodeToken(q.codec, p, q.ref, q.binding))).Ok?
    ensures p.index < |now.items| && Reached(now, p) && PageCut(now, p).Ok?
    ensures Page(now, Some(EncodeToken(q.codec, p, q.ref, q.binding))) == Ok(PageOf(now, PageCut(now, p).value))
    ensures Covers(now, p, PageCut(now, p).value)
  {
    hide EncodeToken, DecodeToken, PageMembers, PageSize.Size, TakesBack, PageCut, ItemDigest;
    ChangedContentIsRefused(q, now, p);
    TokenDecodes(q, p);
    TextNonEmpty(now, p.index);
    hide Dumps;
    CutCovers(now, p);
  }

  // ---------- Limits ----------

  /** Whatever the token, a page never shows more items than asked for, and its text never exceeds the budget. */
  lemma PageKeepsLimits(q: Query, continuation: Option<string>, page: seq<Member>)
    requires ProperFields(q) && Page(q, continuation) == Ok(page)
    ensures |Dumps(Obj(page))| <= q.maxChars
    ensures q.maxItems.Some? ==> |PageChain.Items(page, q.field)| <= q.maxItems.value
  {
    if q.items == [] || DecodeToken(q.codec, continuation, q.ref, q.binding).value.index >= |q.items| {
      hide Dumps, PageMembers, EncodeToken, DecodeToken, TokenPayload;
      ReadBack(q, Cut([], None, None));
    } else {
      hide DecodeToken, EncodeToken;
      FromKeepsLimits(q, DecodeToken(q.codec, continuation, q.ref, q.binding).value);
    }
  }

  lemma FromKeepsLimits(q: Query, p: Position)
    requires ProperFields(q) && (q.maxItems.Some? ==> q.maxItems.value >= 1) && p.index < |q.items| && PageFrom(q, p).Ok?
    ensures var page := PageFrom(q, p).value;
            && |Dumps(Obj(page))| <= q.maxChars
            && (q.maxItems.Some? ==> |PageChain.Items(page, q.field)| <= q.maxItems.value)
  {
    hide PageMembers, PageSize.Size, FragmentCut, Dumps;
    var end := GreedyEnd(q, p.index, p.index);
    if p.offset > 0 || end == p.index {
      FragmentKeepsLimits(q, p);
    } else {
      GreedyMaximal(q, p.index, p.index);
      assert WholeFits(q, p.index, end) && MayTake(q, end - 1 - p.index);
    }
    ReadBack(q, PageCut(q, p).value);
    SizeIsWritten(PageFrom(q, p).value);
  }

  lemma SizeIsWritten(page: seq<Member>)
    ensures PageSize.Size(page) == |Dumps(Obj(page))|
  {
  }

  lemma FragmentKeepsLimits(q: Query, p: Position)
    requires p.index < |q.items| && FragmentCut(q, p).Ok?
    ensures FragmentCut(q, p).value.items == [] && PageSize.Size(PageOf(q, FragmentCut(q, p).value)) <= q.maxChars
  {
    hide PageMembers, PageSize.Size, EncodeToken, Dumps, ItemDigest;
    if p.offset < |Text(q, p.index)| { LastFitIsLargest(q, p.index, p.offset, |Text(q, p.index)| - 1); }
  }

  // ---------- Tokens made elsewhere ----------

  lemma {:induction false} CutBack(s: string)
    ensures CutAtDot(s).Some? ==> s == CutAtDot(s).value.0 + "." + CutAtDot(s).value.1
  {
    if CutAtDot(s).Some? {
      assert s == [s[0]] + s[1..];
      if s[0] != '.' { CutBack(s[1..]); }
    }
  }

  lemma NullIsNoPosition(c: Codec)
    ensures ReadPosition(c.floats, Null).Raised?
  {
  }

  /** A version, a body that is the text of these members, and the digest of that very body. */
  predicate IsSealed(c: Codec, token: string, encoded: string, body: seq<Utf8.byte>, ms: seq<Member>) {
    && token == "v1." + encoded + "." + c.sha(body) && Base64Url.Read(encoded) == Some(body)
    && Utf8.Decode(body).Some? && JsonReader.Loads(Utf8.Decode(body).value) == Some(Obj(ms))
  }

  /** The members name this version, owner, operation and reference, and a binding equal to this one. */
  predicate IsFor(c: Codec, ms: seq<Member>, ref: string, binding: seq<Member>) {
    && Get(ms, "owner") == Some(Str(c.owner)) && Get(ms, "operation") == Some(Str(c.operation)) && Get(ms, "ref") == Some(Str(ref))
    && Get(ms, "version").Some? && SameValue(c.floats, Get(ms, "version").value, Int(1))
    && Get(ms, "binding").Some? && SameValue(c.floats, Get(ms, "binding").value, Obj(binding))
  }

  /** Every token that is accepted is sealed, and made for this reader, with a valid position. Any other string is refused. */
  lemma AcceptedIsSealed(c: Codec, token: string, ref: string, binding: seq<Member>)
    returns (encoded: string, body: seq<Utf8.byte>, ms: seq<Member>)
    requires DecodeToken(c, Some(token), ref, binding).Ok?
    ensures IsSealed(c, token, encoded, body, ms) && IsFor(c, ms, ref, binding)
    ensures ValidPosition(DecodeToken(c, Some(token), ref, binding).value)
    ensures Get(ms, "position").Some? && ReadPosition(c.floats, Get(ms, "position").value) == DecodeToken(c, Some(token), ref, binding)
  {
    NullIsNoPosition(c);
    hide Get, JsonReader.Loads, Base64Url.Read, Utf8.Decode, ReadPosition, NumberOf;
    CutBack(token);
    var (prefix, tail) := CutAtDot(token).value;
    CutBack(tail);
    encoded := CutAtDot(tail).value.0;
    body := Base64Url.Read(encoded).value;
    ms := TokenPayload(c, token).value.members;
    assert token == "v1" + "." + (encoded + "." + c.sha(body));
  }
}
