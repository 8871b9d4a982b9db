/** One owner's embedding index over any sequence of calls and provider sessions. */
module EmbeddingIndex {
  import opened Wrappers
  import opened Sequences
  import opened OrderedMap
  import opened EmbeddingResponse
  import opened EmbeddingFile
  import opened EmbeddingCache

  type Positive = n: int | n > 0 witness 1

  /** A session: its identity names its cache file; its model is what its provider computes. */
  datatype Session = Session(identity: string, model: Model, maxBatch: Positive)

  /** What goes wrong first in an attempt; its calls are the batches, in order, and then the query. */
  datatype Fault = NoFault | CallFails(call: nat, recoverable: bool) | CallCancelled(call: nat) | WriteFails

  /** The fault, and whether a cancellation arrives while the cache file is read or while it is written. */
  datatype Course = Course(fault: Fault, cancelledLoading: bool, cancelledWriting: bool)

  datatype Failure = Failed(recoverable: bool) | Cancelled

  /** How an attempt ends: stopped before the file is written, or with a new file, its caller cancelled or served. */
  datatype Ending = Stopped(failure: Failure) | CancelledAfterWriting | Served

  /** The call that stops an attempt of so many calls, if any. */
  function Trouble(fault: Fault, calls: nat): Option<Failure> {
    match fault
    case CallFails(call, recoverable) => if call < calls then Some(Failed(recoverable)) else None
    case CallCancelled(call) => if call < calls then Some(Cancelled) else None
    case WriteFails => None
    case NoFault => None
  }

  /**
   * A cancellation while the file is read is only noticed before the write, so a failing call hides it; one while the
   * file is written is noticed after the write, so a failing write hides it.
   */
  function EndingOf(course: Course, calls: nat): Ending {
    if Trouble(course.fault, calls).Some? then Stopped(Trouble(course.fault, calls).value)
    else if course.cancelledLoading then Stopped(Cancelled)
    else if course.fault.WriteFails? then Stopped(Failed(false))
    else if course.cancelledWriting then CancelledAfterWriting
    else Served
  }

  const MoveOn := Stopped(Failed(true))

  /**
   * A caller is served exactly when nothing fails and no cancellation arrives; a new file is left exactly when nothing fails
   * and the cancellation, if any, came too late; and the next session is tried exactly after a recoverable call, even then
   * when a cancellation had arrived before it.
   */
  lemma EndingsExactly(course: Course, calls: nat)
    ensures var stopped := Trouble(course.fault, calls).Some?;
            && (EndingOf(course, calls) == Served <==>
                  !stopped && course.fault != WriteFails && !course.cancelledLoading && !course.cancelledWriting)
            && (!EndingOf(course, calls).Stopped? <==> !stopped && course.fault != WriteFails && !course.cancelledLoading)
            && (EndingOf(course, calls) == MoveOn <==> course.fault.CallFails? && course.fault.call < calls && course.fault.recoverable)
  {
  }

  /** The requests it takes to embed so many texts. */
  function BatchCount(texts: nat, maxBatch: Positive): nat {
    if texts == 0 then 0 else 1 + BatchCount(if texts <= maxBatch then 0 else texts - maxBatch, maxBatch)
  }

  /** An attempt asks for every batch of missing texts and for the query. */
  function Calls(session: Session, cached: Cached, documents: seq<Pair<string>>): nat {
    BatchCount(|Missing(TextsOf(session.model.digest, documents), cached)|, session.maxBatch) + 1
  }

  /** The texts of the cache files. */
  type Disk = map<string, string>

  function FileOf(disk: Disk, session: Session): Option<string> {
    if session.identity in disk then Some(disk[session.identity]) else None
  }

  function CachedOn(maxChars: nat, disk: Disk, session: Session): Cached {
    Trusted(Load(session.model.repr, maxChars, FileOf(disk, session)), session.model.dimensions)
  }

  function EndingIn(maxChars: nat, disk: Disk, session: Session, documents: seq<Pair<string>>, course: Course): Ending {
    EndingOf(course, Calls(session, CachedOn(maxChars, disk, session), documents))
  }

  /** The provider's own promise, which the response check enforces: every vector is finite and has the model's dimension. */
  ghost predicate Proper(session: Session) {
    session.model.dimensions > 0 && forall t :: Fits(session.model, session.model.embed(t))
  }

  /** The scores when every document is embedded afresh. */
  function FreshScores(m: Model, query: string, documents: seq<Pair<string>>): seq<Pair<real>> {
    seq(|documents|, i requires 0 <= i < |documents| =>
      Pair(documents[i].key, m.cosine(m.embed(query), m.embed(documents[i].value))))
  }

  /** The cache once the missing texts of a call are embedded. */
  function Filled(cached: Cached, m: Model, documents: seq<Pair<string>>): Cached {
    cached + Embedded(m.embed, Missing(TextsOf(m.digest, documents), cached))
  }

  /** The cache a call leaves, most recent last. */
  function After(cached: Cached, m: Model, documents: seq<Pair<string>>): Cached {
    Touched(Filled(cached, m, documents), TextsOf(m.digest, documents))
  }

  /** The scores a call computes from its cache. */
  function Scores(cached: Cached, m: Model, query: string, documents: seq<Pair<string>>): seq<Pair<real>> {
    var filled := Filled(cached, m, documents);
    seq(|documents|, i requires 0 <= i < |documents| =>
      Pair(documents[i].key, m.cosine(m.embed(query), match Find(filled, m.digest(documents[i].value)) case Some(v) => v case None => [])))
  }

  /** A batch the provider is asked to embed. */
  function Concatenated(batches: seq<seq<string>>): seq<string> {
    if batches == [] then [] else batches[0] + Concatenated(batches[1..])
  }

  lemma {:induction false} ConcatenatedAppend(batches: seq<seq<string>>, last: seq<string>)
    ensures Concatenated(batches + [last]) == Concatenated(batches) + last
  {
    if batches == [] {
      assert batches + [last] == [last] && [last][1..] == [];
    } else {
      assert (batches + [last])[1..] == batches[1..] + [last];
      ConcatenatedAppend(batches[1..], last);
    }
  }

  function Values(texts: seq<Pair<string>>): seq<string> {
    seq(|texts|, i requires 0 <= i < |texts| => texts[i].value)
  }

  // ---------- Transparency ----------

  lemma FilledCovers(cached: Cached, m: Model, documents: seq<Pair<string>>)
    requires Unique(cached)
    ensures forall d :: d in documents ==> Find(Filled(cached, m, documents), m.digest(d.value)).Some?
  {
    var texts := TextsOf(m.digest, documents);
    TextsAreDigested(m, set d | d in documents :: d.value, documents);
    MissingIsTheRest(texts, cached);
    var more := Embedded(m.embed, Missing(texts, cached));
    assert Keys(more) == Keys(Missing(texts, cached));
    forall d | d in documents ensures Find(cached + more, m.digest(d.value)).Some? {
      FindAppend(cached, more, m.digest(d.value));
      FindIsKey(cached, m.digest(d.value));
      FindIsKey(more, m.digest(d.value));
    }
  }

  lemma {:induction false} TrustedIsUnique(loaded: seq<Pair<Stored>>, dimensions: nat)
    requires Unique(loaded)
    ensures Unique(Trusted(loaded, dimensions)) && forall k :: k in Keys(Trusted(loaded, dimensions)) ==> k in Keys(loaded)
  {
    if loaded != [] {
      var e, rest := loaded[0], Trusted(loaded[1..], dimensions);
      UniqueTail(loaded);
      TrustedIsUnique(loaded[1..], dimensions);
      assert Keys(loaded) == [e.key] + Keys(loaded[1..]);
      var first := Pair(e.key, e.value.vector);
      UniqueCons(first, rest);
      assert Keys([first] + rest) == [e.key] + Keys(rest);
      assert [] + rest == rest;
    }
  }

  /** Whatever the file holds, no digest has two vectors. */
  lemma CachedIsUnique(maxChars: nat, disk: Disk, session: Session)
    ensures Unique(CachedOn(maxChars, disk, session))
  {
    LoadedIsUnique(session.model.repr, maxChars, FileOf(disk, session));
    TrustedIsUnique(Load(session.model.repr, maxChars, FileOf(disk, session)), session.model.dimensions);
  }

  lemma {:induction false} TrustedDimensions(loaded: seq<Pair<Stored>>, dimensions: nat)
    ensures forall e :: e in Trusted(loaded, dimensions) ==> |e.value| == dimensions
  {
    if loaded != [] { TrustedDimensions(loaded[1..], dimensions); }
  }

  /** Every vector a call scores with has the model's dimension: the call's own check of it never fails. */
  lemma DimensionsAgree(maxChars: nat, disk: Disk, session: Session, documents: seq<Pair<string>>, key: string)
    requires Proper(session) && Find(Filled(CachedOn(maxChars, disk, session), session.model, documents), key).Some?
    ensures |Find(Filled(CachedOn(maxChars, disk, session), session.model, documents), key).value| == session.model.dimensions
  {
    var cached := CachedOn(maxChars, disk, session);
    var filled := Filled(cached, session.model, documents);
    TrustedDimensions(Load(session.model.repr, maxChars, FileOf(disk, session)), session.model.dimensions);
    FoundIsMember(filled, key);
    var e := Pair(key, Find(filled, key).value);
    if e !in cached {
      var missing := Missing(TextsOf(session.model.digest, documents), cached);
      var i :| 0 <= i < |missing| && Embedded(session.model.embed, missing)[i] == e;
      assert e.value == session.model.embed(missing[i].value);
    }
  }

  /** Whatever a sound cache holds, a call scores as if it had embedded every document afresh. */
  lemma CallIsTransparent(m: Model, universe: set<string>, cached: Cached, query: string, documents: seq<Pair<string>>)
    requires Faithful(m, universe) && Sound(m, universe, cached) && Covers(universe, documents)
    ensures Scores(cached, m, query, documents) == FreshScores(m, query, documents)
  {
    var texts := TextsOf(m.digest, documents);
    TextsAreDigested(m, universe, documents);
    FilledIsSound(m, universe, cached, texts);
    FilledCovers(cached, m, documents);
    forall i | 0 <= i < |documents|
      ensures Find(Filled(cached, m, documents), m.digest(documents[i].value)) == Some(m.embed(documents[i].value))
    {
      assert documents[i] in documents;
    }
  }

  lemma AfterIsSound(m: Model, universe: set<string>, cached: Cached, documents: seq<Pair<string>>)
    requires Faithful(m, universe) && Sound(m, universe, cached) && Covers(universe, documents)
    ensures Sound(m, universe, After(cached, m, documents))
  {
    var texts := TextsOf(m.digest, documents);
    TextsAreDigested(m, universe, documents);
    FilledIsSound(m, universe, cached, texts);
    TouchedIsSound(m, universe, Filled(cached, m, documents), texts);
  }

  /** What is written, read back, is still sound. */
  lemma ReloadIsSound(m: Model, universe: set<string>, cached: Cached, maxChars: nat)
    requires Sound(m, universe, cached) && m.dimensions > 0
    ensures Sound(m, universe, Trusted(Load(m.repr, maxChars, Some(Written(maxChars, cached))), m.dimensions))
  {
    if maxChars < 2 {
      hide EntryTexts, Kept, ToStored;
    } else {
      hide Kept, Load, Written, FileText, ToStored, Trusted, Used;
      WrittenIsLoaded(m.repr, maxChars, cached);
      KeptIsSound(m, universe, cached, maxChars);
      TrustedOfStored(Kept(maxChars, cached), m.dimensions);
    }
  }

  ghost predicate DiskSound(maxChars: nat, disk: Disk, sessions: set<Session>, universe: set<string>) {
    forall s :: s in sessions ==> Sound(s.model, universe, CachedOn(maxChars, disk, s))
  }

  /** Sessions of one identity are one provider space, and each is faithful to the texts in use. */
  ghost predicate Spaces(sessions: set<Session>, universe: set<string>) {
    && (forall s :: s in sessions ==> Proper(s) && Faithful(s.model, universe))
    && forall s, t :: s in sessions && t in sessions && s.identity == t.identity ==> s.model == t.model
  }

  /** A call, and whether it gets to write the cache file. */
  datatype Call = Call(session: Session, query: string, documents: seq<Pair<string>>, writes: bool)

  function AfterCall(maxChars: nat, disk: Disk, call: Call): Disk {
    if call.writes then
      disk[call.session.identity :=
        Written(maxChars, After(CachedOn(maxChars, disk, call.session), call.session.model, call.documents))]
    else disk
  }

  function AfterCalls(maxChars: nat, disk: Disk, calls: seq<Call>): Disk {
    if calls == [] then disk else AfterCall(maxChars, AfterCalls(maxChars, disk, calls[..|calls| - 1]), calls[|calls| - 1])
  }

  /** What an attempt that ends so leaves on disk and tells its caller. */
  predicate Leaves(maxChars: nat, before: Disk, session: Session, query: string, documents: seq<Pair<string>>, ending: Ending,
                   after: Disk, r: Outcome<seq<Pair<real>>, Failure>)
  {
    && after == AfterCall(maxChars, before, Call(session, query, documents, !ending.Stopped?))
    && r == match ending
            case Stopped(failure) => Raised(failure)
            case CancelledAfterWriting => Raised(Cancelled)
            case Served => Ok(Scores(CachedOn(maxChars, before, session), session.model, query, documents))
  }

  /** The first attempts all fail recoverably. */
  predicate AllMoveOn(maxChars: nat, disk: Disk, sessions: seq<Session>, documents: seq<Pair<string>>, courses: seq<Course>, n: nat)
    requires n <= |sessions| == |courses|
  {
    forall i :: 0 <= i < n ==> EndingIn(maxChars, disk, sessions[i], documents, courses[i]) == MoveOn
  }

  lemma NoneTried(maxChars: nat, disk: Disk, sessions: seq<Session>, documents: seq<Pair<string>>, courses: seq<Course>)
    requires |sessions| == |courses|
    ensures AllMoveOn(maxChars, disk, sessions, documents, courses, 0)
  {
  }

  lemma OneMore(maxChars: nat, disk: Disk, sessions: seq<Session>, documents: seq<Pair<string>>, courses: seq<Course>, n: nat)
    requires n < |sessions| == |courses| && AllMoveOn(maxChars, disk, sessions, documents, courses, n)
    ensures AllMoveOn(maxChars, disk, sessions, documents, courses, n + 1)
       <==> EndingIn(maxChars, disk, sessions[n], documents, courses[n]) == MoveOn
  {
    hide EndingIn;
  }

  lemma MovesOn(maxChars: nat, before: Disk, session: Session, query: string, documents: seq<Pair<string>>, ending: Ending,
                after: Disk, r: Outcome<seq<Pair<real>>, Failure>)
    requires Leaves(maxChars, before, session, query, documents, ending, after, r)
    ensures r == Raised(Failed(true)) <==> ending == MoveOn
    ensures ending == MoveOn ==> after == before
  {
  }

  lemma CachedAfter(maxChars: nat, disk: Disk, call: Call, s: Session)
    requires call.writes
    ensures s.identity != call.session.identity ==> CachedOn(maxChars, AfterCall(maxChars, disk, call), s) == CachedOn(maxChars, disk, s)
    ensures s.identity == call.session.identity ==>
              CachedOn(maxChars, AfterCall(maxChars, disk, call), s) ==
              Trusted(Load(s.model.repr, maxChars, Some(Written(maxChars, After(CachedOn(maxChars, disk, call.session), call.session.model, call.documents)))),
                      s.model.dimensions)
  {
    hide Trusted, Load, Written, After;
  }

  lemma CallKeepsDisk(maxChars: nat, disk: Disk, sessions: set<Session>, universe: set<string>, call: Call)
    requires Spaces(sessions, universe) && DiskSound(maxChars, disk, sessions, universe)
    requires call.session in sessions && Covers(universe, call.documents)
    ensures DiskSound(maxChars, AfterCall(maxChars, disk, call), sessions, universe)
  {
    hide Sound, CachedOn, After, Trusted, Load, Written, Faithful;
    if call.writes {
      var m := call.session.model;
      var cached := CachedOn(maxChars, disk, call.session);
      AfterIsSound(m, universe, cached, call.documents);
      ReloadIsSound(m, universe, After(cached, m, call.documents), maxChars);
      forall s | s in sessions ensures Sound(s.model, universe, CachedOn(maxChars, AfterCall(maxChars, disk, call), s)) {
        CachedAfter(maxChars, disk, call, s);
      }
    }
  }

  /**
   * Over any sequence of calls, on any of the sessions, served, failed or cancelled: the next call scores exactly as if it embedded
   * every document afresh.
   */
  lemma {:induction false} EveryCallIsTransparent(maxChars: nat, disk: Disk, sessions: set<Session>, universe: set<string>,
                                                  calls: seq<Call>, next: Call)
    requires Spaces(sessions, universe) && DiskSound(maxChars, disk, sessions, universe)
    requires forall c :: c in calls + [next] ==> c.session in sessions && Covers(universe, c.documents)
    ensures DiskSound(maxChars, AfterCalls(maxChars, disk, calls), sessions, universe)
    ensures Scores(CachedOn(maxChars, AfterCalls(maxChars, disk, calls), next.session), next.session.model, next.query, next.documents)
         == FreshScores(next.session.model, next.query, next.documents)
    decreases |calls|
  {
    hide DiskSound, Spaces, Covers, AfterCall, Scores, FreshScores, CachedOn;
    if calls == [] {
      assert AfterCalls(maxChars, disk, calls) == disk;
    } else {
      var n := |calls| - 1;
      assert calls + [next] == calls[..n] + [calls[n]] + [next];
      EveryCallIsTransparent(maxChars, disk, sessions, universe, calls[..n], calls[n]);
      CallKeepsDisk(maxChars, AfterCalls(maxChars, disk, calls[..n]), sessions, universe, calls[n]);
    }
    assert next in calls + [next];
    NextIsTransparent(maxChars, AfterCalls(maxChars, disk, calls), sessions, universe, next);
  }

  lemma NextIsTransparent(maxChars: nat, disk: Disk, sessions: set<Session>, universe: set<string>, next: Call)
    requires Spaces(sessions, universe) && DiskSound(maxChars, disk, sessions, universe)
    requires next.session in sessions && Covers(universe, next.documents)
    ensures Scores(CachedOn(maxChars, disk, next.session), next.session.model, next.query, next.documents)
         == FreshScores(next.session.model, next.query, next.documents)
  {
    hide Scores, FreshScores, CachedOn, Sound, Faithful, Proper, Covers;
    CallIsTransparent(next.session.model, universe, CachedOn(maxChars, disk, next.session), next.query, next.documents);
  }

  lemma EmptyDiskIsSound(maxChars: nat, sessions: set<Session>, universe: set<string>)
    ensures DiskSound(maxChars, map[], sessions, universe)
  {
  }

  /** In particular from an empty cache directory, whatever has been called since. */
  lemma TransparentFromNothing(maxChars: nat, sessions: set<Session>, universe: set<string>, calls: seq<Call>, next: Call)
    requires Spaces(sessions, universe)
    requires forall c :: c in calls + [next] ==> c.session in sessions && Covers(universe, c.documents)
    ensures Scores(CachedOn(maxChars, AfterCalls(maxChars, map[], calls), next.session), next.session.model, next.query, next.documents)
         == FreshScores(next.session.model, next.query, next.documents)
  {
    hide *;
    EmptyDiskIsSound(maxChars, sessions, universe);
    EveryCallIsTransparent(maxChars, map[], sessions, universe, calls, next);
  }

  // ---------- What a later call is spared ----------

  lemma {:induction false} AllKept(maxChars: nat, cached: Cached)
    requires Used(cached) <= maxChars
    ensures Kept(maxChars, cached) == cached
  {
    hide Size;
    if cached != [] {
      AllKept(maxChars, cached[1..]);
      assert cached == [cached[0]] + cached[1..];
    }
  }

  /** After a call has written its file, the next load finds exactly what the call kept. */
  lemma NextLoadFindsKept(maxChars: nat, disk: Disk, call: Call, universe: set<string>)
    requires maxChars >= 2 && call.writes && Faithful(call.session.model, universe) && Covers(universe, call.documents)
    requires Sound(call.session.model, universe, CachedOn(maxChars, disk, call.session))
    ensures CachedOn(maxChars, AfterCall(maxChars, disk, call), call.session)
         == Kept(maxChars, After(CachedOn(maxChars, disk, call.session), call.session.model, call.documents))
  {
    var m := call.session.model;
    var after := After(CachedOn(maxChars, disk, call.session), m, call.documents);
    CachedAfter(maxChars, disk, call, call.session);
    AfterIsSound(m, universe, CachedOn(maxChars, disk, call.session), call.documents);
    KeptFits(m, universe, after, maxChars);
    hide CachedOn, After, Kept, Load, Written, Trusted, Used, ToStored, Sound, AfterCall;
    WrittenIsLoaded(m.repr, maxChars, after);
    TrustedOfStored(Kept(maxChars, after), m.dimensions);
  }

  lemma KeptFits(m: Model, universe: set<string>, cached: Cached, maxChars: nat)
    requires Sound(m, universe, cached) && m.dimensions > 0
    ensures Unique(cached) && forall e :: e in cached ==> e.value != [] && AllComponents(m.repr, e.value)
    ensures forall e :: e in Kept(maxChars, cached) ==> |e.value| == m.dimensions
  {
    KeptIsSound(m, universe, cached, maxChars);
    hide Kept, AllComponents;
  }

  /**
   * A later call asks the provider only for what no earlier call of the space left behind: a text is embedded again exactly
   * when it was not kept. So within the budget nothing is embedded twice.
   */
  lemma LaterCallEmbedsDropped(maxChars: nat, disk: Disk, call: Call, universe: set<string>, later: seq<Pair<string>>)
    requires maxChars >= 2 && call.writes && Faithful(call.session.model, universe)
    requires Covers(universe, call.documents) && Covers(universe, later)
    requires Sound(call.session.model, universe, CachedOn(maxChars, disk, call.session))
    ensures var m := call.session.model;
            var after := After(CachedOn(maxChars, disk, call.session), m, call.documents);
            var texts := TextsOf(m.digest, later);
            forall p :: p in Missing(texts, CachedOn(maxChars, AfterCall(maxChars, disk, call), call.session)) <==>
                          p in texts && p.key !in Keys(Kept(maxChars, after))
  {
    NextLoadFindsKept(maxChars, disk, call, universe);
    TextsAreDigested(call.session.model, universe, later);
    hide CachedOn, After, Kept, AfterCall, Sound, Missing, TextsOf;
    MissingIsTheRest(TextsOf(call.session.model.digest, later), CachedOn(maxChars, AfterCall(maxChars, disk, call), call.session));
  }

  lemma RepeatEmbedsNothing(maxChars: nat, disk: Disk, call: Call, universe: set<string>)
    requires maxChars >= 2 && call.writes && Faithful(call.session.model, universe) && Covers(universe, call.documents)
    requires Sound(call.session.model, universe, CachedOn(maxChars, disk, call.session))
    requires Used(After(CachedOn(maxChars, disk, call.session), call.session.model, call.documents)) <= maxChars
    ensures Missing(TextsOf(call.session.model.digest, call.documents), CachedOn(maxChars, AfterCall(maxChars, disk, call), call.session)) == []
  {
    var m, cached := call.session.model, CachedOn(maxChars, disk, call.session);
    var texts, after := TextsOf(m.digest, call.documents), After(cached, m, call.documents);
    TextsAreDigested(m, universe, call.documents);
    FilledIsSound(m, universe, cached, texts);
    TouchedIsSound(m, universe, Filled(cached, m, call.documents), texts);
    AllKept(maxChars, after);
    LaterCallEmbedsDropped(maxChars, disk, call, universe, call.documents);
    forall p | p in texts ensures p.key in Keys(after) { StillCached(Filled(cached, m, call.documents), after, texts, p); }
    hide CachedOn, Kept, AfterCall, Sound, Missing, TextsOf, Used, After;
    NothingMissing(texts, after, Missing(texts, CachedOn(maxChars, AfterCall(maxChars, disk, call), call.session)));
  }

  lemma NothingMissing(texts: seq<Pair<string>>, kept: Cached, missing: seq<Pair<string>>)
    requires forall p :: p in missing <==> p in texts && p.key !in Keys(kept)
    requires forall p :: p in texts ==> p.key in Keys(kept)
    ensures missing == []
  {
    if missing != [] { Inhabited(missing); }
  }

  lemma Inhabited<T>(xs: seq<T>)
    requires xs != []
    ensures exists x :: x in xs
  {
    assert xs[0] in xs;
  }

  lemma StillCached(filled: Cached, after: Cached, texts: seq<Pair<string>>, p: Pair<string>)
    requires p in texts && (forall k :: k in Keys(texts) ==> k in Keys(filled)) && forall k :: Find(after, k) == Find(filled, k)
    ensures p.key in Keys(after)
  {
    MemberKey(texts, p);
    FindIsKey(filled, p.key);
    FindIsKey(after, p.key);
  }

  lemma NothingEmbedded(embed: string -> Vector, missing: seq<Pair<string>>)
    ensures Embedded(embed, missing[..0]) == [] && Values(missing[..0]) == [] && Concatenated([]) == []
  {
  }

  lemma NextChunk(embed: string -> Vector, missing: seq<Pair<string>>, start: nat, end: nat)
    requires start <= end <= |missing|
    ensures Embedded(embed, missing[..end]) == Embedded(embed, missing[..start]) + Embedded(embed, missing[start..end])
    ensures Values(missing[..end]) == Values(missing[..start]) + Values(missing[start..end])
    ensures |Values(missing[start..end])| == end - start
  {
  }

  class EmbeddingIndex {
    const maxChars: nat
    var disk: Disk

    constructor (maxChars: nat)
      ensures this.maxChars == maxChars && disk == map[]
    {
      this.maxChars := maxChars;
      disk := map[];
    }

    /** The missing texts in batches: each text once, in order, no batch too large and none empty. */
    method EmbedMissing(session: Session, missing: seq<Pair<string>>, cached: Cached, fault: Fault)
      returns (r: Outcome<Cached, Failure>, batches: seq<seq<string>>)
      ensures r == match Trouble(fault, BatchCount(|missing|, session.maxBatch))
                   case Some(failure) => Raised(failure)
                   case None => Ok(cached + Embedded(session.model.embed, missing))
      ensures r.Ok? ==> Concatenated(batches) == Values(missing) && |batches| == BatchCount(|missing|, session.maxBatch)
      ensures forall b :: b in batches ==> 0 < |b| <= session.maxBatch
    {
      hide Embedded, Values, Concatenated;
      var filled := cached;
      batches := [];
      var start := 0;
      NothingEmbedded(session.model.embed, missing);
      while start < |missing|
        invariant 0 <= start <= |missing|
        invariant filled == cached + Embedded(session.model.embed, missing[..start])
        invariant Concatenated(batches) == Values(missing[..start])
        invariant |batches| + BatchCount(|missing| - start, session.maxBatch) == BatchCount(|missing|, session.maxBatch)
        invariant Trouble(fault, |batches|).None?
        invariant forall b :: b in batches ==> 0 < |b| <= session.maxBatch
      {
        var end := if start + session.maxBatch <= |missing| then start + session.maxBatch else |missing|;
        var chunk := missing[start..end];
        NextChunk(session.model.embed, missing, start, end);
        ConcatenatedAppend(batches, Values(chunk));
        batches := batches + [Values(chunk)];
        var trouble := Trouble(fault, |batches|);
        if trouble.Some? {
          return Raised(trouble.value), batches;
        }
        filled := filled + Embedded(session.model.embed, chunk);
        start := end;
      }
      assert missing[..|missing|] == missing;
      return Ok(filled), batches;
    }

    /** The texts of the call, one after the other, become the most recent entries. */
    method Touch(cached: Cached, texts: seq<Pair<string>>) returns (touched: Cached)
      ensures touched == Touched(cached, texts)
    {
      touched := cached;
      assert texts[0..] == texts;
      for i := 0 to |texts|
        invariant Touched(cached, texts) == Touched(touched, texts[i..])
      {
        assert texts[i..][1..] == texts[i + 1..];
        var digest := texts[i].key;
        var found := Find(touched, digest);
        if found.Some? {
          touched := Remove(touched, digest) + [Pair(digest, found.value)];
        }
      }
    }

    /** From the most recent entry back, whatever still fits. */
    method Keep(cached: Cached) returns (kept: Cached)
      ensures kept == Kept(maxChars, cached)
    {
      hide Size;
      kept := [];
      var used, i := 2, |cached|;
      while i > 0
        invariant 0 <= i <= |cached| && kept == Kept(maxChars, cached[i..]) && used == Used(kept)
      {
        i := i - 1;
        assert cached[i..][1..] == cached[i + 1..];
        var size := Size(cached[i]);
        if used + size <= maxChars {
          assert ([cached[i]] + kept)[1..] == kept;
          kept := [cached[i]] + kept;
          used := used + size;
        }
      }
      assert cached[0..] == cached;
    }

    /** The scores of a filled cache; the check of the vectors' dimension never fails. */
    method Score(session: Session, query: string, documents: seq<Pair<string>>, ghost cached: Cached, filled: Cached)
      returns (r: Option<seq<Pair<real>>>)
      requires Proper(session) && cached == CachedOn(maxChars, disk, session) && Unique(cached)
      requires filled == Filled(cached, session.model, documents)
      ensures r == Some(Scores(cached, session.model, query, documents))
    {
      hide Filled, Unique, Find, CachedOn;
      var m := session.model;
      var queryVector := m.embed(query);
      FilledCovers(cached, m, documents);
      var scores: seq<Pair<real>> := [];
      for i := 0 to |documents|
        invariant scores == Scores(cached, m, query, documents)[..i]
      {
        assert documents[i] in documents;
        var digest := m.digest(documents[i].value);
        var vector := Find(filled, digest).value;
        DimensionsAgree(maxChars, disk, session, documents, digest);
        if |vector| != |queryVector| {
          return None;
        }
        scores := scores + [Pair(documents[i].key, m.cosine(queryVector, vector))];
      }
      assert Scores(cached, m, query, documents)[..|documents|] == Scores(cached, m, query, documents);
      return Some(scores);
    }

    /** One attempt in one session: it scores from the cache, and leaves a new cache file exactly when it gets to write. */
    method Attempt(session: Session, query: string, documents: seq<Pair<string>>, course: Course)
      returns (r: Outcome<seq<Pair<real>>, Failure>)
      requires Proper(session)
      modifies this`disk
      ensures Leaves(maxChars, old(disk), session, query, documents, EndingIn(maxChars, old(disk), session, documents, course), disk, r)
    {
      hide CachedOn, Missing, TextsOf, Embedded, Scores, Touched, Kept, FileText, Unique, Fits, BatchCount;
      var m := session.model;
      var cached := CachedOn(maxChars, disk, session);
      CachedIsUnique(maxChars, disk, session);
      var texts := TextsOf(m.digest, documents);
      var missing := Missing(texts, cached);
      var embedded, batches := EmbedMissing(session, missing, cached, course.fault);
      if embedded.Raised? {
        return Raised(embedded.error);
      }
      var trouble := Trouble(course.fault, |batches| + 1);
      if trouble.Some? {
        return Raised(trouble.value);
      }
      var scored := Score(session, query, documents, cached, embedded.value);
      if scored.None? {
        return Raised(Failed(false));
      }
      var touched := Touch(embedded.value, texts);
      var kept := Keep(touched);
      if course.cancelledLoading {
        return Raised(Cancelled);
      }
      if course.fault.WriteFails? {
        return Raised(Failed(false));
      }
      disk := disk[session.identity := FileText(ToStored(kept))];
      if course.cancelledWriting {
        return Raised(Cancelled);
      }
      return Ok(scored.value);
    }

    /**
     * Sessions are tried in order; only a recoverable failure moves on to the next, and what is then tried starts afresh,
     * so a cancellation noticed in the failed session's file read is forgotten.
     */
    method Similarities(sessions: seq<Session>, query: string, documents: seq<Pair<string>>, courses: seq<Course>)
      returns (r: Outcome<seq<Pair<real>>, Failure>, tried: nat)
      requires sessions != [] && |courses| == |sessions|
      requires forall i :: 0 <= i < |sessions| ==> Proper(sessions[i])
      modifies this`disk
      ensures documents == [] ==> r == Ok([]) && disk == old(disk)
      ensures documents != [] ==> 0 < tried <= |sessions| && AllMoveOn(maxChars, old(disk), sessions, documents, courses, tried - 1)
      ensures documents != [] ==>
                var last := EndingIn(maxChars, old(disk), sessions[tried - 1], documents, courses[tried - 1]);
                && (last == MoveOn ==> tried == |sessions|)
                && Leaves(maxChars, old(disk), sessions[tried - 1], query, documents, last, disk, r)
    {
      if documents == [] {
        return Ok([]), 0;
      }
      hide *;
      ghost var before := disk;
      tried := 0;
      NoneTried(maxChars, before, sessions, documents, courses);
      while true
        invariant 0 <= tried < |sessions| && disk == before && AllMoveOn(maxChars, before, sessions, documents, courses, tried)
        decreases |sessions| - tried
      {
        var session, course := sessions[tried], courses[tried];
        ghost var ending := EndingIn(maxChars, before, session, documents, course);
        r := Attempt(session, query, documents, course);
        MovesOn(maxChars, before, session, query, documents, ending, disk, r);
        OneMore(maxChars, before, sessions, documents, courses, tried);
        tried := tried + 1;
        if r != Raised(Failed(true)) || tried == |sessions| {
          return;
        }
      }
    }
  }
}
