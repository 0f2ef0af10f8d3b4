/** One fetch of one claimed feed, start to end, against the store. */
module Poller {
  import opened Rows
  import opened RowIds
  import opened Retention
  import opened Integrity
  import opened Intervals
  import opened History
  import opened Protocol
  import opened Store
  import opened Statements

  /** What the client came back with. A reply of 200 to 299 carries a document, or what kept it from parsing. */
  datatype Response =
    | NoReply(cause: string)
    | Unchanged(status: int)
    | Refused(status: int, retryAfter: int, cause: string)
    | Unreadable(status: int, cause: string)
    | Parsed(doc: Document)

  datatype Outcome =
    | Ok(newItems: nat)
    | NotModified304
    | Failed
    | ParseError
    | Unrecorded

  function RetryTime(d: Due, status: int, retryAfter: int, now: int, rnd: real, c: Config): int {
    RetryAt(d.feed, d.state, now, status, retryAfter, rnd, c)
  }

  /** Which of its transactions the database fails; such a one rolls back. */
  datatype Fault = Fault(upsert: bool, record: bool, prune: bool)

  predicate StoreFails(t: Tables, id: nat, doc: Document, fault: Fault) {
    UpsertFails(t, id, doc.drafts) || (fault.upsert && doc.drafts != [])
  }

  /** The tables after a fetch that started at `now`. */
  ghost function Fetched(t: Tables, d: Due, response: Response, now: int, rnd: real, e: Env, fault: Fault): Tables {
    if response.Parsed? then DocumentStored(t, d, response.doc, now, e, fault)
    else if fault.record then t
    else Recorded(t, d, response, now, rnd, e)
  }

  function Recorded(t: Tables, d: Due, response: Response, now: int, rnd: real, e: Env): Tables
    requires !response.Parsed?
  {
    match response
    case NoReply(cause) => RecordError(t, d.id, 0, cause, now, RetryTime(d, 0, 0, now, rnd, e.c))
    case Unchanged(status) => RecordOK(t, d.id, NotModifiedRecord(d.feed, d.state, now, status, e.c))
    case Refused(status, retryAfter, cause) =>
      RecordError(t, d.id, status, cause, now, RetryTime(d, status, retryAfter, now, rnd, e.c))
    case Unreadable(status, cause) => RecordError(t, d.id, status, cause, now, RetryTime(d, status, 0, now, rnd, e.c))
  }

  /** A document goes in, is recorded, and the feed is cut to size. If the first fails nothing is recorded, if
      the second fails the headlines stay, and a failed cut is passed over. */
  ghost function DocumentStored(t: Tables, d: Due, doc: Document, now: int, e: Env, fault: Fault): Tables {
    if StoreFails(t, d.id, doc, fault) then t else
      DocumentRecorded(UpsertItems(t, d.id, doc.drafts, now, e.hash), d.id,
                       DocumentRecord(d.state, now, doc, |NewKeys(t.items, d.id, doc.drafts)|, e.c), now, e.c, fault)
  }

  ghost function DocumentRecorded(t: Tables, id: nat, r: FetchOK, now: int, c: Config, fault: Fault): Tables {
    if fault.record then t
    else if fault.prune then RecordOK(t, id, r)
    else RecordedAndPruned(t, id, r, now, c)
  }

  ghost function RecordedAndPruned(t: Tables, id: nat, r: FetchOK, now: int, c: Config): Tables {
    PruneItems(RecordOK(t, id, r), id, c.keepItems, KeptSince(now, c))
  }

  /** Headlines published before this are dropped. */
  function KeptSince(now: int, c: Config): int { now - c.keepFor }

  method FetchOne(store: Store, d: Due, response: Response, now: int, rnd: real, c: Config, fault: Fault) returns (out: Outcome)
    requires store.Valid()
    modifies store
    ensures store.Valid()
    ensures store.Tables() == Fetched(old(store.Tables()), d, response, now, rnd, Env(c, store.hash), fault)
    ensures out.Unrecorded? <==> response.Parsed? && (StoreFails(old(store.Tables()), d.id, response.doc, fault) || fault.record)
    ensures out.Ok? ==> response.Parsed? && out.newItems == |NewKeys(old(store.items), d.id, response.doc.drafts)|
    ensures out.Failed? <==> response.NoReply? || response.Refused?
    ensures out.NotModified304? <==> response.Unchanged?
    ensures out.ParseError? <==> response.Unreadable?
  {
    match response
    case NoReply(cause) =>
      RecordFailure(store, d, 0, 0, cause, now, rnd, c, fault);
      out := Failed;
    case Unchanged(status) =>
      var interval := NextInterval(StoredInterval(d.feed), d.state.quietPolls + 1, c);
      var record := FetchOK("", "", status, now, now + interval, "", "", "", StoredInterval(d.feed), 0);
      assert record == NotModifiedRecord(d.feed, d.state, now, status, c);
      if !fault.record {
        store.RecordFetchOK(d.id, record);
      }
      out := NotModified304;
    case Refused(status, retryAfter, cause) =>
      RecordFailure(store, d, status, retryAfter, cause, now, rnd, c, fault);
      out := Failed;
    case Unreadable(status, cause) =>
      RecordFailure(store, d, status, 0, cause, now, rnd, c, fault);
      out := ParseError;
    case Parsed(doc) =>
      out := StoreDocument(store, d, doc, now, c, fault);
  }

  method StoreDocument(store: Store, d: Due, doc: Document, now: int, c: Config, fault: Fault) returns (out: Outcome)
    requires store.Valid()
    modifies store
    ensures store.Valid()
    ensures store.Tables() == DocumentStored(old(store.Tables()), d, doc, now, Env(c, store.hash), fault)
    ensures out == if StoreFails(old(store.Tables()), d.id, doc, fault) || fault.record then Unrecorded
                   else Ok(|NewKeys(old(store.items), d.id, doc.drafts)|)
  {
    ghost var before := store.Tables();
    if fault.upsert && doc.drafts != [] {
      return Unrecorded;
    }
    var inserted := store.UpsertItems(d.id, doc.drafts, now);
    if inserted.None? {
      return Unrecorded;
    }
    var recorded := RecordDocument(store, d, doc, inserted.value, now, c, fault);
    StoredThenRecorded(before, d, doc, now, Env(c, store.hash), fault);
    out := if recorded then Ok(inserted.value) else Unrecorded;
  }

  lemma StoredThenRecorded(t: Tables, d: Due, doc: Document, now: int, e: Env, fault: Fault)
    requires !StoreFails(t, d.id, doc, fault)
    ensures DocumentStored(t, d, doc, now, e, fault)
         == DocumentRecorded(UpsertItems(t, d.id, doc.drafts, now, e.hash), d.id,
                             DocumentRecord(d.state, now, doc, |NewKeys(t.items, d.id, doc.drafts)|, e.c), now, e.c, fault)
  {}

  /** A document without news counts as one more quiet poll. */
  method RecordDocument(store: Store, d: Due, doc: Document, newItems: nat, now: int, c: Config, fault: Fault) returns (recorded: bool)
    requires store.Valid()
    modifies store
    ensures store.Valid() && recorded == !fault.record
    ensures store.Tables()
         == DocumentRecorded(old(store.Tables()), d.id, DocumentRecord(d.state, now, doc, newItems, c), now, c, fault)
  {
    var quiet := 0;
    if newItems == 0 {
      quiet := d.state.quietPolls + 1;
    }
    var base := NextInterval(doc.ttl, 0, c);
    var wait := NextInterval(doc.ttl, quiet, c);
    var record := FetchOK(doc.etag, doc.lastModified, doc.status, now, now + wait,
                          doc.kind, doc.title, doc.siteUrl, base, newItems);
    assert record == DocumentRecord(d.state, now, doc, newItems, c);
    recorded := RecordAndPrune(store, d.id, record, now, c, fault);
  }

  method RecordAndPrune(store: Store, id: nat, record: FetchOK, now: int, c: Config, fault: Fault) returns (recorded: bool)
    requires store.Valid()
    modifies store
    ensures store.Valid() && recorded == !fault.record
    ensures store.Tables() == DocumentRecorded(old(store.Tables()), id, record, now, c, fault)
  {
    if fault.record {
      return false;
    }
    store.RecordFetchOK(id, record);
    if !fault.prune {
      store.PruneItems(id, c.keepItems, KeptSince(now, c));
    }
    recorded := true;
  }

  method RecordFailure(store: Store, d: Due, status: int, retryAfter: int, cause: string, now: int, rnd: real, c: Config, fault: Fault)
    requires store.Valid()
    modifies store
    ensures store.Valid()
    ensures store.Tables()
         == if fault.record then old(store.Tables())
            else RecordError(old(store.Tables()), d.id, status, cause, now, RetryTime(d, status, retryAfter, now, rnd, c))
  {
    var wait := Backoff(StoredInterval(d.feed), d.state.failCount + 1, retryAfter, status, c, rnd);
    var retry := now + wait;
    assert retry == RetryTime(d, status, retryAfter, now, rnd, c);
    if !fault.record {
      store.RecordFetchError(d.id, status, cause, now, retry);
    }
  }

  /** The fetch is at work in the protocol, with what its claim read. */
  ghost predicate AtWork(s: State, f: nat, d: Due, now: int) {
    f < |s.live| && s.live[f].feed == d.id && s.live[f].phase == Started(d.feed, d.state, now)
  }

  /** The one step of a fetch that stores no document; a record that fails leaves it abandoned. */
  function RecordStep(f: nat, response: Response, rnd: real, fault: Fault): Step
    requires !response.Parsed?
  {
    if fault.record then Abandon(f) else
      match response
      case NoReply(cause) => Fail(f, 0, 0, cause, rnd)
      case Unchanged(status) => NotModified(f, status)
      case Refused(status, retryAfter, cause) => Fail(f, status, retryAfter, cause, rnd)
      case Unreadable(status, cause) => Fail(f, status, 0, cause, rnd)
  }

  /** A fetch has the effect of its protocol steps, so what holds of all runs of the protocol holds of it. */
  lemma FetchIsOneStep(s: State, f: nat, d: Due, response: Response, now: int, rnd: real, e: Env, fault: Fault)
    requires AtWork(s, f, d, now) && 0.0 <= rnd < 1.0 && !response.Parsed?
    ensures Enabled(s, RecordStep(f, response, rnd, fault), e)
    ensures Apply(s, RecordStep(f, response, rnd, fault), e).t == Fetched(s.t, d, response, now, rnd, e, fault)
  {}

  /** The steps a stored document is recorded with, and the feed is cut with. */
  function RecordSteps(f: nat, d: Due, now: int, c: Config, fault: Fault): seq<Step> {
    if fault.record then [Abandon(f)]
    else if fault.prune then [Finish(f)]
    else [Finish(f), PruneFeed(d.id, c.keepItems, KeptSince(now, c))]
  }

  /** With a document there are up to three, and others may step in between; if nobody does, this is what comes
      of it, whichever of its transactions fails. */
  lemma DocumentIsThreeSteps(s: State, f: nat, d: Due, doc: Document, now: int, rnd: real, e: Env, fault: Fault)
    requires AtWork(s, f, d, now)
    ensures StoreFails(s.t, d.id, doc, fault) ==>
      Enabled(s, Abandon(f), e) && Apply(s, Abandon(f), e).t == Fetched(s.t, d, Parsed(doc), now, rnd, e, fault)
    ensures !StoreFails(s.t, d.id, doc, fault) ==>
      && Enabled(s, Step.Store(f, doc), e)
      && var s1 := Apply(s, Step.Store(f, doc), e);
      var next := RecordSteps(f, d, now, e.c, fault);
      && Enabled(s1, next[0], e)
      && var s2 := Apply(s1, next[0], e);
      Fetched(s.t, d, Parsed(doc), now, rnd, e, fault) == (if |next| > 1 then Apply(s2, next[1], e) else s2).t
  {
    if StoreFails(s.t, d.id, doc, fault) {
      return;
    }
    var s1 := Apply(s, Step.Store(f, doc), e);
    var n := |NewKeys(s.t.items, d.id, doc.drafts)|;
    assert s1.live[f] == Fetch(d.id, s.live[f].until, Stored(d.feed, d.state, now, doc, n));
    StoredThenRecorded(s.t, d, doc, now, e, fault);
    StoredFinishes(s1, f, d, doc, now, n, e);
  }

  lemma StoredFinishes(s: State, f: nat, d: Due, doc: Document, now: int, n: nat, e: Env)
    requires f < |s.live| && s.live[f].feed == d.id && s.live[f].phase == Stored(d.feed, d.state, now, doc, n)
    ensures Enabled(s, Finish(f), e)
    ensures Apply(s, Finish(f), e).t == RecordOK(s.t, d.id, DocumentRecord(d.state, now, doc, n, e.c))
    ensures Apply(Apply(s, Finish(f), e), PruneFeed(d.id, e.c.keepItems, KeptSince(now, e.c)), e).t
         == RecordedAndPruned(s.t, d.id, DocumentRecord(d.state, now, doc, n, e.c), now, e.c)
  {
    RecordFinishes(s, f, d, doc, now, n, e);
  }

  lemma RecordFinishes(s: State, f: nat, d: Due, doc: Document, now: int, n: nat, e: Env)
    requires f < |s.live| && s.live[f].feed == d.id && s.live[f].phase == Stored(d.feed, d.state, now, doc, n)
    ensures Enabled(s, Finish(f), e)
    ensures Apply(s, Finish(f), e).t == RecordOK(s.t, d.id, DocumentRecord(d.state, now, doc, n, e.c))
  {}

  // ---- what a fetch leaves behind, column by column

  /** A failure: its status, or 0 without a reply; one more failure in a row; a retry after the backoff that the
      claim's interval and failures lead to, for which only a refusal's Retry-After counts. */
  lemma FailureMeans(t: Tables, d: Due, response: Response, now: int, rnd: real, e: Env, fault: Fault, status: int, retryAfter: int)
    requires !fault.record && (response.NoReply? || response.Refused? || response.Unreadable?)
    requires status == if response.NoReply? then 0 else response.status
    requires retryAfter == if response.Refused? then response.retryAfter else 0
    ensures var u := Fetched(t, d, response, now, rnd, e, fault);
      var wait := BackoffOf(d.feed.pollIntervalS * 1_000_000_000, d.state.failCount + 1, retryAfter, status, e.c, rnd);
      && u.feeds == t.feeds && u.items == t.items && u.states.Keys == t.states.Keys
      && (forall x | x in t.states && x != d.id :: u.states[x] == t.states[x])
      && (d.id in t.states ==> u.states[d.id] == FetchState(
            t.states[d.id].etag, t.states[d.id].lastModified, Unix(now + wait), None, Some(Unix(now)), t.states[d.id].lastOkAt,
            status, t.states[d.id].failCount + 1,
            if |response.cause| <= 500 then response.cause else response.cause[..500], t.states[d.id].quietPolls))
  {
    RecordErrorMeans(t, d.id, status, response.cause, now, RetryTime(d, status, retryAfter, now, rnd, e.c));
  }

  /** A 304: good, quiet, and due after the interval that the row's own and the quiet polls lead to; validators,
      title, kind and site stay. */
  lemma UnchangedMeans(t: Tables, d: Due, status: int, now: int, rnd: real, e: Env, fault: Fault)
    requires !fault.record && d.feed.pollIntervalS > 0
    ensures var u := Fetched(t, d, Unchanged(status), now, rnd, e, fault);
      var wait := NextIntervalOf(d.feed.pollIntervalS * 1_000_000_000, d.state.quietPolls + 1, e.c);
      && u.items == t.items && u.states.Keys == t.states.Keys && u.feeds.Keys == t.feeds.Keys
      && (forall x | x in t.states && x != d.id :: u.states[x] == t.states[x])
      && (forall x | x in t.feeds && x != d.id :: u.feeds[x] == t.feeds[x])
      && (d.id in t.states ==> u.states[d.id] == FetchState(
            t.states[d.id].etag, t.states[d.id].lastModified, Unix(now + wait), None, Some(Unix(now)), Some(Unix(now)),
            status, 0, "", t.states[d.id].quietPolls + 1))
      && (d.id in t.feeds ==> u.feeds[d.id] == t.feeds[d.id].(pollIntervalS := d.feed.pollIntervalS))
  {
    RecordOKMeans(t, d.id, NotModifiedRecord(d.feed, d.state, now, status, e.c));
  }

  /** A document, once its headlines are stored: due after the interval that its ttl and the quiet polls lead to,
      which new headlines end; and the interval put in the row depends on the ttl alone, whatever the quiet polls
      and the headlines. */
  lemma DocumentMeans(t: Tables, d: Due, doc: Document, now: int, rnd: real, e: Env, fault: Fault, added: int)
    requires !fault.record && !(doc.drafts != [] && (d.id !in t.feeds || fault.upsert))
    requires added == |UpsertItems(t, d.id, doc.drafts, now, e.hash).items| - |t.items|
    ensures var u := Fetched(t, d, Parsed(doc), now, rnd, e, fault);
      var wait := NextIntervalOf(doc.ttl, if added > 0 then 0 else d.state.quietPolls + 1, e.c);
      var base := NextIntervalOf(doc.ttl, 0, e.c);
      && u.states.Keys == t.states.Keys && u.feeds.Keys == t.feeds.Keys
      && (forall x | x in t.states && x != d.id :: u.states[x] == t.states[x])
      && (forall x | x in t.feeds && x != d.id :: u.feeds[x] == t.feeds[x])
      && (d.id in t.states ==> u.states[d.id] == FetchState(
            if doc.etag != "" then doc.etag else t.states[d.id].etag,
            if doc.lastModified != "" then doc.lastModified else t.states[d.id].lastModified,
            Unix(now + wait), None, Some(Unix(now)), Some(Unix(now)),
            doc.status, 0, "", if added > 0 then 0 else t.states[d.id].quietPolls + 1))
      && (d.id in t.feeds ==> u.feeds[d.id] == t.feeds[d.id].(
            kind := if doc.kind != "" then doc.kind else t.feeds[d.id].kind,
            title := if doc.title != "" then doc.title else t.feeds[d.id].title,
            siteUrl := if doc.siteUrl != "" then doc.siteUrl else t.feeds[d.id].siteUrl,
            pollIntervalS := if base >= 1_000_000_000 then base / 1_000_000_000 else t.feeds[d.id].pollIntervalS))
  {
    var r := UpsertItems(t, d.id, doc.drafts, now, e.hash);
    UpsertCounts(t.items, d.id, doc.drafts, now, e.hash);
    RecordOKMeans(r, d.id, DocumentRecord(d.state, now, doc, added, e.c));
  }

  /** Of the feed's headlines, the stored document's among them, those stay that were published `keepFor` ago or
      later and have fewer than `keepItems` in front of them; other feeds keep all of theirs. */
  lemma DocumentKeeps(t: Tables, d: Due, doc: Document, now: int, rnd: real, e: Env, fault: Fault)
    requires !fault.record && !fault.prune && !(doc.drafts != [] && (d.id !in t.feeds || fault.upsert))
    ensures var stored := UpsertItems(t, d.id, doc.drafts, now, e.hash).items;
      var left := Fetched(t, d, Parsed(doc), now, rnd, e, fault).items;
      && (forall i | i in left :: i in stored && left[i] == stored[i])
      && (forall i | i in stored :: i in left <==>
            stored[i].feed != d.id
            || (stored[i].publishedAt >= Unix(now - e.c.keepFor) && (e.c.keepItems < 0 || |InFrontOf(stored, d.id, i)| < e.c.keepItems)))
  {
    var r := UpsertItems(t, d.id, doc.drafts, now, e.hash);
    var recorded := RecordOK(r, d.id, DocumentRecord(d.state, now, doc, |NewKeys(t.items, d.id, doc.drafts)|, e.c));
    assert recorded.items == r.items;
    PruneItemsMeans(recorded, d.id, e.c.keepItems, now - e.c.keepFor);
  }

  /** Failures of the database: what was not stored, recorded or pruned stays as it was before that. */
  lemma FaultsMean(t: Tables, d: Due, response: Response, now: int, rnd: real, e: Env, fault: Fault)
    ensures var u := Fetched(t, d, response, now, rnd, e, fault);
      && (!response.Parsed? && fault.record ==> u == t)
      && (response.Parsed? && response.doc.drafts != [] && (d.id !in t.feeds || fault.upsert) ==> u == t)
      && (response.Parsed? && !(response.doc.drafts != [] && (d.id !in t.feeds || fault.upsert)) ==>
            var stored := UpsertItems(t, d.id, response.doc.drafts, now, e.hash);
            (fault.record ==> u == stored) && (fault.prune ==> u.items == stored.items))
  {}

  /** The same of the protocol's last step of a fetch, so that the hypothesis of `ScheduleAgreement` holds of
      every recorded document: a 304 and a quiet 200 schedule alike from then on, for every quiet run, iff the
      ttl's interval is whole seconds or at most the minimum, or below a second and the maximum. */
  lemma FinishStoresBase(s: State, f: nat, e: Env)
    requires Enabled(s, Finish(f), e) && s.live[f].feed in s.t.feeds && s.t.feeds[s.live[f].feed].pollIntervalS > 0
    ensures var id, ttl, r := s.live[f].feed, s.live[f].phase.doc.ttl, Apply(s, Finish(f), e);
      var base := NextIntervalOf(ttl, 0, e.c);
      && id in r.t.feeds
      && r.t.feeds[id].pollIntervalS == if base >= 1_000_000_000 then base / 1_000_000_000 else s.t.feeds[id].pollIntervalS
    ensures var id, ttl, r := s.live[f].feed, s.live[f].phase.doc.ttl, Apply(s, Finish(f), e);
      var base := NextIntervalOf(ttl, 0, e.c);
      id in r.t.feeds && 0 <= e.c.minInterval && e.c.maxInterval <= TWO62 ==>
        ((forall quiet | quiet >= 0 ::
            NextIntervalOf(r.t.feeds[id].pollIntervalS * 1_000_000_000, quiet, e.c) == NextIntervalOf(ttl, quiet, e.c))
         <==> if base >= 1_000_000_000 then base % 1_000_000_000 == 0 || base <= e.c.minInterval else base == e.c.maxInterval)
  {
    var id, p := s.live[f].feed, s.live[f].phase;
    var ok := DocumentRecord(p.snap, p.at, p.doc, p.newItems, e.c);
    RecordOKMeans(s.t, id, ok);
    if 0 <= e.c.minInterval && e.c.maxInterval <= TWO62 {
      ScheduleAgreement(s.t.feeds[id], ok, p.doc.ttl, e.c);
    }
  }
}
