/** The three tables of the database and what each SQL statement of the store does to them.

    Instants handed to the store are integer nanoseconds; a row keeps whole seconds. */
module Rows {
  import opened RowIds

  datatype Option<+T> = None | Some(value: T)

  const SECOND: int := 1_000_000_000

  /** Time.Unix: nanoseconds to seconds, rounding down. */
  function Unix(t: int): int { t / SECOND }

  datatype Feed = Feed(
    url: string, kind: string, title: string, siteUrl: string,
    pollIntervalS: int, createdAt: int, lastRequestedAt: int)

  datatype FetchState = FetchState(
    etag: string, lastModified: string, nextPollAt: int, lockedUntil: Option<int>,
    lastFetchAt: Option<int>, lastOkAt: Option<int>, lastStatus: int,
    failCount: int, lastError: string, quietPolls: int)

  datatype Item = Item(
    feed: nat, key: string, url: string, canonicalUrl: string, urlHash: string, title: string,
    sourceName: string, sourceUrl: string, imageUrl: string,
    publishedAt: int, firstSeenAt: int, dateEstimated: bool)

  /** A headline on its way in; `publishedAt` is still in nanoseconds. */
  datatype Draft = Draft(
    key: string, url: string, canonicalUrl: string, urlHash: string, title: string,
    sourceName: string, sourceUrl: string, imageUrl: string,
    publishedAt: int, dateEstimated: bool)

  /** What the poller records after a 200 or 304; instants and the interval in nanoseconds. */
  datatype FetchOK = FetchOK(
    etag: string, lastModified: string, status: int, fetchedAt: int, nextPollAt: int,
    kind: string, title: string, siteUrl: string, pollInterval: int, newItems: int)

  /** A claimed feed with the state read back after locking it. */
  datatype Due = Due(id: nat, feed: Feed, state: FetchState)

  datatype Tables = Tables(feeds: map<nat, Feed>, states: map<nat, FetchState>, items: map<nat, Item>)
  {
    /** The schema: url is unique, (feed, key) is unique, both foreign keys point at a feed. */
    ghost predicate Valid() {
      && (forall a, b | a in feeds && b in feeds && feeds[a].url == feeds[b].url :: a == b)
      && states.Keys <= feeds.Keys
      && (forall i | i in items :: items[i].feed in feeds)
      && UniqueKeys(items)
    }
  }

  ghost predicate UniqueKeys(items: map<nat, Item>) {
    forall a, b | a in items && b in items && items[a].feed == items[b].feed && items[a].key == items[b].key :: a == b
  }

  // ---- registration

  /** The feed a `WHERE url = ?` finds. */
  ghost function IdOf(feeds: map<nat, Feed>, url: string): (r: Option<nat>)
    ensures r.Some? ==> r.value in feeds && feeds[r.value].url == url
    ensures r.None? ==> forall id | id in feeds :: feeds[id].url != url
  {
    if id :| id in feeds && feeds[id].url == url then Some(id) else None
  }

  function NewFeed(url: string, now: int): Feed { Feed(url, "", "", "", 900, Unix(now), Unix(now)) }

  function NewState(now: int): FetchState { FetchState("", "", Unix(now), None, None, None, 0, 0, "", 0) }

  /** INSERT INTO feeds ... ON CONFLICT(url) DO NOTHING, with `id` the row id if one is needed. */
  ghost function InsertFeed(t: Tables, url: string, now: int, id: nat): Tables {
    if IdOf(t.feeds, url).Some? then t else t.(feeds := t.feeds[id := NewFeed(url, now)])
  }

  /** INSERT INTO fetch_state ... SELECT id FROM feeds WHERE url = ?; a second row for a feed is an error. */
  ghost function InsertState(t: Tables, url: string, now: int): Tables {
    match IdOf(t.feeds, url)
    case Some(id) => if id in t.states then t else t.(states := t.states[id := NewState(now)])
    case None => t
  }

  function Requested(f: Feed, now: int): Feed {
    f.(lastRequestedAt := if f.lastRequestedAt < Unix(now) then Unix(now) else f.lastRequestedAt)
  }

  /** UPDATE feeds SET last_requested_at = MAX(last_requested_at, ?) WHERE url = ?. */
  ghost function TouchFeed(t: Tables, url: string, now: int): Tables {
    match IdOf(t.feeds, url)
    case Some(id) => t.(feeds := t.feeds[id := Requested(t.feeds[id], now)])
    case None => t
  }

  // ---- leases

  predicate Unlocked(st: FetchState, now: int) {
    st.lockedUntil.None? || st.lockedUntil.value < Unix(now)
  }

  predicate Eligible(st: FetchState, now: int) {
    st.nextPollAt <= Unix(now) && Unlocked(st, now)
  }

  function EligibleIds(states: map<nat, FetchState>, now: int): set<nat> {
    set id | id in states && Eligible(states[id], now)
  }

  /** `ids` is a possible answer to the due query: ORDER BY next_poll_at LIMIT ?, ties in any order. */
  predicate DuePick(states: map<nat, FetchState>, now: int, limit: int, ids: set<nat>) {
    var due := EligibleIds(states, now);
    && ids <= due
    && (|ids| == limit || (ids == due && (limit < 0 || |ids| < limit)))
    && (forall a, b | a in ids && b in due - ids :: states[a].nextPollAt <= states[b].nextPollAt)
  }

  function Lock(states: map<nat, FetchState>, ids: set<nat>, until: int): (r: map<nat, FetchState>)
    ensures r.Keys == states.Keys
  {
    map id | id in states :: if id in ids then states[id].(lockedUntil := Some(until)) else states[id]
  }

  function LeaseEnd(now: int, lockFor: int): int { Unix(now + lockFor) }

  function DueIds(due: seq<Due>): set<nat> { set d | d in due :: d.id }

  /** Every claimed feed is returned once, with its row as it stands after locking. */
  ghost predicate Snapshots(t: Tables, due: seq<Due>) {
    && (forall i, j | 0 <= i < j < |due| :: due[i].id != due[j].id)
    && (forall d | d in due :: d.id in t.feeds && d.id in t.states && d.feed == t.feeds[d.id] && d.state == t.states[d.id])
  }

  /** `due` is a possible result of ClaimDue, and `r` the tables it leaves. */
  ghost predicate ClaimsDue(t: Tables, r: Tables, due: seq<Due>, now: int, lockFor: int, limit: int) {
    && DuePick(t.states, now, limit, DueIds(due))
    && r == t.(states := Lock(t.states, DueIds(due), LeaseEnd(now, lockFor)))
    && Snapshots(r, due)
  }

  // ---- records

  function OrElse(s: string, otherwise: string): string { if s != "" then s else otherwise }

  function StateOK(st: FetchState, r: FetchOK): FetchState {
    FetchState(
      OrElse(r.etag, st.etag), OrElse(r.lastModified, st.lastModified),
      Unix(r.nextPollAt), None, Some(Unix(r.fetchedAt)), Some(Unix(r.fetchedAt)),
      r.status, 0, "", if r.newItems > 0 then 0 else st.quietPolls + 1)
  }

  /** int64(d / time.Second): Go division truncates toward zero. */
  function WholeSeconds(d: int): int { if d >= 0 then d / SECOND else -((-d) / SECOND) }

  function FeedOK(f: Feed, r: FetchOK): Feed {
    f.(kind := OrElse(r.kind, f.kind), title := OrElse(r.title, f.title), siteUrl := OrElse(r.siteUrl, f.siteUrl),
       pollIntervalS := if WholeSeconds(r.pollInterval) > 0 then WholeSeconds(r.pollInterval) else f.pollIntervalS)
  }

  function RecordOK(t: Tables, id: nat, r: FetchOK): Tables {
    t.(states := if id in t.states then t.states[id := StateOK(t.states[id], r)] else t.states,
       feeds := if id in t.feeds then t.feeds[id := FeedOK(t.feeds[id], r)] else t.feeds)
  }

  function Clip(msg: string): string { if |msg| > 500 then msg[..500] else msg }

  function StateError(st: FetchState, status: int, msg: string, fetchedAt: int, next: int): FetchState {
    st.(nextPollAt := Unix(next), lockedUntil := None, lastFetchAt := Some(Unix(fetchedAt)), lastStatus := status,
        failCount := st.failCount + 1, lastError := Clip(msg))
  }

  function RecordError(t: Tables, id: nat, status: int, msg: string, fetchedAt: int, next: int): Tables {
    if id in t.states then t.(states := t.states[id := StateError(t.states[id], status, msg, fetchedAt, next)]) else t
  }

  // ---- items

  predicate Stored(items: map<nat, Item>, feed: nat, key: string) {
    exists i | i in items :: items[i].feed == feed && items[i].key == key
  }

  function RowOf(feed: nat, d: Draft, now: int, hash: string -> string): Item {
    Item(feed, d.key, d.url, d.canonicalUrl,
         if d.urlHash == "" && d.canonicalUrl != "" then hash(d.canonicalUrl) else d.urlHash,
         d.title, d.sourceName, d.sourceUrl, d.imageUrl, Unix(d.publishedAt), Unix(now), d.dateEstimated)
  }

  /** INSERT INTO items ... ON CONFLICT(feed_id, item_key) DO NOTHING. */
  ghost function InsertItem(items: map<nat, Item>, feed: nat, d: Draft, now: int, hash: string -> string): map<nat, Item> {
    if Stored(items, feed, d.key) then items else items[NextRowId(items.Keys) := RowOf(feed, d, now, hash)]
  }

  ghost function Upsert(items: map<nat, Item>, feed: nat, batch: seq<Draft>, now: int, hash: string -> string): map<nat, Item> {
    if batch == [] then items else
      InsertItem(Upsert(items, feed, batch[..|batch| - 1], now, hash), feed, batch[|batch| - 1], now, hash)
  }

  /** The foreign key turns an insert for a missing feed into an error that rolls the batch back. */
  predicate UpsertFails(t: Tables, feed: nat, batch: seq<Draft>) { batch != [] && feed !in t.feeds }

  ghost function UpsertItems(t: Tables, feed: nat, batch: seq<Draft>, now: int, hash: string -> string): Tables {
    if UpsertFails(t, feed, batch) then t else t.(items := Upsert(t.items, feed, batch, now, hash))
  }

  // ---- eviction

  function EvictedIds(feeds: map<nat, Feed>, cutoff: int): set<nat> {
    set id | id in feeds && feeds[id].lastRequestedAt < Unix(cutoff)
  }

  function Without<T>(rows: map<nat, T>, gone: set<nat>): (r: map<nat, T>)
    ensures r.Keys == rows.Keys - gone
  {
    map id | id in rows && id !in gone :: rows[id]
  }

  /** DELETE FROM feeds WHERE last_requested_at < ?; states and items cascade. */
  function Evict(t: Tables, cutoff: int): Tables {
    var gone := EvictedIds(t.feeds, cutoff);
    Tables(Without(t.feeds, gone), Without(t.states, gone),
           map i | i in t.items && t.items[i].feed !in gone :: t.items[i])
  }
}
