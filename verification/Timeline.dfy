/** The merged timeline: what a request for several feeds gets back. */
module Timeline {
  import opened Rows
  import opened RowIds
  import opened Ranking
  import opened History
  import opened Dedupe
  import opened DedupeTheorems
  import opened Store
  import opened Statements

  // ---- the page

  /** The rows fetched: three times the page, to make up for what collapses. */
  ghost function Window(items: map<nat, Item>, ids: set<nat>, since: Option<int>, limit: nat): seq<nat> {
    ListRows(items, ids, since, limit * 3)
  }

  /** The rows on the page. */
  ghost function PageRows(items: map<nat, Item>, ids: set<nat>, since: Option<int>, limit: nat, norm: string -> string): (r: seq<nat>)
    ensures forall k | 0 <= k < |r| :: r[k] in items
  {
    var window := Window(items, ids, since, limit);
    Limited(Arrange(window, Chosen(ItemsAt(items, window), norm)), limit)
  }

  lemma WindowOrder(items: map<nat, Item>, ids: set<nat>, since: Option<int>, limit: nat)
    ensures var window := Window(items, ids, since, limit);
      forall i, j | 0 <= i < j < |window| :: Newer(items, window[i], window[j])
  {
    OrderedSorted(items, Listed(items, ids, since));
  }

  lemma WindowListed(items: map<nat, Item>, ids: set<nat>, since: Option<int>, limit: nat, row: nat)
    requires row in Window(items, ids, since, limit)
    ensures row in Listed(items, ids, since)
  {
    assert row in Ordered(items, Listed(items, ids, since));
  }

  lemma WindowNewestFirst(items: map<nat, Item>, ids: set<nat>, since: Option<int>, limit: nat)
    ensures NewestFirst(ItemsAt(items, Window(items, ids, since, limit)))
  {
    WindowOrder(items, ids, since, limit);
    var window := Window(items, ids, since, limit);
    var raw := ItemsAt(items, window);
    forall i, j | 0 <= i < j < |raw| ensures raw[i].publishedAt >= raw[j].publishedAt {
      assert Newer(items, window[i], window[j]);
    }
  }

  /** Where a row of the page stands in the window. */
  lemma PagePosition(items: map<nat, Item>, ids: set<nat>, since: Option<int>, limit: nat, norm: string -> string, i: nat)
      returns (p: nat)
    requires i < |PageRows(items, ids, since, limit, norm)|
    ensures var window := Window(items, ids, since, limit);
      var at := Chosen(ItemsAt(items, window), norm);
      i < |at| && p == at[i] && p in at && p < |window| && window[p] == PageRows(items, ids, since, limit, norm)[i]
  {
    p := Chosen(ItemsAt(items, Window(items, ids, since, limit)), norm)[i];
  }

  lemma PageOrder(items: map<nat, Item>, ids: set<nat>, since: Option<int>, limit: nat, norm: string -> string, i: nat, j: nat)
    requires i < j < |PageRows(items, ids, since, limit, norm)|
    ensures var rows := PageRows(items, ids, since, limit, norm); Newer(items, rows[i], rows[j])
  {
    var p := PagePosition(items, ids, since, limit, norm, i);
    var q := PagePosition(items, ids, since, limit, norm, j);
    WindowOrder(items, ids, since, limit);
    WindowNewestFirst(items, ids, since, limit);
    DedupeFilters(ItemsAt(items, Window(items, ids, since, limit)), norm);
    assert p < q;
  }

  lemma PageListed(items: map<nat, Item>, ids: set<nat>, since: Option<int>, limit: nat, norm: string -> string, i: nat)
    requires i < |PageRows(items, ids, since, limit, norm)|
    ensures var row := PageRows(items, ids, since, limit, norm)[i];
      row in Window(items, ids, since, limit) && row in Listed(items, ids, since)
  {
    var p := PagePosition(items, ids, since, limit, norm, i);
    WindowListed(items, ids, since, limit, PageRows(items, ids, since, limit, norm)[i]);
  }

  lemma PageSound(items: map<nat, Item>, ids: set<nat>, since: Option<int>, limit: nat, norm: string -> string, i: nat, j: nat)
    requires i < j < |PageRows(items, ids, since, limit, norm)|
    ensures var rows := PageRows(items, ids, since, limit, norm);
      !SameHash(items[rows[i]], items[rows[j]]) && FarApart(norm, items[rows[i]], items[rows[j]])
  {
    var p := PagePosition(items, ids, since, limit, norm, i);
    var q := PagePosition(items, ids, since, limit, norm, j);
    var raw := ItemsAt(items, Window(items, ids, since, limit));
    ChosenDistinct(raw, norm);
    DedupeSound(raw, norm, p, q);
  }

  /** The page is a newest-first selection of the stored window: rows in query order, at most `limit` of them,
      only of the requested feeds and not before `since`, and no two of them in conflict. */
  lemma PageIsSelection(items: map<nat, Item>, ids: set<nat>, since: Option<int>, limit: nat, norm: string -> string)
    ensures var rows := PageRows(items, ids, since, limit, norm);
      && |rows| <= limit
      && (forall i, j | 0 <= i < j < |rows| :: Newer(items, rows[i], rows[j]))
      && (forall i | 0 <= i < |rows| :: rows[i] in Window(items, ids, since, limit) && items[rows[i]].feed in ids
            && (since.Some? ==> items[rows[i]].publishedAt >= Unix(since.value)))
      && (forall i, j | 0 <= i < j < |rows| ::
            !SameHash(items[rows[i]], items[rows[j]]) && FarApart(norm, items[rows[i]], items[rows[j]]))
  {
    var rows := PageRows(items, ids, since, limit, norm);
    forall i, j | 0 <= i < j < |rows| ensures Newer(items, rows[i], rows[j]) {
      PageOrder(items, ids, since, limit, norm, i, j);
    }
    forall i | 0 <= i < |rows| ensures rows[i] in Window(items, ids, since, limit) && rows[i] in Listed(items, ids, since) {
      PageListed(items, ids, since, limit, norm, i);
    }
    forall i, j | 0 <= i < j < |rows|
      ensures !SameHash(items[rows[i]], items[rows[j]]) && FarApart(norm, items[rows[i]], items[rows[j]])
    {
      PageSound(items, ids, since, limit, norm, i, j);
    }
  }

  /** Unless the page is full, every row of the window is on it or stands behind one that is: the same
      headline within the window, or the same hash as a row that is, or as one with such a headline. */
  lemma PageCovers(items: map<nat, Item>, ids: set<nat>, since: Option<int>, limit: nat, norm: string -> string, row: nat)
      returns (via: nat, other: nat)
    requires |PageRows(items, ids, since, limit, norm)| < limit
    requires row in Window(items, ids, since, limit) && row !in PageRows(items, ids, since, limit, norm)
    ensures via in items && other in items && other in PageRows(items, ids, since, limit, norm) && row in items
    ensures Repeats(norm, items[other], items[row])
         || (SameHash(items[via], items[row]) && (other == via || Repeats(norm, items[other], items[via])))
  {
    var window := Window(items, ids, since, limit);
    var raw := ItemsAt(items, window);
    var at := Chosen(raw, norm);
    var page := Arrange(window, at);
    var rows := PageRows(items, ids, since, limit, norm);
    assert rows == page;
    var i: nat :| i < |window| && window[i] == row;
    assert forall m: nat | m < |at| :: page[m] == window[at[m]] && page[m] in page;
    var j, k := DedupeComplete(raw, norm, i);
    via, other := window[j], window[k];
    var m: nat :| m < |at| && at[m] == k;
    assert page[m] == other;
  }

  // ---- the request

  /** How a feed is presented: a feed without a state row counts as never fetched. */
  predicate IsWarming(states: map<nat, FetchState>, id: nat) { id in states ==> Warming(states[id]) }

  predicate IsStale(states: map<nat, FetchState>, id: nat) { id in states && Stale(states[id]) }

  function WarmingIds(states: map<nat, FetchState>, ids: seq<nat>): set<nat> { set id | id in ids && IsWarming(states, id) }

  function StaleIds(states: map<nat, FetchState>, ids: seq<nat>): set<nat> { set id | id in ids && IsStale(states, id) }

  /** The urls of those of `ids` that are in `chosen`, in request order. */
  function UrlsIn(ids: seq<nat>, feeds: map<nat, Feed>, chosen: set<nat>): seq<string>
    requires forall k | 0 <= k < |ids| :: ids[k] in feeds
  {
    if ids == [] then [] else
      var last := ids[|ids| - 1];
      UrlsIn(ids[..|ids| - 1], feeds, chosen) + if last in chosen then [feeds[last].url] else []
  }

  /** EnsureFeeds: every url, in order. */
  method EnsureFeeds(store: Store, urls: seq<string>, now: int) returns (ids: seq<nat>)
    requires store.Valid()
    modifies store
    ensures store.Valid() && store.items == old(store.items)
    ensures |ids| == |urls|
    ensures forall k | 0 <= k < |urls| ::
      ids[k] in store.feeds && store.feeds[ids[k]].url == urls[k] && store.feeds[ids[k]].lastRequestedAt >= Unix(now)
    ensures OnlyRegisters(old(store.Tables()), store.Tables(), urls, now)
  {
    ids := [];
    ghost var first := store.Tables();
    NoneRegistered(first, now);
    assert urls[..0] == [];
    for i := 0 to |urls|
      invariant store.Valid() && Named(store.feeds, ids, urls, now) && |ids| == i
      invariant OnlyRegisters(first, store.Tables(), urls[..i], now)
    {
      var id := EnsureNext(store, urls, now, ids, first);
      ids := ids + [id];
    }
    assert urls[..|urls|] == urls;
  }

  lemma NoneRegistered(t: Tables, now: int)
    ensures OnlyRegisters(t, t, [], now)
  {}

  /** The ids, as far as there are, are those of the urls, each requested by now. */
  ghost predicate Named(feeds: map<nat, Feed>, ids: seq<nat>, urls: seq<string>, now: int) {
    |ids| <= |urls| && forall k | 0 <= k < |ids| ::
      ids[k] in feeds && feeds[ids[k]].url == urls[k] && feeds[ids[k]].lastRequestedAt >= Unix(now)
  }

  method EnsureNext(store: Store, urls: seq<string>, now: int, ids: seq<nat>, ghost first: Tables) returns (id: nat)
    requires store.Valid() && Named(store.feeds, ids, urls, now) && |ids| < |urls|
    requires OnlyRegisters(first, store.Tables(), urls[..|ids|], now)
    modifies store
    ensures store.Valid() && Named(store.feeds, ids + [id], urls, now)
    ensures OnlyRegisters(first, store.Tables(), urls[..|ids| + 1], now)
  {
    ghost var before := store.Tables();
    var created;
    id, created := store.EnsureFeed(urls[|ids|], now);
    RegistersMore(first, before, store.Tables(), urls, |ids|, now);
    NamedMore(before, store.Tables(), ids, urls, now, id);
  }

  lemma NamedMore(t: Tables, r: Tables, ids: seq<nat>, urls: seq<string>, now: int, id: nat)
    requires t.Valid() && Named(t.feeds, ids, urls, now) && |ids| < |urls| && r == Ensured(t, urls[|ids|], now)
    requires id in r.feeds && r.feeds[id].url == urls[|ids|] && r.feeds[id].lastRequestedAt >= Unix(now)
    ensures Named(r.feeds, ids + [id], urls, now)
  {
    EnsureFeedMeans(t, urls[|ids|], now);
  }

  /** Feeds that were there keep all but their time of request, and that too if their url is not named; new ones
      have a named url, and nothing is known about them; state rows that were there stay. */
  ghost predicate OnlyRegisters(t: Tables, r: Tables, urls: seq<string>, now: int) {
    r.items == t.items && FeedsRegistered(t.feeds, r.feeds, urls, now) && StatesRegistered(t, r, now)
  }

  ghost predicate FeedsRegistered(feeds: map<nat, Feed>, after: map<nat, Feed>, urls: seq<string>, now: int) {
    && (forall f | f in feeds :: f in after && Touched(feeds[f], after[f], urls, now))
    && (forall f | f in after && f !in feeds :: after[f].url in urls && after[f] == Feed(after[f].url, "", "", "", 900, Unix(now), Unix(now)))
  }

  ghost predicate StatesRegistered(t: Tables, r: Tables, now: int) {
    && (forall f | f in t.states :: f in r.states && r.states[f] == t.states[f])
    && (forall f | f in r.states && f !in t.states ::
          f in r.feeds && f !in t.feeds && r.states[f] == FetchState("", "", Unix(now), None, None, None, 0, 0, "", 0))
  }

  predicate Touched(f: Feed, g: Feed, urls: seq<string>, now: int) {
    && g == f.(lastRequestedAt := g.lastRequestedAt)
    && g.lastRequestedAt == if f.url in urls && f.lastRequestedAt < Unix(now) then Unix(now) else f.lastRequestedAt
  }

  lemma RegistersMore(t: Tables, s: Tables, r: Tables, urls: seq<string>, i: nat, now: int)
    requires s.Valid() && i < |urls|
    requires OnlyRegisters(t, s, urls[..i], now) && r == Ensured(s, urls[i], now)
    ensures OnlyRegisters(t, r, urls[..i + 1], now)
  {
    EnsureFeedMeans(s, urls[i], now);
    assert urls[..i + 1] == urls[..i] + [urls[i]];
    if id: nat :| id in s.feeds && s.feeds[id].url == urls[i] {
      TouchesMore(t.feeds, s.feeds, r.feeds, urls[..i], urls[i], now, id);
      return;
    }
    var id: nat :| (forall x | x in s.feeds :: x < id) && Registers(s, r, urls[i], now, id);
    AddsMore(t.feeds, s.feeds, r.feeds, urls[..i], urls[i], now, id);
    StateAdded(t, s, r, urls[i], now, id);
  }

  lemma TouchesMore(t: map<nat, Feed>, s: map<nat, Feed>, r: map<nat, Feed>, urls: seq<string>, url: string, now: int, id: nat)
    requires FeedsRegistered(t, s, urls, now) && id in s && s[id].url == url
    requires forall x | x in s && s[x].url == url :: x == id
    requires r == s[id := s[id].(lastRequestedAt := if s[id].lastRequestedAt >= Unix(now) then s[id].lastRequestedAt else Unix(now))]
    ensures FeedsRegistered(t, r, urls + [url], now)
  {
    forall f | f in t ensures f in r && Touched(t[f], r[f], urls + [url], now) {
      assert Touched(t[f], s[f], urls, now);
    }
  }

  lemma AddsMore(t: map<nat, Feed>, s: map<nat, Feed>, r: map<nat, Feed>, urls: seq<string>, url: string, now: int, id: nat)
    requires FeedsRegistered(t, s, urls, now) && id !in s && forall x | x in s :: s[x].url != url
    requires r == s[id := Feed(url, "", "", "", 900, Unix(now), Unix(now))]
    ensures FeedsRegistered(t, r, urls + [url], now)
  {
    forall f | f in t ensures f in r && Touched(t[f], r[f], urls + [url], now) {
      assert Touched(t[f], s[f], urls, now) && s[f].url == t[f].url;
    }
  }

  lemma StateAdded(t: Tables, s: Tables, r: Tables, url: string, now: int, id: nat)
    requires s.Valid() && StatesRegistered(t, s, now) && (forall f | f in t.feeds :: f in s.feeds) && id !in s.feeds
    requires Registers(s, r, url, now, id)
    ensures StatesRegistered(t, r, now)
  {}

  datatype Page = Page(items: seq<Item>, warming: seq<string>, stale: seq<string>)

  /** A request for no feed, or for too many, is refused and changes nothing. Any other marks every feed it
      names as wanted, and gets one page of their merged timeline, with the feeds never fetched yet and those
      whose last fetch failed. */
  method GetItems(store: Store, urls: seq<string>, maxFeeds: int, now: int, since: Option<int>, limit: nat, norm: string -> string)
    returns (page: Option<Page>, ghost ids: seq<nat>)
    requires store.Valid()
    modifies store
    ensures store.Valid() && store.items == old(store.items)
    ensures page.None? <==> urls == [] || |urls| > maxFeeds
    ensures page.None? ==> store.Tables() == old(store.Tables())
    ensures page.Some? ==> Serves(store, page.value, urls, ids, now, since, limit, norm)
    ensures page.Some? ==> OnlyRegisters(old(store.Tables()), store.Tables(), urls, now)
  {
    if urls == [] || |urls| > maxFeeds {
      return None, [];
    }
    var found := EnsureFeeds(store, urls, now);
    ids := found;
    var raw := store.ListItems(found, since, limit * 3);
    var merged := Dedupe.Dedupe(raw, norm);
    if |merged| > limit {
      merged := merged[..limit];
    }
    PageAgrees(store.items, Members(found), since, limit, norm);
    var warming, stale := Present(store.feeds, store.states, found);
    page := Some(Page(merged, warming, stale));
  }

  /** The page shows what the store has, after the request has registered its feeds as `ids`. */
  ghost predicate Serves(store: Store, page: Page, urls: seq<string>, ids: seq<nat>, now: int, since: Option<int>, limit: nat, norm: string -> string)
    reads store
  {
    && |ids| == |urls|
    && (forall k | 0 <= k < |urls| ::
          ids[k] in store.feeds && store.feeds[ids[k]].url == urls[k] && store.feeds[ids[k]].lastRequestedAt >= Unix(now))
    && page.items == ItemsAt(store.items, PageRows(store.items, Members(ids), since, limit, norm))
    && page.warming == UrlsIn(ids, store.feeds, WarmingIds(store.states, ids))
    && page.stale == UrlsIn(ids, store.feeds, StaleIds(store.states, ids))
  }

  lemma LimitedItems(items: map<nat, Item>, rows: seq<nat>, limit: nat)
    requires forall k | 0 <= k < |rows| :: rows[k] in items
    ensures Limited(ItemsAt(items, rows), limit) == ItemsAt(items, Limited(rows, limit))
  {}

  lemma PageAgrees(items: map<nat, Item>, ids: set<nat>, since: Option<int>, limit: nat, norm: string -> string)
    ensures var raw := List(items, ids, since, limit * 3);
      Limited(Arrange(raw, Chosen(raw, norm)), limit) == ItemsAt(items, PageRows(items, ids, since, limit, norm))
  {
    var window := Window(items, ids, since, limit);
    var raw := ItemsAt(items, window);
    var at := Chosen(raw, norm);
    assert Arrange(raw, at) == ItemsAt(items, Arrange(window, at));
    LimitedItems(items, Arrange(window, at), limit);
  }

  method Present(feeds: map<nat, Feed>, states: map<nat, FetchState>, ids: seq<nat>) returns (warming: seq<string>, stale: seq<string>)
    requires forall k | 0 <= k < |ids| :: ids[k] in feeds
    ensures warming == UrlsIn(ids, feeds, WarmingIds(states, ids))
    ensures stale == UrlsIn(ids, feeds, StaleIds(states, ids))
  {
    warming, stale := [], [];
    for i := 0 to |ids|
      invariant warming == UrlsIn(ids[..i], feeds, WarmingIds(states, ids))
      invariant stale == UrlsIn(ids[..i], feeds, StaleIds(states, ids))
    {
      var id := ids[i];
      assert ids[..i + 1][..i] == ids[..i] && id in ids;
      if id !in states || states[id].lastOkAt.None? {
        warming := warming + [feeds[id].url];
      } else if states[id].failCount > 0 && states[id].lastOkAt.Some? {
        stale := stale + [feeds[id].url];
      }
    }
    assert ids[..|ids|] == ids;
  }

  // ---- in terms of the columns

  /** The page is made of the rows of a query for three times as many: the first `limit` of those that come out
      when they are collapsed. */
  lemma PageMeans(items: map<nat, Item>, ids: set<nat>, since: Option<int>, limit: nat, norm: string -> string,
      window: seq<nat>, raw: seq<Item>)
    requires window == ListRows(items, ids, since, 3 * limit)
    requires |raw| == |window| && forall k | 0 <= k < |raw| :: raw[k] == items[window[k]]
    ensures var chosen, rows := Chosen(raw, norm), PageRows(items, ids, since, limit, norm);
      && |rows| == (if |chosen| < limit then |chosen| else limit)
      && forall k | 0 <= k < |rows| :: rows[k] == window[chosen[k]]
  {
    assert window == Window(items, ids, since, limit);
    assert raw == ItemsAt(items, window);
    var chosen := Chosen(raw, norm);
    var all := Arrange(window, chosen);
    assert PageRows(items, ids, since, limit, norm) == Limited(all, limit);
  }

  /** The places, in request order, of the ids in `chosen`. */
  lemma UrlsMean(ids: seq<nat>, feeds: map<nat, Feed>, chosen: set<nat>) returns (at: seq<nat>)
    requires forall k | 0 <= k < |ids| :: ids[k] in feeds
    ensures AreUrlsOf(UrlsIn(ids, feeds, chosen), at, ids, feeds) && ArePlacesOf(at, ids, chosen)
  {
    if ids == [] {
      return [];
    }
    var n := |ids| - 1;
    at := UrlsMean(ids[..n], feeds, chosen);
    PlacesNext(at, ids, chosen);
    UrlsNext(at, ids, feeds, chosen);
    if ids[n] in chosen {
      return at + [n];
    }
  }

  lemma UrlsNext(at: seq<nat>, ids: seq<nat>, feeds: map<nat, Feed>, chosen: set<nat>)
    requires ids != [] && forall k | 0 <= k < |ids| :: ids[k] in feeds
    requires AreUrlsOf(UrlsIn(ids[..|ids| - 1], feeds, chosen), at, ids[..|ids| - 1], feeds)
    ensures AreUrlsOf(UrlsIn(ids, feeds, chosen), if ids[|ids| - 1] in chosen then at + [|ids| - 1] else at, ids, feeds)
  {
    var n := |ids| - 1;
    var urls := UrlsIn(ids[..n], feeds, chosen);
    if ids[n] !in chosen {
      assert UrlsIn(ids, feeds, chosen) == urls + [];
      return;
    }
    assert UrlsIn(ids, feeds, chosen) == urls + [feeds[ids[n]].url];
  }

  ghost predicate AreUrlsOf(urls: seq<string>, at: seq<nat>, ids: seq<nat>, feeds: map<nat, Feed>)
    requires forall k | 0 <= k < |ids| :: ids[k] in feeds
  {
    |urls| == |at| && forall k | 0 <= k < |at| :: at[k] < |ids| && urls[k] == feeds[ids[at[k]]].url
  }

  ghost predicate ArePlacesOf(at: seq<nat>, ids: seq<nat>, chosen: set<nat>) {
    && (forall k | 0 <= k < |at| :: at[k] < |ids| && ids[at[k]] in chosen)
    && (forall i, j | 0 <= i < j < |at| :: at[i] < at[j])
    && (forall i: nat | i < |ids| && ids[i] in chosen :: i in at)
  }

  lemma PlacesNext(at: seq<nat>, ids: seq<nat>, chosen: set<nat>)
    requires ids != [] && ArePlacesOf(at, ids[..|ids| - 1], chosen)
    ensures ArePlacesOf(if ids[|ids| - 1] in chosen then at + [|ids| - 1] else at, ids, chosen)
  {
    var n := |ids| - 1;
    forall i: nat | i < |ids| && ids[i] in chosen && i != n ensures i in at {
      assert ids[..n][i] == ids[i];
    }
    forall k | 0 <= k < |at| ensures at[k] < n && ids[at[k]] in chosen {
      assert ids[..n][at[k]] == ids[at[k]];
    }
  }

  lemma ListedAs(states: map<nat, FetchState>, ids: seq<nat>, id: nat)
    ensures id in WarmingIds(states, ids) <==> id in ids && (id in states ==> states[id].lastOkAt.None?)
    ensures id in StaleIds(states, ids) <==> id in ids && id in states && states[id].lastOkAt.Some? && states[id].failCount > 0
  {}
}
