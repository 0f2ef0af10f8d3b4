/** What every statement of the store means, row by row and column by column.

    The functions of `Rows` say how a statement is carried out; here is what is in the tables afterwards, in terms
    of nothing but their columns. */
module Statements {
  import opened Rows
  import opened RowIds
  import opened Ranking
  import opened Retention
  import opened Integrity
  import opened Store

  /** The second an instant falls in. */
  lemma SecondOf(t: int)
    ensures Unix(t) * 1_000_000_000 <= t < (Unix(t) + 1) * 1_000_000_000
  {}

  /** A duration in whole seconds, cut toward zero. */
  lemma SecondsIn(d: int)
    ensures 0 <= d ==> WholeSeconds(d) * 1_000_000_000 <= d < (WholeSeconds(d) + 1) * 1_000_000_000
    ensures d <= 0 ==> (WholeSeconds(d) - 1) * 1_000_000_000 < d <= WholeSeconds(d) * 1_000_000_000
  {}

  // ---- registration

  /** A url nobody has asked for gets a feed that nothing is known about, due at once; a known one only its
      time of request, and never an earlier one. */
  lemma EnsureFeedMeans(t: Tables, url: string, now: int)
    requires t.Valid()
    ensures var r := Ensured(t, url, now);
      && (forall id | id in t.feeds && t.feeds[id].url == url ::
            r == t.(feeds := t.feeds[id := t.feeds[id].(lastRequestedAt :=
                     if t.feeds[id].lastRequestedAt >= Unix(now) then t.feeds[id].lastRequestedAt else Unix(now))]))
      && ((forall id | id in t.feeds :: t.feeds[id].url != url) ==>
            exists id: nat :: (forall x | x in t.feeds :: x < id) && Registers(t, r, url, now, id))
  {
    if id :| id in t.feeds && t.feeds[id].url == url {
      IdOfIs(t.feeds, url, id);
    } else {
      var id := NextRowId(t.feeds.Keys);
      IdOfIs(InsertFeed(t, url, now, id).feeds, url, id);
      assert Registers(t, Ensured(t, url, now), url, now, id);
    }
  }

  ghost predicate Registers(t: Tables, r: Tables, url: string, now: int, id: nat) {
    && r.feeds == t.feeds[id := Feed(url, "", "", "", 900, Unix(now), Unix(now))]
    && r.states == t.states[id := FetchState("", "", Unix(now), None, None, None, 0, 0, "", 0)]
    && r.items == t.items
  }

  /** The same of the two statements one by one, each of which may meet any tables. */
  lemma InsertFeedMeans(t: Tables, url: string, now: int, id: nat)
    requires id !in t.feeds
    ensures InsertFeed(t, url, now, id) ==
      if exists x :: x in t.feeds && t.feeds[x].url == url then t
      else t.(feeds := t.feeds[id := Feed(url, "", "", "", 900, Unix(now), Unix(now))])
  {}

  lemma SecondStatementMeans(t: Tables, url: string, now: int, id: nat)
    requires t.Valid() && id in t.feeds && t.feeds[id].url == url
    ensures InsertState(t, url, now) ==
      if id in t.states then t
      else t.(states := t.states[id := FetchState("", "", Unix(now), None, None, None, 0, 0, "", 0)])
    ensures TouchFeed(t, url, now) ==
      t.(feeds := t.feeds[id := t.feeds[id].(lastRequestedAt :=
           if t.feeds[id].lastRequestedAt >= Unix(now) then t.feeds[id].lastRequestedAt else Unix(now))])
  {
    IdOfIs(t.feeds, url, id);
  }

  // ---- claims

  /** A claim takes feeds that are due by the second of its clock and whose locks, if any, lie before it. Each is
      then locked up to the second in which `lockFor` runs out, and nothing else changes in any row. */
  lemma ClaimDueMeans(t: Tables, r: Tables, due: seq<Due>, now: int, lockFor: int, limit: int)
    requires ClaimsDue(t, r, due, now, lockFor, limit)
    ensures r.feeds == t.feeds && r.items == t.items && r.states.Keys == t.states.Keys
    ensures forall d | d in due ::
      && d.id in t.states && t.states[d.id].nextPollAt <= Unix(now)
      && (t.states[d.id].lockedUntil.Some? ==> t.states[d.id].lockedUntil.value < Unix(now))
      && d.id in r.feeds && d.feed == r.feeds[d.id] && d.state == r.states[d.id]
      && d.state == t.states[d.id].(lockedUntil := Some(Unix(now + lockFor)))
    ensures forall id | id in t.states && (forall d | d in due :: d.id != id) :: r.states[id] == t.states[id]
    ensures forall i, j | 0 <= i < j < |due| :: due[i].id != due[j].id
  {
    forall d | d in due ensures d.id in DueIds(due) {}
  }

  /** It takes no more than `limit`, if that is not negative; and a feed it could have taken and did not is due no
      earlier than all that it took, and found the limit reached. */
  lemma ClaimDueLimit(t: Tables, r: Tables, due: seq<Due>, now: int, lockFor: int, limit: int, x: nat)
    requires ClaimsDue(t, r, due, now, lockFor, limit)
    ensures 0 <= limit ==> |due| <= limit
    ensures x in t.states && t.states[x].nextPollAt <= Unix(now)
        && (t.states[x].lockedUntil.None? || t.states[x].lockedUntil.value < Unix(now)) && (forall d | d in due :: d.id != x)
      ==> 0 <= limit == |due| && forall d | d in due :: d.id in t.states && t.states[d.id].nextPollAt <= t.states[x].nextPollAt
  {
    DistinctSize(due);
    forall d | d in due ensures d.id in DueIds(due) {}
  }

  lemma DistinctSize(due: seq<Due>)
    requires forall i, j | 0 <= i < j < |due| :: due[i].id != due[j].id
    ensures |DueIds(due)| == |due|
  {
    var ids: seq<nat> := seq(|due|, i requires 0 <= i < |due| => due[i].id);
    PrefixSize(ids, |ids|);
    assert ids[..|ids|] == ids;
    forall x | x in DueIds(due) ensures x in Members(ids) {
      var d :| d in due && d.id == x;
      var i :| 0 <= i < |due| && due[i] == d;
      assert ids[i] == x;
    }
    forall x | x in Members(ids) ensures x in DueIds(due) {
      var i :| 0 <= i < |ids| && ids[i] == x;
      assert due[i] in due;
    }
    assert DueIds(due) == Members(ids) && |Members(ids)| == |due|;
  }

  // ---- records

  /** What a good fetch leaves behind, in every column of both rows. */
  lemma RecordOKMeans(t: Tables, id: nat, r: FetchOK)
    ensures var u := RecordOK(t, id, r);
      && u.items == t.items && u.states.Keys == t.states.Keys && u.feeds.Keys == t.feeds.Keys
      && (forall x | x in t.states && x != id :: u.states[x] == t.states[x])
      && (forall x | x in t.feeds && x != id :: u.feeds[x] == t.feeds[x])
      && (id in t.states ==> u.states[id] == FetchState(
            if r.etag != "" then r.etag else t.states[id].etag,
            if r.lastModified != "" then r.lastModified else t.states[id].lastModified,
            Unix(r.nextPollAt), None, Some(Unix(r.fetchedAt)), Some(Unix(r.fetchedAt)), r.status, 0, "",
            if r.newItems > 0 then 0 else t.states[id].quietPolls + 1))
      && (id in t.feeds ==> u.feeds[id] == Feed(
            t.feeds[id].url,
            if r.kind != "" then r.kind else t.feeds[id].kind,
            if r.title != "" then r.title else t.feeds[id].title,
            if r.siteUrl != "" then r.siteUrl else t.feeds[id].siteUrl,
            if r.pollInterval >= 1_000_000_000 then r.pollInterval / 1_000_000_000 else t.feeds[id].pollIntervalS,
            t.feeds[id].createdAt, t.feeds[id].lastRequestedAt))
  {}

  /** And a failed one: the validators, the time of the last good fetch and the quiet run stay. */
  lemma RecordErrorMeans(t: Tables, id: nat, status: int, msg: string, fetchedAt: int, next: int)
    ensures var u := RecordError(t, id, status, msg, fetchedAt, next);
      && u.items == t.items && u.feeds == t.feeds && u.states.Keys == t.states.Keys
      && (forall x | x in t.states && x != id :: u.states[x] == t.states[x])
      && (id in t.states ==> u.states[id] == FetchState(
            t.states[id].etag, t.states[id].lastModified, Unix(next), None, Some(Unix(fetchedAt)),
            t.states[id].lastOkAt, status, t.states[id].failCount + 1,
            if |msg| <= 500 then msg else msg[..500], t.states[id].quietPolls))
  {}

  // ---- items

  /** An item is stored with the columns of its entry: its dates in whole seconds, and for want of a hash of
      its own that of its canonical url. */
  ghost predicate Holds(row: Item, feed: nat, d: Draft, now: int, hash: string -> string) {
    && row.feed == feed && row.key == d.key && row.url == d.url && row.canonicalUrl == d.canonicalUrl
    && row.title == d.title && row.sourceName == d.sourceName && row.sourceUrl == d.sourceUrl
    && row.imageUrl == d.imageUrl && row.dateEstimated == d.dateEstimated
    && row.publishedAt == Unix(d.publishedAt) && row.firstSeenAt == Unix(now)
    && (d.urlHash != "" ==> row.urlHash == d.urlHash)
    && (d.urlHash == "" && d.canonicalUrl != "" ==> row.urlHash == hash(d.canonicalUrl))
    && (d.urlHash == "" && d.canonicalUrl == "" ==> row.urlHash == "")
  }

  /** A document with items of a known feed adds a row for the first entry of every key the feed did not have,
      and no other; nothing else changes. */
  lemma UpsertItemsMeans(t: Tables, feed: nat, batch: seq<Draft>, now: int, hash: string -> string)
    ensures var r := Rows.UpsertItems(t, feed, batch, now, hash);
      && r.feeds == t.feeds && r.states == t.states
      && (feed !in t.feeds ==> r == t)
      && (forall i | i in t.items :: i in r.items && r.items[i] == t.items[i])
      && (forall i | i in r.items && i !in t.items :: IsFirstEntry(t.items, feed, batch, now, hash, r.items[i]))
      && (feed in t.feeds ==> forall d | d in batch :: exists i :: i in r.items && r.items[i].feed == feed && r.items[i].key == d.key)
  {
    if UpsertFails(t, feed, batch) {
      return;
    }
    var r := Upsert(t.items, feed, batch, now, hash);
    UpsertKeeps(t.items, feed, batch, now, hash);
    forall i | i in r && i !in t.items ensures IsFirstEntry(t.items, feed, batch, now, hash, r[i]) {
      UpsertAdds(t.items, feed, batch, now, hash, i);
      var p: nat :| FirstAt(batch, p) && !Stored(t.items, feed, batch[p].key) && r[i] == RowOf(feed, batch[p], now, hash);
      assert EntryOf(t.items, feed, batch, now, hash, r[i], p);
    }
    forall d | d in batch ensures exists i :: i in r && r[i].feed == feed && r[i].key == d.key {
      UpsertStores(t.items, feed, batch, now, hash, d.key);
    }
  }

  ghost predicate EntryOf(items: map<nat, Item>, feed: nat, batch: seq<Draft>, now: int, hash: string -> string, row: Item, p: nat) {
    && p < |batch| && Holds(row, feed, batch[p], now, hash)
    && (forall q | 0 <= q < p :: batch[q].key != batch[p].key)
    && (forall i | i in items && items[i].feed == feed :: items[i].key != batch[p].key)
  }

  ghost predicate IsFirstEntry(items: map<nat, Item>, feed: nat, batch: seq<Draft>, now: int, hash: string -> string, row: Item) {
    exists p: nat :: EntryOf(items, feed, batch, now, hash, row, p)
  }

  predicate WithoutHash(batch: seq<Draft>) { forall d | d in batch :: d.urlHash == "" }

  /** Copies of one article get one hash in whatever feeds, at whatever time: rows added by entries without a
      hash of their own, as the poller's are, with equal canonical urls. */
  lemma CopiesShareHash(t: Tables, feed: nat, batch: seq<Draft>, now: int, i: nat,
      u: Tables, other: nat, batch2: seq<Draft>, later: int, j: nat, hash: string -> string)
    requires WithoutHash(batch) && WithoutHash(batch2)
    requires var r := Rows.UpsertItems(t, feed, batch, now, hash).items; i in r && i !in t.items
    requires var r := Rows.UpsertItems(u, other, batch2, later, hash).items; j in r && j !in u.items
    requires Rows.UpsertItems(t, feed, batch, now, hash).items[i].canonicalUrl
          == Rows.UpsertItems(u, other, batch2, later, hash).items[j].canonicalUrl
    ensures Rows.UpsertItems(t, feed, batch, now, hash).items[i].urlHash
         == Rows.UpsertItems(u, other, batch2, later, hash).items[j].urlHash
  {
    UpsertItemsMeans(t, feed, batch, now, hash);
    UpsertItemsMeans(u, other, batch2, later, hash);
    var row, row2 := Rows.UpsertItems(t, feed, batch, now, hash).items[i], Rows.UpsertItems(u, other, batch2, later, hash).items[j];
    var p: nat :| EntryOf(t.items, feed, batch, now, hash, row, p);
    var q: nat :| EntryOf(u.items, other, batch2, later, hash, row2, q);
    assert batch[p] in batch && batch2[q] in batch2;
  }

  /** How many of the feed's rows sort before row `i`: the newer ones, and of equal date those stored later. */
  ghost function InFrontOf(items: map<nat, Item>, feed: nat, i: nat): set<nat>
    requires i in items
  {
    set y | y in items && items[y].feed == feed
         && (items[y].publishedAt > items[i].publishedAt || (items[y].publishedAt == items[i].publishedAt && y > i))
  }

  lemma PruneItemsMeans(t: Tables, feed: nat, keep: int, olderThan: int)
    ensures var r := PruneItems(t, feed, keep, olderThan);
      && r.feeds == t.feeds && r.states == t.states
      && (forall i | i in r.items :: i in t.items && r.items[i] == t.items[i])
      && (forall i | i in t.items :: i in r.items <==>
            t.items[i].feed != feed
            || (t.items[i].publishedAt >= Unix(olderThan) && (keep < 0 || |InFrontOf(t.items, feed, i)| < keep)))
  {
    forall i | i in t.items
      ensures i in PruneItems(t, feed, keep, olderThan).items <==>
        t.items[i].feed != feed
        || (t.items[i].publishedAt >= Unix(olderThan) && (keep < 0 || |InFrontOf(t.items, feed, i)| < keep))
    {
      PruneByRank(t.items, feed, keep, olderThan, i);
      assert InFrontOf(t.items, feed, i) == Ahead(t.items, FeedItems(t.items, feed), i);
    }
  }

  // ---- the timeline query

  /** The row belongs to one of the feeds and is not before `since`. */
  predicate Wanted(row: Item, ids: set<nat>, since: Option<int>) {
    row.feed in ids && (since.Some? ==> row.publishedAt >= Unix(since.value))
  }

  /** The rows come newest first, of equal date those stored later first. There are at most `limit` of them, only
      wanted ones, and one that is left out sorts after all of them and finds the limit reached. */
  lemma ListRowsMeans(items: map<nat, Item>, ids: set<nat>, since: Option<int>, limit: int)
    ensures var r := ListRows(items, ids, since, limit);
      && (0 <= limit ==> |r| <= limit)
      && (forall k | 0 <= k < |r| :: Wanted(items[r[k]], ids, since))
      && (forall i, j | 0 <= i < j < |r| ::
            items[r[i]].publishedAt > items[r[j]].publishedAt || (items[r[i]].publishedAt == items[r[j]].publishedAt && r[i] > r[j]))
      && (forall x | x in items && Wanted(items[x], ids, since) && x !in r ::
            0 <= limit == |r| && forall k | 0 <= k < |r| ::
              items[r[k]].publishedAt > items[x].publishedAt || (items[r[k]].publishedAt == items[x].publishedAt && r[k] > x))
  {
    var listed := Listed(items, ids, since);
    var all, r := Ordered(items, listed), ListRows(items, ids, since, limit);
    OrderedSorted(items, listed);
    forall k | 0 <= k < |r| ensures r[k] == all[k] && Wanted(items[r[k]], ids, since) {
      assert all[k] in all;
    }
    forall x | x in items && Wanted(items[x], ids, since) && x !in r
      ensures 0 <= limit == |r| && forall k | 0 <= k < |r| :: Newer(items, r[k], x)
    {
      assert x in listed;
      var p :| 0 <= p < |all| && all[p] == x;
      assert p >= |r|;
    }
  }

  // ---- eviction

  /** Exactly the feeds last requested before the cutoff's second go, each with its state row and its items, and
      no other row of any table does. */
  lemma EvictMeans(t: Tables, cutoff: int)
    requires t.Valid()
    ensures var r := Evict(t, cutoff);
      && (forall id :: id in r.feeds <==> id in t.feeds && t.feeds[id].lastRequestedAt >= Unix(cutoff))
      && (forall id :: id in r.states <==> id in t.states && t.feeds[id].lastRequestedAt >= Unix(cutoff))
      && (forall i :: i in r.items <==> i in t.items && t.feeds[t.items[i].feed].lastRequestedAt >= Unix(cutoff))
      && (forall id | id in r.feeds :: r.feeds[id] == t.feeds[id])
      && (forall id | id in r.states :: r.states[id] == t.states[id])
      && (forall i | i in r.items :: r.items[i] == t.items[i])
  {}

  // ---- row ids

  /** The first row of a table gets 1, any other the next after the largest. */
  lemma NextRowIs(ids: set<nat>)
    ensures ids == {} ==> NextRowId(ids) == 1
    ensures ids != {} ==> NextRowId(ids) - 1 in ids && forall x | x in ids :: x < NextRowId(ids)
  {}

  /** A batch is stored in its own order. */
  lemma {:induction false} UpsertInOrder(items: map<nat, Item>, feed: nat, batch: seq<Draft>, now: int, hash: string -> string,
      i: nat, j: nat, p: nat, q: nat)
    requires var r := Upsert(items, feed, batch, now, hash);
      && i in r && j in r && i !in items && j !in items && i < j
      && FirstAt(batch, p) && FirstAt(batch, q) && r[i].key == batch[p].key && r[j].key == batch[q].key
    ensures p < q
  {
    var n := |batch| - 1;
    var most := batch[..n];
    var s, r := Upsert(items, feed, most, now, hash), Upsert(items, feed, batch, now, hash);
    UpsertKeeps(items, feed, most, now, hash);
    UpsertAdds(items, feed, batch, now, hash, i);
    UpsertAdds(items, feed, batch, now, hash, j);
    if j in s {
      assert i in s || i == NextRowId(s.Keys);
      assert j < NextRowId(s.Keys);
      EntryWithin(items, feed, most, now, hash, i);
      EntryWithin(items, feed, most, now, hash, j);
      InsertKeeps(s, feed, batch[n], now, hash, i);
      InsertKeeps(s, feed, batch[n], now, hash, j);
      SamePlace(batch, n, s[i].key, p);
      SamePlace(batch, n, s[j].key, q);
      UpsertInOrder(items, feed, most, now, hash, i, j, p, q);
    } else {
      assert j == NextRowId(s.Keys) && i in s;
      EntryWithin(items, feed, most, now, hash, i);
      InsertKeeps(s, feed, batch[n], now, hash, i);
      SamePlace(batch, n, s[i].key, p);
      assert r[j].key == batch[n].key;
      UpsertStores(items, feed, most, now, hash, batch[n].key);
      assert forall k: nat | k < n :: batch[k] == most[k] && most[k] in most;
    }
  }

  lemma EntryWithin(items: map<nat, Item>, feed: nat, batch: seq<Draft>, now: int, hash: string -> string, i: nat)
    requires i in Upsert(items, feed, batch, now, hash) && i !in items
    ensures exists k: nat :: k < |batch| && batch[k].key == Upsert(items, feed, batch, now, hash)[i].key
  {
    UpsertAdds(items, feed, batch, now, hash, i);
  }

  /** A key among the first `n` entries has its first place there. */
  lemma SamePlace(batch: seq<Draft>, n: nat, key: string, p: nat)
    requires n <= |batch| && FirstAt(batch, p) && batch[p].key == key
    requires exists k: nat :: k < n && batch[..n][k].key == key
    ensures p < n && FirstAt(batch[..n], p) && batch[..n][p] == batch[p]
  {
    var k: nat :| k < n && batch[..n][k].key == key;
    assert batch[k].key == key;
  }
}
