/** What a feed keeps: UpsertItems adds headlines by key, PruneItems cuts by count and by age. */
module Retention {
  import opened Rows
  import opened RowIds
  import opened Ranking

  ghost function FeedItems(items: map<nat, Item>, feed: nat): set<nat> {
    set i | i in items && items[i].feed == feed
  }

  /** DELETE ... WHERE feed_id = ? AND (published_at < ? OR id NOT IN (... LIMIT ?)). */
  ghost function Prune(items: map<nat, Item>, feed: nat, keep: int, cutoff: int): map<nat, Item> {
    var top := Top(items, FeedItems(items, feed), keep);
    map i | i in items && !(items[i].feed == feed && (items[i].publishedAt < Unix(cutoff) || i !in top)) :: items[i]
  }

  ghost predicate Young(items: map<nat, Item>, i: nat, cutoff: int)
    requires i in items
  {
    items[i].publishedAt >= Unix(cutoff)
  }

  ghost function YoungItems(items: map<nat, Item>, feed: nat, cutoff: int): set<nat> {
    set i | i in items && items[i].feed == feed && Young(items, i, cutoff)
  }

  /** A row of the feed survives iff it is young enough and fewer than `keep` rows are newer;
      the rows of other feeds all survive, and no row changes. */
  lemma PruneByRank(items: map<nat, Item>, feed: nat, keep: int, cutoff: int, i: nat)
    ensures var r := Prune(items, feed, keep, cutoff);
      && (i in r ==> i in items && r[i] == items[i])
      && (i in items && items[i].feed != feed ==> i in r)
      && (i in items && items[i].feed == feed ==>
            (i in r <==> Young(items, i, cutoff) && (keep < 0 || |Ahead(items, FeedItems(items, feed), i)| < keep)))
  {
    if i in items {
      TopByRank(items, FeedItems(items, feed), keep, i);
    }
  }

  /** Every survivor of the feed is newer than every row that was deleted. */
  lemma PruneNewestFirst(items: map<nat, Item>, feed: nat, keep: int, cutoff: int, a: nat, b: nat)
    requires a in Prune(items, feed, keep, cutoff) && items[a].feed == feed
    requires b in items && b !in Prune(items, feed, keep, cutoff)
    ensures Newer(items, a, b)
  {
    PruneByRank(items, feed, keep, cutoff, a);
    PruneByRank(items, feed, keep, cutoff, b);
    RankMonotone(items, FeedItems(items, feed), b, a);
  }

  lemma RankMonotone(items: map<nat, Item>, ids: set<nat>, b: nat, a: nat)
    requires ids <= items.Keys && a in items && b in items
    ensures Newer(items, b, a) ==> |Ahead(items, ids, b)| <= |Ahead(items, ids, a)|
  {
    if Newer(items, b, a) {
      SubsetSize(Ahead(items, ids, b), Ahead(items, ids, a));
    }
  }

  /** Cutting by count and cutting by age commute: the feed keeps the first `keep` of its young rows. */
  lemma PruneIsTopOfYoung(items: map<nat, Item>, feed: nat, keep: int, cutoff: int)
    ensures FeedItems(Prune(items, feed, keep, cutoff), feed) == Top(items, YoungItems(items, feed, cutoff), keep)
  {
    var kept, top := FeedItems(Prune(items, feed, keep, cutoff), feed), Top(items, YoungItems(items, feed, cutoff), keep);
    forall i | i in items ensures i in kept <==> i in top {
      SurvivesIffTopOfYoung(items, feed, keep, cutoff, i);
    }
    assert forall i | i in kept || i in top :: i in items;
  }

  lemma SurvivesIffTopOfYoung(items: map<nat, Item>, feed: nat, keep: int, cutoff: int, i: nat)
    requires i in items
    ensures i in FeedItems(Prune(items, feed, keep, cutoff), feed)
       <==> i in Top(items, YoungItems(items, feed, cutoff), keep)
  {
    var young := YoungItems(items, feed, cutoff);
    PruneByRank(items, feed, keep, cutoff, i);
    TopByRank(items, young, keep, i);
    if i in young {
      assert Ahead(items, young, i) == Ahead(items, FeedItems(items, feed), i);
    }
  }

  /** The smaller of two limits, a negative one being no limit. */
  function Tighter(k: int, l: int): int {
    if k < 0 || (0 <= l < k) then l else k
  }

  /** Two prunes in a row are one prune with both limits and both cutoffs; so pruning is idempotent and
      the order of two prunes does not matter. */
  lemma PruneCompose(items: map<nat, Item>, feed: nat, k: int, c: int, l: int, d: int)
    ensures Prune(Prune(items, feed, k, c), feed, l, d)
         == Prune(items, feed, Tighter(k, l), if c < d then d else c)
  {
    var twice := Prune(Prune(items, feed, k, c), feed, l, d);
    var both := Prune(items, feed, Tighter(k, l), if c < d then d else c);
    forall i ensures i in twice <==> i in both {
      ComposeAt(items, feed, k, c, l, d, i);
    }
    assert twice.Keys == both.Keys;
    forall i | i in twice ensures twice[i] == both[i] {
      PruneByRank(Prune(items, feed, k, c), feed, l, d, i);
      PruneByRank(items, feed, k, c, i);
      PruneByRank(items, feed, Tighter(k, l), if c < d then d else c, i);
    }
  }

  lemma ComposeAt(items: map<nat, Item>, feed: nat, k: int, c: int, l: int, d: int, i: nat)
    ensures i in Prune(Prune(items, feed, k, c), feed, l, d)
       <==> i in Prune(items, feed, Tighter(k, l), if c < d then d else c)
  {
    var once := Prune(items, feed, k, c);
    PruneByRank(items, feed, k, c, i);
    PruneByRank(once, feed, l, d, i);
    PruneByRank(items, feed, Tighter(k, l), if c < d then d else c, i);
    if i in once && items[i].feed == feed {
      SurvivorsKeepRank(items, feed, k, c, i);
    }
  }

  lemma SurvivorsKeepRank(items: map<nat, Item>, feed: nat, keep: int, cutoff: int, i: nat)
    requires i in Prune(items, feed, keep, cutoff) && items[i].feed == feed
    ensures var r := Prune(items, feed, keep, cutoff);
      Ahead(r, FeedItems(r, feed), i) == Ahead(items, FeedItems(items, feed), i)
  {
    var r := Prune(items, feed, keep, cutoff);
    forall y | y in Ahead(items, FeedItems(items, feed), i) ensures y in r {
      if y !in r {
        PruneNewestFirst(items, feed, keep, cutoff, i, y);
      }
    }
  }

  // ---- UpsertItems

  /** Position `p` is the first in the batch with its key. */
  predicate FirstAt(batch: seq<Draft>, p: nat) {
    p < |batch| && forall q | 0 <= q < p :: batch[q].key != batch[p].key
  }

  /** The keys of the batch the feed does not have yet. */
  function NewKeys(items: map<nat, Item>, feed: nat, batch: seq<Draft>): set<string> {
    set d | d in batch && !Stored(items, feed, d.key) :: d.key
  }

  /** `row` is what the batch's first copy of a key the feed did not have turns into. */
  ghost predicate FromBatch(items: map<nat, Item>, feed: nat, batch: seq<Draft>, now: int, hash: string -> string, row: Item) {
    exists p: nat :: FirstAt(batch, p) && !Stored(items, feed, batch[p].key) && row == RowOf(feed, batch[p], now, hash)
  }

  /** First write wins: stored rows stay as they are, and rows are added after them. */
  lemma {:induction false} UpsertKeeps(items: map<nat, Item>, feed: nat, batch: seq<Draft>, now: int, hash: string -> string)
    ensures var r := Upsert(items, feed, batch, now, hash);
      && (forall i | i in items :: i in r && r[i] == items[i])
      && (forall i, x | i in r && i !in items && x in items :: x < i)
  {
    if batch != [] {
      UpsertKeeps(items, feed, batch[..|batch| - 1], now, hash);
    }
  }

  /** Every added row is the first copy in the batch of a key the feed did not have. */
  lemma {:induction false} UpsertAdds(items: map<nat, Item>, feed: nat, batch: seq<Draft>, now: int, hash: string -> string, i: nat)
    requires i in Upsert(items, feed, batch, now, hash) && i !in items
    ensures FromBatch(items, feed, batch, now, hash, Upsert(items, feed, batch, now, hash)[i])
  {
    var n := |batch| - 1;
    var most := batch[..n];
    var s := Upsert(items, feed, most, now, hash);
    if i in s {
      UpsertAdds(items, feed, most, now, hash, i);
      FromLonger(items, feed, batch, now, hash, s[i]);
      InsertKeeps(s, feed, batch[n], now, hash, i);
    } else {
      UpsertStores(items, feed, most, now, hash, batch[n].key);
      assert !Stored(s, feed, batch[n].key);
      assert FirstAt(batch, n) by {
        forall q | 0 <= q < n ensures batch[q].key != batch[n].key { assert most[q] in most; }
      }
    }
  }

  lemma InsertKeeps(items: map<nat, Item>, feed: nat, d: Draft, now: int, hash: string -> string, i: nat)
    requires i in items
    ensures i in InsertItem(items, feed, d, now, hash) && InsertItem(items, feed, d, now, hash)[i] == items[i]
  {}

  lemma FromLonger(items: map<nat, Item>, feed: nat, batch: seq<Draft>, now: int, hash: string -> string, row: Item)
    requires batch != [] && FromBatch(items, feed, batch[..|batch| - 1], now, hash, row)
    ensures FromBatch(items, feed, batch, now, hash, row)
  {
    var most := batch[..|batch| - 1];
    var p: nat :| FirstAt(most, p) && !Stored(items, feed, most[p].key) && row == RowOf(feed, most[p], now, hash);
    assert FirstAt(batch, p) && batch[p] == most[p];
  }

  lemma InsertStores(items: map<nat, Item>, feed: nat, d: Draft, now: int, hash: string -> string, key: string)
    ensures Stored(InsertItem(items, feed, d, now, hash), feed, key) <==> Stored(items, feed, key) || d.key == key
  {
    if !Stored(items, feed, d.key) {
      var r := InsertItem(items, feed, d, now, hash);
      var i := NextRowId(items.Keys);
      assert i in r && r[i].feed == feed && r[i].key == d.key;
      if j :| j in items && items[j].feed == feed && items[j].key == key {
        assert j in r && r[j].feed == feed && r[j].key == key;
      }
    }
  }

  /** The number of rows added is the number of distinct batch keys the feed did not have. */
  lemma {:induction false} UpsertCounts(items: map<nat, Item>, feed: nat, batch: seq<Draft>, now: int, hash: string -> string)
    ensures |Upsert(items, feed, batch, now, hash)| == |items| + |NewKeys(items, feed, batch)|
  {
    if batch == [] {
      assert NewKeys(items, feed, batch) == {};
    } else {
      var n := |batch| - 1;
      var most, d := batch[..n], batch[n];
      UpsertCounts(items, feed, most, now, hash);
      UpsertStores(items, feed, most, now, hash, d.key);
      NewKeysStep(items, feed, batch);
      InsertCounts(Upsert(items, feed, most, now, hash), feed, d, now, hash);
    }
  }

  lemma InsertCounts(items: map<nat, Item>, feed: nat, d: Draft, now: int, hash: string -> string)
    ensures |InsertItem(items, feed, d, now, hash)| == |items| + if Stored(items, feed, d.key) then 0 else 1
  {}

  lemma NewKeysStep(items: map<nat, Item>, feed: nat, batch: seq<Draft>)
    requires batch != []
    ensures var most, key := batch[..|batch| - 1], batch[|batch| - 1].key;
      |NewKeys(items, feed, batch)| == |NewKeys(items, feed, most)|
        + if Stored(items, feed, key) || exists d | d in most :: d.key == key then 0 else 1
  {
    var most, last := batch[..|batch| - 1], batch[|batch| - 1];
    assert batch == most + [last];
    var own: set<string> := if Stored(items, feed, last.key) then {} else {last.key};
    assert NewKeys(items, feed, batch) == NewKeys(items, feed, most) + own by {
      forall d | d in batch ensures d in most || d == last {}
      forall d | d in most ensures d in batch {}
    }
  }

  /** After the batch the feed has exactly the keys it had and those of the batch. */
  lemma {:induction false} UpsertStores(items: map<nat, Item>, feed: nat, batch: seq<Draft>, now: int, hash: string -> string, key: string)
    ensures Stored(Upsert(items, feed, batch, now, hash), feed, key)
       <==> Stored(items, feed, key) || exists d | d in batch :: d.key == key
  {
    if batch != [] {
      var n := |batch| - 1;
      UpsertStores(items, feed, batch[..n], now, hash, key);
      InsertStores(Upsert(items, feed, batch[..n], now, hash), feed, batch[n], now, hash, key);
      assert batch == batch[..n] + [batch[n]];
    }
  }

  lemma {:induction false} UpsertUnique(items: map<nat, Item>, feed: nat, batch: seq<Draft>, now: int, hash: string -> string)
    requires UniqueKeys(items)
    ensures UniqueKeys(Upsert(items, feed, batch, now, hash))
  {
    if batch != [] {
      UpsertUnique(items, feed, batch[..|batch| - 1], now, hash);
    }
  }

  lemma {:induction false} UpsertFeeds(items: map<nat, Item>, feed: nat, batch: seq<Draft>, now: int, hash: string -> string)
    ensures var r := Upsert(items, feed, batch, now, hash);
      forall i | i in r :: r[i].feed == feed || (i in items && r[i] == items[i])
  {
    if batch != [] {
      UpsertFeeds(items, feed, batch[..|batch| - 1], now, hash);
    }
  }

  /** The same batch again changes nothing, whenever it comes. */
  lemma UpsertAgain(items: map<nat, Item>, feed: nat, batch: seq<Draft>, now: int, later: int, hash: string -> string)
    ensures var r := Upsert(items, feed, batch, now, hash);
      Upsert(r, feed, batch, later, hash) == r && NewKeys(r, feed, batch) == {}
  {
    forall d | d in batch ensures Stored(Upsert(items, feed, batch, now, hash), feed, d.key) {
      UpsertStores(items, feed, batch, now, hash, d.key);
    }
    UpsertKnown(Upsert(items, feed, batch, now, hash), feed, batch, later, hash);
  }

  lemma {:induction false} UpsertKnown(items: map<nat, Item>, feed: nat, batch: seq<Draft>, now: int, hash: string -> string)
    requires forall d | d in batch :: Stored(items, feed, d.key)
    ensures Upsert(items, feed, batch, now, hash) == items
  {
    if batch != [] {
      UpsertKnown(items, feed, batch[..|batch| - 1], now, hash);
    }
  }
}
