/** Every statement keeps the schema's constraints. */
module Integrity {
  import opened Rows
  import opened RowIds
  import opened Retention

  ghost function PruneItems(t: Tables, feed: nat, keep: int, cutoff: int): Tables {
    t.(items := Prune(t.items, feed, keep, cutoff))
  }

  lemma InsertFeedValid(t: Tables, url: string, now: int, id: nat)
    requires t.Valid() && id !in t.feeds
    ensures InsertFeed(t, url, now, id).Valid()
  {}

  lemma InsertStateValid(t: Tables, url: string, now: int)
    requires t.Valid()
    ensures InsertState(t, url, now).Valid()
  {}

  lemma TouchFeedValid(t: Tables, url: string, now: int)
    requires t.Valid()
    ensures TouchFeed(t, url, now).Valid()
  {}

  lemma LockValid(t: Tables, ids: set<nat>, until: int)
    requires t.Valid()
    ensures t.(states := Lock(t.states, ids, until)).Valid()
  {}

  lemma RecordOKValid(t: Tables, id: nat, r: FetchOK)
    requires t.Valid()
    ensures RecordOK(t, id, r).Valid()
  {}

  lemma RecordErrorValid(t: Tables, id: nat, status: int, msg: string, fetchedAt: int, next: int)
    requires t.Valid()
    ensures RecordError(t, id, status, msg, fetchedAt, next).Valid()
  {}

  lemma UpsertItemsValid(t: Tables, feed: nat, batch: seq<Draft>, now: int, hash: string -> string)
    requires t.Valid()
    ensures UpsertItems(t, feed, batch, now, hash).Valid()
  {
    UpsertUnique(t.items, feed, batch, now, hash);
    UpsertFeeds(t.items, feed, batch, now, hash);
  }

  lemma PruneItemsValid(t: Tables, feed: nat, keep: int, cutoff: int)
    requires t.Valid()
    ensures PruneItems(t, feed, keep, cutoff).Valid()
  {
    var r := Prune(t.items, feed, keep, cutoff);
    assert forall i | i in r :: i in t.items && r[i] == t.items[i];
  }

  lemma EvictValid(t: Tables, cutoff: int)
    requires t.Valid()
    ensures Evict(t, cutoff).Valid()
  {
    var r := Evict(t, cutoff);
    assert forall i | i in r.items :: i in t.items && r.items[i] == t.items[i];
    assert forall i | i in r.feeds :: i in t.feeds && r.feeds[i] == t.feeds[i];
  }
}
