/** The persistence layer: three tables, each public method one transaction or a few statements. */
module Store {
  import opened Rows
  import opened RowIds
  import opened Ranking
  import opened Retention
  import opened Integrity

  // ---- the due query has an answer

  ghost predicate Soonest(states: map<nat, FetchState>, due: set<nat>, m: nat)
    requires due <= states.Keys
  {
    m in due && forall x | x in due :: states[m].nextPollAt <= states[x].nextPollAt
  }

  lemma {:induction false} SoonestExists(states: map<nat, FetchState>, due: set<nat>)
    requires due <= states.Keys && due != {}
    ensures exists m :: Soonest(states, due, m)
    decreases due
  {
    var a :| a in due;
    var rest := due - {a};
    if rest == {} {
      assert Soonest(states, due, a) by { assert forall x | x in due :: x == a || x in rest; }
    } else {
      SoonestExists(states, rest);
      var m :| Soonest(states, rest, m);
      assert forall x | x in due :: x == a || x in rest;
      if states[a].nextPollAt < states[m].nextPollAt {
        assert Soonest(states, due, a);
      } else {
        assert Soonest(states, due, m);
      }
    }
  }

  ghost predicate FirstDue(states: map<nat, FetchState>, due: set<nat>, ids: set<nat>)
    requires due <= states.Keys
  {
    ids <= due && forall a, b | a in ids && b in due - ids :: states[a].nextPollAt <= states[b].nextPollAt
  }

  lemma {:induction false} FirstDueExists(states: map<nat, FetchState>, due: set<nat>, n: nat) returns (ids: set<nat>)
    requires due <= states.Keys && n <= |due|
    ensures FirstDue(states, due, ids) && |ids| == n
  {
    ids := {};
    if n > 0 {
      ids := FirstDueExists(states, due, n - 1);
      SubsetSize(ids, due);
      SoonestExists(states, due - ids);
      var m :| Soonest(states, due - ids, m);
      ids := ids + {m};
    }
  }

  lemma DuePickExists(states: map<nat, FetchState>, now: int, limit: int)
    ensures exists ids :: DuePick(states, now, limit, ids)
  {
    var due := EligibleIds(states, now);
    var n := if limit < 0 || |due| < limit then |due| else limit;
    var ids := FirstDueExists(states, due, n);
    SubsetSize(ids, due);
    assert DuePick(states, now, limit, ids);
  }

  lemma IdOfIs(feeds: map<nat, Feed>, url: string, id: nat)
    requires id in feeds && feeds[id].url == url && forall f | f in feeds && feeds[f].url == url :: f == id
    ensures IdOf(feeds, url) == Some(id)
  {}

  /** What an EnsureFeed that is not interrupted does to the tables. */
  ghost function Ensured(t: Tables, url: string, now: int): Tables {
    if IdOf(t.feeds, url).Some? then TouchFeed(t, url, now)
    else InsertState(InsertFeed(t, url, now, NextRowId(t.feeds.Keys)), url, now)
  }

  /** The rows a timeline query answers with; `since` is in nanoseconds. */
  ghost function Listed(items: map<nat, Item>, ids: set<nat>, since: Option<int>): set<nat> {
    set i | i in items && items[i].feed in ids && (since.Some? ==> items[i].publishedAt >= Unix(since.value))
  }

  ghost function ListRows(items: map<nat, Item>, ids: set<nat>, since: Option<int>, limit: int): (r: seq<nat>)
    ensures forall k | 0 <= k < |r| :: r[k] in items
  {
    OrderedSorted(items, Listed(items, ids, since));
    Limited(Ordered(items, Listed(items, ids, since)), limit)
  }

  function ItemsAt(items: map<nat, Item>, rows: seq<nat>): (r: seq<Item>)
    requires forall k | 0 <= k < |rows| :: rows[k] in items
    ensures |r| == |rows|
  {
    seq(|rows|, k requires 0 <= k < |rows| => items[rows[k]])
  }

  ghost function List(items: map<nat, Item>, ids: set<nat>, since: Option<int>, limit: int): seq<Item> {
    ItemsAt(items, ListRows(items, ids, since, limit))
  }

  /** Locks `done`, one row after another, and `out` so far is what the rows of `done` read back as. */
  ghost predicate Locking(feeds: map<nat, Feed>, states: map<nat, FetchState>, done: set<nat>, until: int, tx: map<nat, FetchState>, out: seq<Due>) {
    && tx == Lock(states, done, until)
    && DueIds(out) == done
    && (forall i, j | 0 <= i < j < |out| :: out[i].id != out[j].id)
    && (forall d | d in out :: d.id in feeds && d.id in tx && d.feed == feeds[d.id] && d.state == tx[d.id])
  }

  lemma LockingStep(feeds: map<nat, Feed>, states: map<nat, FetchState>, done: set<nat>, until: int, tx: map<nat, FetchState>, out: seq<Due>, id: nat)
    requires Locking(feeds, states, done, until, tx, out) && id !in done && id in states && id in feeds
    ensures var next := tx[id := tx[id].(lockedUntil := Some(until))];
      Locking(feeds, states, done + {id}, until, next, out + [Due(id, feeds[id], next[id])])
  {
    var next := tx[id := tx[id].(lockedUntil := Some(until))];
    var more := out + [Due(id, feeds[id], next[id])];
    assert next == Lock(states, done + {id}, until);
    forall d | d in more ensures d.id in done + {id} {}
    forall x | x in done + {id} ensures x in DueIds(more) {
      if x in done {
        var d :| d in out && d.id == x;
        assert d in more;
      } else {
        assert more[|out|].id == x;
      }
    }
    assert DueIds(more) == done + {id};
    forall i | 0 <= i < |out| ensures out[i].id in done {
      assert out[i] in out;
    }
  }

  /** The body of the claiming transaction: lock each row, then read it back. */
  method LockRows(feeds: map<nat, Feed>, states: map<nat, FetchState>, ids: set<nat>, until: int)
    returns (tx: map<nat, FetchState>, out: seq<Due>)
    requires ids <= states.Keys <= feeds.Keys
    ensures Locking(feeds, states, ids, until, tx, out)
  {
    tx, out := states, [];
    var rest := ids;
    assert tx == Lock(states, {}, until) && ids - rest == {};
    while rest != {}
      invariant rest <= ids && Locking(feeds, states, ids - rest, until, tx, out)
      decreases rest
    {
      var id :| id in rest;
      LockingStep(feeds, states, ids - rest, until, tx, out, id);
      assert ids - (rest - {id}) == (ids - rest) + {id};
      tx := tx[id := tx[id].(lockedUntil := Some(until))];
      out := out + [Due(id, feeds[id], tx[id])];
      rest := rest - {id};
    }
    assert ids - rest == ids;
  }

  lemma ClaimsFromLocks(t: Tables, ids: set<nat>, out: seq<Due>, now: int, lockFor: int, limit: int)
    requires DuePick(t.states, now, limit, ids)
    requires exists tx :: Locking(t.feeds, t.states, ids, LeaseEnd(now, lockFor), tx, out)
    ensures ClaimsDue(t, t.(states := Lock(t.states, ids, LeaseEnd(now, lockFor))), out, now, lockFor, limit)
  {}

  /** The body of the upsert transaction. */
  method InsertRows(items: map<nat, Item>, feed: nat, batch: seq<Draft>, now: int, hash: string -> string)
    returns (tx: map<nat, Item>, inserted: nat)
    ensures tx == Upsert(items, feed, batch, now, hash)
    ensures inserted == |NewKeys(items, feed, batch)|
  {
    tx := items;
    inserted := 0;
    for i := 0 to |batch|
      invariant tx == Upsert(items, feed, batch[..i], now, hash)
      invariant |tx| == |items| + inserted
    {
      var it := batch[i];
      assert batch[..i + 1][..i] == batch[..i];
      InsertCounts(tx, feed, it, now, hash);
      if !Stored(tx, feed, it.key) {
        var id := NewRow(tx.Keys);
        tx := tx[id := RowOf(feed, it, now, hash)];
        inserted := inserted + 1;
      }
    }
    assert batch[..|batch|] == batch;
    UpsertCounts(items, feed, batch, now, hash);
  }

  /** SELECT ... ORDER BY published_at DESC, id DESC LIMIT ?. */
  method Query(items: map<nat, Item>, ids: set<nat>, limit: int) returns (rows: seq<nat>)
    requires ids <= items.Keys
    ensures rows == Limited(Ordered(items, ids), limit)
  {
    rows := [];
    var rest := ids;
    while rest != {} && (limit < 0 || |rows| < limit)
      invariant rest <= items.Keys
      invariant rows + Ordered(items, rest) == Ordered(items, ids)
      invariant limit < 0 || |rows| <= limit
      decreases rest
    {
      NewestExists(items, rest);
      var m :| m in rest && forall x | x in rest && x != m :: Newer(items, m, x);
      OrderedHead(items, rest, m);
      Regroup(rows, m, Ordered(items, rest - {m}));
      rows := rows + [m];
      rest := rest - {m};
    }
    TakenIsLimited(rows, Ordered(items, rest), limit);
  }

  lemma TakenIsLimited<T>(taken: seq<T>, left: seq<T>, limit: int)
    requires limit < 0 || |taken| <= limit
    requires left == [] || |taken| == limit
    ensures taken == Limited(taken + left, limit)
  {}

  /** DELETE FROM items WHERE feed_id = ? AND (published_at < ? OR id NOT IN (the newest `keep`)). */
  method DeleteRows(items: map<nat, Item>, feed: nat, keep: int, olderThan: int) returns (left: map<nat, Item>)
    ensures left == Prune(items, feed, keep, olderThan)
  {
    var mine := set i | i in items && items[i].feed == feed;
    assert mine == FeedItems(items, feed);
    var top := Query(items, mine, keep);
    left := map i | i in items && !(items[i].feed == feed && (items[i].publishedAt < Unix(olderThan) || i !in top)) :: items[i];
  }

  lemma OrderedHead(items: map<nat, Item>, ids: set<nat>, m: nat)
    requires ids <= items.Keys && Newest(items, ids, m)
    ensures Ordered(items, ids) == [m] + Ordered(items, ids - {m})
  {}

  /** One more than the largest id in use, or 1 for an empty table. */
  method NewRow(ids: set<nat>) returns (r: nat)
    ensures r == NextRowId(ids)
  {
    r := 1;
    var rest := ids;
    while rest != {}
      invariant rest <= ids
      invariant if rest == ids then r == 1 else r >= 1 && r - 1 in ids && forall x | x in ids && x !in rest :: x < r
      decreases rest
    {
      var id :| id in rest;
      if rest == ids || id >= r {
        r := id + 1;
      }
      rest := rest - {id};
    }
  }

  lemma EvictedSize(t: Tables, cutoff: int)
    ensures |EvictedIds(t.feeds, cutoff)| == |t.feeds| - |Evict(t, cutoff).feeds|
  {
    SplitSize(t.feeds, EvictedIds(t.feeds, cutoff));
  }

  lemma SplitSize<T>(rows: map<nat, T>, gone: set<nat>)
    requires gone <= rows.Keys
    ensures |Without(rows, gone)| == |rows| - |gone|
  {
    assert |Without(rows, gone).Keys| == |rows.Keys| - |gone|;
  }

  class Store {
    var feeds: map<nat, Feed>
    var states: map<nat, FetchState>
    var items: map<nat, Item>
    const hash: string -> string

    ghost function Tables(): Tables reads this { Rows.Tables.Tables(feeds, states, items) }

    ghost predicate Valid() reads this { Tables().Valid() }

    constructor (hash: string -> string)
      ensures Valid() && feeds == map[] && states == map[] && items == map[] && this.hash == hash
    {
      this.hash := hash;
      feeds, states, items := map[], map[], map[];
    }

    /** Upserts the url: a new feed gets a state row that is due at once, a known one is marked as requested. */
    method EnsureFeed(url: string, now: int) returns (id: nat, created: bool)
      requires Valid()
      modifies this
      ensures Valid() && items == old(items)
      ensures Tables() == Ensured(old(Tables()), url, now)
      ensures created <==> forall f | f in old(feeds) :: old(feeds)[f].url != url
      ensures id in feeds && feeds[id].url == url && feeds[id].lastRequestedAt >= Unix(now)
      ensures created ==> id !in old(feeds) && id in states && states[id] == NewState(now)
      ensures !created ==> id in old(feeds) && states == old(states)
      ensures forall f | f in old(feeds) && f != id :: f in feeds && feeds[f] == old(feeds)[f]
    {
      if known :| known in feeds && feeds[known].url == url {
        id, created := known, false;
        IdOfIs(feeds, url, id);
        feeds := feeds[id := Requested(feeds[id], now)];
      } else {
        id := NewRow(feeds.Keys);
        created := true;
        assert IdOf(feeds, url).None?;
        feeds := feeds[id := NewFeed(url, now)];
        IdOfIs(feeds, url, id);
        states := states[id := NewState(now)];
      }
    }

    /** Locks up to `limit` due, unlocked feeds, soonest due first, and returns them. */
    method ClaimDue(now: int, lockFor: int, limit: int) returns (out: seq<Due>)
      requires Valid()
      modifies this`states
      ensures Valid()
      ensures ClaimsDue(old(Tables()), Tables(), out, now, lockFor, limit)
      ensures forall d | d in out ::
        && d.id in old(states) && d.state.lockedUntil.Some?
        && d.state.lockedUntil.value * 1_000_000_000 <= now + lockFor < (d.state.lockedUntil.value + 1) * 1_000_000_000
        && d.state == old(states)[d.id].(lockedUntil := d.state.lockedUntil)
    {
      DuePickExists(states, now, limit);
      var ids :| DuePick(states, now, limit, ids);
      var until := LeaseEnd(now, lockFor);
      var tx: map<nat, FetchState>;
      tx, out := LockRows(feeds, states, ids, until);
      ghost var before := Tables();
      states := tx;
      ClaimsFromLocks(before, ids, out, now, lockFor, limit);
    }

    /** Locks one feed, due or not, unless it is locked already. */
    method ClaimFeed(id: nat, now: int, lockFor: int) returns (due: Option<Due>)
      requires Valid()
      modifies this`states
      ensures Valid()
      ensures due.Some? <==> id in old(states) && Unlocked(old(states)[id], now)
      ensures states == Lock(old(states), if due.Some? then {id} else {}, LeaseEnd(now, lockFor))
      ensures due.Some? ==> due.value == Due(id, feeds[id], states[id])
      ensures due.Some? ==>
        && states[id].lockedUntil.Some?
        && states[id].lockedUntil.value * 1_000_000_000 <= now + lockFor < (states[id].lockedUntil.value + 1) * 1_000_000_000
        && states == old(states)[id := old(states)[id].(lockedUntil := states[id].lockedUntil)]
      ensures due.None? ==> states == old(states)
    {
      if id !in states || !Unlocked(states[id], now) {
        return None;
      }
      states := states[id := states[id].(lockedUntil := Some(LeaseEnd(now, lockFor)))];
      due := Some(Due(id, feeds[id], states[id]));
    }

    method RecordFetchOK(id: nat, r: FetchOK)
      requires Valid()
      modifies this`states, this`feeds
      ensures Valid()
      ensures Tables() == RecordOK(old(Tables()), id, r)
    {
      if id in states {
        var st := states[id];
        var quiet := if r.newItems > 0 then 0 else st.quietPolls + 1;
        states := states[id := st.(
          etag := if r.etag != "" then r.etag else st.etag,
          lastModified := if r.lastModified != "" then r.lastModified else st.lastModified,
          nextPollAt := Unix(r.nextPollAt), lockedUntil := None,
          lastFetchAt := Some(Unix(r.fetchedAt)), lastOkAt := Some(Unix(r.fetchedAt)),
          lastStatus := r.status, failCount := 0, lastError := "", quietPolls := quiet)];
      }
      if id in feeds {
        feeds := feeds[id := FeedOK(feeds[id], r)];
      }
    }

    method RecordFetchError(id: nat, status: int, msg: string, fetchedAt: int, nextPollAt: int)
      requires Valid()
      modifies this`states
      ensures Valid()
      ensures Tables() == RecordError(old(Tables()), id, status, msg, fetchedAt, nextPollAt)
    {
      var clipped := msg;
      if |clipped| > 500 {
        clipped := clipped[..500];
      }
      if id in states {
        states := states[id := states[id].(
          nextPollAt := Unix(nextPollAt), lockedUntil := None, lastFetchAt := Some(Unix(fetchedAt)),
          lastStatus := status, failCount := states[id].failCount + 1, lastError := clipped)];
      }
    }

    /** Adds the headlines whose keys are new and says how many those were; an unknown feed is an error
        that leaves everything as it was. */
    method UpsertItems(feed: nat, batch: seq<Draft>, now: int) returns (inserted: Option<int>)
      requires Valid()
      modifies this`items
      ensures Valid()
      ensures Tables() == Rows.UpsertItems(old(Tables()), feed, batch, now, hash)
      ensures inserted == if UpsertFails(old(Tables()), feed, batch) then None else Some(|NewKeys(old(items), feed, batch)|)
      ensures inserted.None? <==> batch != [] && feed !in feeds
      ensures inserted.Some? ==> inserted.value == |items| - |old(items)|
    {
      if |batch| == 0 {
        assert NewKeys(items, feed, batch) == {};
        return Some(0);
      }
      if feed !in feeds {
        return None;
      }
      UpsertItemsValid(Tables(), feed, batch, now, hash);
      UpsertCounts(items, feed, batch, now, hash);
      var tx, n := InsertRows(items, feed, batch, now, hash);
      items := tx;
      inserted := Some(n);
    }

    /** Headlines of the given feeds, newest first. */
    method ListItems(ids: seq<nat>, since: Option<int>, limit: int) returns (out: seq<Item>)
      requires Valid()
      ensures out == if ids == [] then [] else List(items, Members(ids), since, limit)
    {
      if ids == [] {
        return [];
      }
      var found := set i | i in items && items[i].feed in ids && (since.Some? ==> items[i].publishedAt >= Unix(since.value));
      assert found == Listed(items, Members(ids), since);
      var rows := Query(items, found, limit);
      assert rows == ListRows(items, Members(ids), since, limit);
      out := ItemsAt(items, rows);
    }

    /** Keeps the newest `keep` headlines of the feed, and drops those published before `olderThan`. */
    method PruneItems(feed: nat, keep: int, olderThan: int)
      requires Valid()
      modifies this`items
      ensures Valid()
      ensures Tables() == Integrity.PruneItems(old(Tables()), feed, keep, olderThan)
    {
      PruneItemsValid(Tables(), feed, keep, olderThan);
      var tx := DeleteRows(items, feed, keep, olderThan);
      items := tx;
    }

    /** Deletes the feeds nobody has requested since before the cutoff, and all that hangs on them. */
    method EvictFeeds(unrequestedBefore: int) returns (n: int)
      requires Valid()
      modifies this
      ensures Valid()
      ensures Tables() == Evict(old(Tables()), unrequestedBefore)
      ensures n == |old(feeds)| - |feeds|
      ensures forall id :: id in feeds <==> id in old(feeds) && old(feeds)[id].lastRequestedAt >= Unix(unrequestedBefore)
      ensures forall id :: id in states <==> id in old(states) && old(feeds)[id].lastRequestedAt >= Unix(unrequestedBefore)
      ensures forall i :: i in items <==> i in old(items) && old(feeds)[old(items)[i].feed].lastRequestedAt >= Unix(unrequestedBefore)
      ensures forall id | id in feeds :: feeds[id] == old(feeds)[id]
      ensures forall id | id in states :: states[id] == old(states)[id]
      ensures forall i | i in items :: items[i] == old(items)[i]
    {
      EvictValid(Tables(), unrequestedBefore);
      EvictedSize(Tables(), unrequestedBefore);
      n := |EvictedIds(feeds, unrequestedBefore)|;
      var left := Evict(Rows.Tables.Tables(feeds, states, items), unrequestedBefore);
      feeds, states, items := left.feeds, left.states, left.items;
    }
  }
}
