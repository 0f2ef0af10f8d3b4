/** Polling twice: upsert and prune, then upsert and prune again, the same document or another.

    What goes into the store depends on the poll's clock as well as on the document: an entry without a date
    gets the time of the poll, and so does one dated too far ahead. */
module Repoll {
  import opened Rows
  import opened RowIds
  import opened Ranking
  import opened Retention

  /** One poll of the feed: the document goes in, then the feed is cut to size. */
  ghost function Poll(items: map<nat, Item>, feed: nat, doc: seq<Draft>, now: int, hash: string -> string, keep: int, cutoff: int): map<nat, Item> {
    Prune(Upsert(items, feed, doc, now, hash), feed, keep, cutoff)
  }

  /** A key the store and the document share has the same date in both. */
  ghost predicate DatesAgree(items: map<nat, Item>, feed: nat, doc: seq<Draft>) {
    forall i, p: nat | i in items && items[i].feed == feed && FirstAt(doc, p) && doc[p].key == items[i].key ::
      items[i].publishedAt == Unix(doc[p].publishedAt)
  }

  /** The rows that are still young at the new cutoff, and every other feed's. */
  ghost function StillYoung(items: map<nat, Item>, feed: nat, cutoff: int): map<nat, Item> {
    map i | i in items && (items[i].feed != feed || Young(items, i, cutoff)) :: items[i]
  }

  /** Some entry of the document that is no longer stored has the very date of a row that is. */
  ghost predicate Ties(items: map<nat, Item>, feed: nat, doc: seq<Draft>, cutoff: int) {
    exists p: nat, i :: FirstAt(doc, p) && !Stored(items, feed, doc[p].key) && TiesWith(items, feed, cutoff, doc[p], i)
  }

  ghost predicate TiesWith(items: map<nat, Item>, feed: nat, cutoff: int, d: Draft, i: nat) {
    i in items && items[i].feed == feed && Young(items, i, cutoff) && items[i].publishedAt == Unix(d.publishedAt)
  }

  /** The row an upsert adds for an entry the feed did not have. */
  lemma AddedRow(items: map<nat, Item>, feed: nat, doc: seq<Draft>, now: int, hash: string -> string, p: nat) returns (y: nat)
    requires FirstAt(doc, p) && !Stored(items, feed, doc[p].key)
    ensures var all := Upsert(items, feed, doc, now, hash);
      y in all && y !in items && all[y] == RowOf(feed, doc[p], now, hash)
  {
    var all := Upsert(items, feed, doc, now, hash);
    UpsertStores(items, feed, doc, now, hash, doc[p].key);
    assert doc[p] in doc;
    y :| y in all && all[y].feed == feed && all[y].key == doc[p].key;
    UpsertKeeps(items, feed, doc, now, hash);
    UpsertAdds(items, feed, doc, now, hash, y);
    var q: nat :| FirstAt(doc, q) && !Stored(items, feed, doc[q].key) && all[y] == RowOf(feed, doc[q], now, hash);
    assert q == p;
  }

  // ---- any document

  /** The rows that would sort before a newcomer of this date. */
  ghost function StrictlyNewer(items: map<nat, Item>, feed: nat, cutoff: int, at: int): set<nat> {
    set i | i in YoungItems(items, feed, cutoff) && items[i].publishedAt > at
  }

  /** The entry would be too old, or have no room behind young rows that are strictly newer. */
  ghost predicate NoPlaceFor(items: map<nat, Item>, feed: nat, keep: int, cutoff: int, d: Draft) {
    Unix(d.publishedAt) < Unix(cutoff) || (0 <= keep <= |StrictlyNewer(items, feed, cutoff, Unix(d.publishedAt))|)
  }

  /** No entry of the document that the feed does not have would find a place. */
  ghost predicate NoPlace(items: map<nat, Item>, feed: nat, keep: int, cutoff: int, doc: seq<Draft>) {
    forall p: nat | FirstAt(doc, p) && !Stored(items, feed, doc[p].key) :: NoPlaceFor(items, feed, keep, cutoff, doc[p])
  }

  /** The feed has no more rows than it may keep, as after every prune. */
  ghost predicate Fits(items: map<nat, Item>, feed: nat, keep: int) { keep < 0 || |FeedItems(items, feed)| <= keep }

  lemma PollFits(items: map<nat, Item>, feed: nat, keep: int, cutoff: int)
    ensures Fits(Prune(items, feed, keep, cutoff), feed, keep)
  {
    PruneIsTopOfYoung(items, feed, keep, cutoff);
    TopSize(items, YoungItems(items, feed, cutoff), keep);
    if keep >= |YoungItems(items, feed, cutoff)| {
      assert Top(items, YoungItems(items, feed, cutoff), keep) == YoungItems(items, feed, cutoff);
    }
  }

  /** If there is no place for it, then a newcomer that is young enough is strictly older than every row the
      feed had. */
  lemma NothingOvertakes(once: map<nat, Item>, feed: nat, doc: seq<Draft>, later: int, hash: string -> string,
      keep: int, cutoff: int, y: nat)
    requires Fits(once, feed, keep) && NoPlace(once, feed, keep, cutoff, doc)
    requires y in Upsert(once, feed, doc, later, hash) && y !in once
    requires Upsert(once, feed, doc, later, hash)[y].publishedAt >= Unix(cutoff)
    ensures var again := Upsert(once, feed, doc, later, hash);
      && again[y].feed == feed && 0 <= keep && |FeedItems(once, feed)| == keep
      && forall i | i in FeedItems(once, feed) :: i in again && again[i] == once[i] && again[y].publishedAt < once[i].publishedAt
  {
    UpsertKeeps(once, feed, doc, later, hash);
    UpsertAdds(once, feed, doc, later, hash, y);
    var again := Upsert(once, feed, doc, later, hash);
    var p: nat :| FirstAt(doc, p) && !Stored(once, feed, doc[p].key) && again[y] == RowOf(feed, doc[p], later, hash);
    assert NoPlaceFor(once, feed, keep, cutoff, doc[p]);
    var newer := StrictlyNewer(once, feed, cutoff, again[y].publishedAt);
    SubsetSize(newer, FeedItems(once, feed));
    assert newer == FeedItems(once, feed);
  }

  /** Then each row the feed had that is still young survives, ... */
  lemma SurvivorStays(once: map<nat, Item>, feed: nat, doc: seq<Draft>, later: int, hash: string -> string,
      keep: int, cutoff: int, i: nat)
    requires Fits(once, feed, keep) && NoPlace(once, feed, keep, cutoff, doc)
    requires i in once && once[i].feed == feed && Young(once, i, cutoff)
    ensures i in Poll(once, feed, doc, later, hash, keep, cutoff)
  {
    var again := Upsert(once, feed, doc, later, hash);
    UpsertKeeps(once, feed, doc, later, hash);
    var ahead := Ahead(again, FeedItems(again, feed), i);
    forall y | y in ahead ensures y in FeedItems(once, feed) - {i} {
      if y !in once {
        NothingOvertakes(once, feed, doc, later, hash, keep, cutoff, y);
      }
    }
    SubsetSize(ahead, FeedItems(once, feed) - {i});
    PruneByRank(again, feed, keep, cutoff, i);
  }

  /** ... and no newcomer does. */
  lemma NewcomerGoes(once: map<nat, Item>, feed: nat, doc: seq<Draft>, later: int, hash: string -> string,
      keep: int, cutoff: int, y: nat)
    requires Fits(once, feed, keep) && NoPlace(once, feed, keep, cutoff, doc)
    requires y in Upsert(once, feed, doc, later, hash) && y !in once
    ensures y !in Poll(once, feed, doc, later, hash, keep, cutoff)
  {
    var again := Upsert(once, feed, doc, later, hash);
    UpsertFeeds(once, feed, doc, later, hash);
    PruneByRank(again, feed, keep, cutoff, y);
    if again[y].publishedAt >= Unix(cutoff) {
      NothingOvertakes(once, feed, doc, later, hash, keep, cutoff, y);
      SubsetSize(FeedItems(once, feed), Ahead(again, FeedItems(again, feed), y));
    }
  }

  lemma NoPlaceKeeps(once: map<nat, Item>, feed: nat, doc: seq<Draft>, later: int, hash: string -> string, keep: int, cutoff: int)
    requires Fits(once, feed, keep) && NoPlace(once, feed, keep, cutoff, doc)
    ensures Poll(once, feed, doc, later, hash, keep, cutoff) == StillYoung(once, feed, cutoff)
  {
    var again := Upsert(once, feed, doc, later, hash);
    var twice, young := Poll(once, feed, doc, later, hash, keep, cutoff), StillYoung(once, feed, cutoff);
    UpsertKeeps(once, feed, doc, later, hash);
    forall i ensures i in twice <==> i in young {
      PruneByRank(again, feed, keep, cutoff, i);
      if i in once {
        if once[i].feed == feed && Young(once, i, cutoff) {
          SurvivorStays(once, feed, doc, later, hash, keep, cutoff, i);
        }
      } else if i in again {
        NewcomerGoes(once, feed, doc, later, hash, keep, cutoff, i);
      }
    }
    assert twice.Keys == young.Keys;
    forall i | i in twice ensures twice[i] == young[i] {
      PruneByRank(again, feed, keep, cutoff, i);
    }
  }

  /** A newcomer that did not make it had no place. */
  lemma RefusedHadNoPlace(once: map<nat, Item>, feed: nat, doc: seq<Draft>, later: int, hash: string -> string,
      keep: int, cutoff: int, p: nat)
    requires Poll(once, feed, doc, later, hash, keep, cutoff) == StillYoung(once, feed, cutoff)
    requires FirstAt(doc, p) && !Stored(once, feed, doc[p].key)
    ensures NoPlaceFor(once, feed, keep, cutoff, doc[p])
  {
    var again, kept := Upsert(once, feed, doc, later, hash), StillYoung(once, feed, cutoff);
    var y := AddedRow(once, feed, doc, later, hash, p);
    if Unix(doc[p].publishedAt) >= Unix(cutoff) {
      assert y !in kept;
      FullAfterPrune(again, feed, keep, cutoff, y);
      UpsertKeeps(once, feed, doc, later, hash);
      forall i | i in FeedItems(kept, feed) ensures i in StrictlyNewer(once, feed, cutoff, Unix(doc[p].publishedAt)) {
        PruneByRank(again, feed, keep, cutoff, i);
        PruneNewestFirst(again, feed, keep, cutoff, i, y);
      }
      SubsetSize(FeedItems(kept, feed), StrictlyNewer(once, feed, cutoff, Unix(doc[p].publishedAt)));
    }
  }

  /** Polling any document leaves exactly the rows the feed had that are still young, if and only if none of
      its entries that the feed does not have finds a place: each is too old, or stands, at the date this
      poll gives it, behind `keep` young rows that are strictly newer. */
  lemma PollKeepsIff(once: map<nat, Item>, feed: nat, doc: seq<Draft>, later: int, hash: string -> string, keep: int, cutoff: int)
    requires Fits(once, feed, keep)
    ensures Poll(once, feed, doc, later, hash, keep, cutoff) == StillYoung(once, feed, cutoff)
       <==> NoPlace(once, feed, keep, cutoff, doc)
  {
    if Poll(once, feed, doc, later, hash, keep, cutoff) == StillYoung(once, feed, cutoff) {
      forall p: nat | FirstAt(doc, p) && !Stored(once, feed, doc[p].key) ensures NoPlaceFor(once, feed, keep, cutoff, doc[p]) {
        RefusedHadNoPlace(once, feed, doc, later, hash, keep, cutoff, p);
      }
    }
    if NoPlace(once, feed, keep, cutoff, doc) {
      NoPlaceKeeps(once, feed, doc, later, hash, keep, cutoff);
    }
  }

  /** In particular after a poll, whatever document either poll gets. */
  lemma SecondPollIff(items: map<nat, Item>, feed: nat, doc: seq<Draft>, doc2: seq<Draft>, now: int, later: int,
      hash: string -> string, keep: int, cutoff: int, cutoff2: int)
    ensures var once := Poll(items, feed, doc, now, hash, keep, cutoff);
      Poll(once, feed, doc2, later, hash, keep, cutoff2) == StillYoung(once, feed, cutoff2)
      <==> NoPlace(once, feed, keep, cutoff2, doc2)
  {
    PollFits(Upsert(items, feed, doc, now, hash), feed, keep, cutoff);
    PollKeepsIff(Poll(items, feed, doc, now, hash, keep, cutoff), feed, doc2, later, hash, keep, cutoff2);
  }

  // ---- the same document, with the same dates

  /** After an upsert every entry of the document has a row with its key and date. */
  lemma DocumentRow(items: map<nat, Item>, feed: nat, doc: seq<Draft>, now: int, hash: string -> string, p: nat) returns (u: nat)
    requires DatesAgree(items, feed, doc) && FirstAt(doc, p)
    ensures var all := Upsert(items, feed, doc, now, hash);
      u in all && all[u].feed == feed && all[u].key == doc[p].key && all[u].publishedAt == Unix(doc[p].publishedAt)
  {
    var all := Upsert(items, feed, doc, now, hash);
    UpsertStores(items, feed, doc, now, hash, doc[p].key);
    assert doc[p] in doc;
    u :| u in all && all[u].feed == feed && all[u].key == doc[p].key;
    UpsertKeeps(items, feed, doc, now, hash);
    if u !in items {
      UpsertAdds(items, feed, doc, now, hash, u);
      var q: nat :| FirstAt(doc, q) && !Stored(items, feed, doc[q].key) && all[u] == RowOf(feed, doc[q], now, hash);
      assert q == p;
    }
  }

  /** When a young row was pruned for lack of room, exactly `keep` rows of the feed survived. */
  lemma FullAfterPrune(items: map<nat, Item>, feed: nat, keep: int, cutoff: int, u: nat)
    requires u in items && items[u].feed == feed && Young(items, u, cutoff) && u !in Prune(items, feed, keep, cutoff)
    ensures 0 <= keep && |FeedItems(Prune(items, feed, keep, cutoff), feed)| == keep
  {
    PruneIsTopOfYoung(items, feed, keep, cutoff);
    TopSize(items, YoungItems(items, feed, cutoff), keep);
    PruneByRank(items, feed, keep, cutoff, u);
    assert u in YoungItems(items, feed, cutoff);
    assert u !in FeedItems(Prune(items, feed, keep, cutoff), feed);
  }

  /** An entry that was pruned and ties with nothing finds no place: the rows that crowded it out still do. */
  lemma UntiedHasNoPlace(items: map<nat, Item>, feed: nat, doc: seq<Draft>, now: int, hash: string -> string,
      keep: int, cutoff: int, cutoff2: int, p: nat)
    requires DatesAgree(items, feed, doc) && cutoff <= cutoff2
    requires var once := Poll(items, feed, doc, now, hash, keep, cutoff);
      !Ties(once, feed, doc, cutoff2) && FirstAt(doc, p) && !Stored(once, feed, doc[p].key)
    ensures NoPlaceFor(Poll(items, feed, doc, now, hash, keep, cutoff), feed, keep, cutoff2, doc[p])
  {
    var all, once := Upsert(items, feed, doc, now, hash), Poll(items, feed, doc, now, hash, keep, cutoff);
    var at := Unix(doc[p].publishedAt);
    if at >= Unix(cutoff2) {
      assert Unix(cutoff) <= Unix(cutoff2);
      var u := DocumentRow(items, feed, doc, now, hash, p);
      PruneByRank(all, feed, keep, cutoff, u);
      FullAfterPrune(all, feed, keep, cutoff, u);
      forall i | i in FeedItems(once, feed) ensures i in StrictlyNewer(once, feed, cutoff2, at) {
        PruneByRank(all, feed, keep, cutoff, i);
        PruneNewestFirst(all, feed, keep, cutoff, i, u);
        assert !TiesWith(once, feed, cutoff2, doc[p], i);
      }
      SubsetSize(FeedItems(once, feed), StrictlyNewer(once, feed, cutoff2, at));
    }
  }

  /** An entry that ties with a young row is not behind it, so there is a place. */
  lemma TiedHasPlace(once: map<nat, Item>, feed: nat, doc: seq<Draft>, keep: int, cutoff: int)
    requires Fits(once, feed, keep) && Ties(once, feed, doc, cutoff)
    ensures !NoPlace(once, feed, keep, cutoff, doc)
  {
    var p: nat, i :| FirstAt(doc, p) && !Stored(once, feed, doc[p].key) && TiesWith(once, feed, cutoff, doc[p], i);
    var newer := StrictlyNewer(once, feed, cutoff, Unix(doc[p].publishedAt));
    SubsetSize(newer, FeedItems(once, feed) - {i});
    assert !NoPlaceFor(once, feed, keep, cutoff, doc[p]);
  }

  /** Polling the same document again, all entries dated as before and with a cutoff no earlier, leaves exactly
      the earlier survivors that are still young -- if and only if no entry that is no longer stored has the
      date of one of them: such an entry comes back under a larger row id and takes the other's place. */
  lemma RepollFixpoint(items: map<nat, Item>, feed: nat, doc: seq<Draft>, now: int, later: int,
      hash: string -> string, keep: int, cutoff: int, cutoff2: int)
    requires DatesAgree(items, feed, doc) && cutoff <= cutoff2
    ensures var once := Poll(items, feed, doc, now, hash, keep, cutoff);
      Poll(once, feed, doc, later, hash, keep, cutoff2) == StillYoung(once, feed, cutoff2)
      <==> !Ties(once, feed, doc, cutoff2)
  {
    var once := Poll(items, feed, doc, now, hash, keep, cutoff);
    SecondPollIff(items, feed, doc, doc, now, later, hash, keep, cutoff, cutoff2);
    PollFits(Upsert(items, feed, doc, now, hash), feed, keep, cutoff);
    if Ties(once, feed, doc, cutoff2) {
      TiedHasPlace(once, feed, doc, keep, cutoff2);
    } else {
      forall p: nat | FirstAt(doc, p) && !Stored(once, feed, doc[p].key) ensures NoPlaceFor(once, feed, keep, cutoff2, doc[p]) {
        UntiedHasNoPlace(items, feed, doc, now, hash, keep, cutoff, cutoff2, p);
      }
    }
  }

  /** An entry the feed does not have that is no older than a row that is still young changes the survivors. */
  lemma LaterEntryDisplaces(once: map<nat, Item>, feed: nat, doc: seq<Draft>, later: int, hash: string -> string,
      keep: int, cutoff: int, p: nat, i: nat)
    requires FirstAt(doc, p) && !Stored(once, feed, doc[p].key)
    requires i in once && once[i].feed == feed && Young(once, i, cutoff) && once[i].publishedAt <= Unix(doc[p].publishedAt)
    ensures Poll(once, feed, doc, later, hash, keep, cutoff) != StillYoung(once, feed, cutoff)
  {
    var again := Upsert(once, feed, doc, later, hash);
    var y := AddedRow(once, feed, doc, later, hash, p);
    UpsertKeeps(once, feed, doc, later, hash);
    if i in Poll(once, feed, doc, later, hash, keep, cutoff) && y !in Poll(once, feed, doc, later, hash, keep, cutoff) {
      PruneNewestFirst(again, feed, keep, cutoff, i, y);
      assert false;
    }
  }

  lemma TieDisplaces(once: map<nat, Item>, feed: nat, doc: seq<Draft>, later: int, hash: string -> string, keep: int, cutoff2: int)
    requires Ties(once, feed, doc, cutoff2)
    ensures Poll(once, feed, doc, later, hash, keep, cutoff2) != StillYoung(once, feed, cutoff2)
  {
    var p: nat, i :| FirstAt(doc, p) && !Stored(once, feed, doc[p].key) && TiesWith(once, feed, cutoff2, doc[p], i);
    LaterEntryDisplaces(once, feed, doc, later, hash, keep, cutoff2, p, i);
  }

  // ---- the same document, with other dates

  const DAY: int := 24 * 3600 * SECOND

  /** The date an entry is stored with: the time of the poll if it has none, or one more than a day ahead. */
  function DateOf(published: Option<int>, now: int): int {
    match published
    case Some(t) => if t > now + DAY then now else t
    case None => now
  }

  /** A later poll dates an entry as an earlier one did exactly if it has a date, and that was at most a day
      ahead of the earlier one. */
  lemma DateStaysIff(published: Option<int>, now: int, later: int)
    requires now < later
    ensures DateOf(published, now) == DateOf(published, later) <==> published.Some? && published.value <= now + 86_400_000_000_000
    ensures DateOf(published, now) == if published.Some? && published.value <= now + 86_400_000_000_000 then published.value else now
  {}

  /** The document as the poll at `now` reads it: `far` has a date far ahead, `near` one less than a day ahead. */
  function Reading(far: Draft, tf: int, near: Draft, tn: int, now: int): seq<Draft> {
    [far.(publishedAt := DateOf(Some(tf), now)), near.(publishedAt := DateOf(Some(tn), now))]
  }

  /** Two entries, room for one. The first poll keeps the near one, the other being pulled back to that poll's
      time. A poll after the near one's date pulls it back to a later time, and now it takes the place: no
      two dates tie, and the survivor is gone though it is still young. */
  lemma RedatedDisplaces(far: Draft, tf: int, near: Draft, tn: int, feed: nat, now: int, later: int,
      hash: string -> string, cutoff: int, cutoff2: int)
    requires far.key != near.key && later + DAY < tf
    requires Unix(now) < Unix(tn) < Unix(later) && tn <= now + DAY
    requires cutoff <= cutoff2 <= tn
    ensures var once := Poll(map[], feed, Reading(far, tf, near, tn, now), now, hash, 1, cutoff);
      var again := Reading(far, tf, near, tn, later);
      && Poll(once, feed, again, later, hash, 1, cutoff2) != StillYoung(once, feed, cutoff2)
      && !Ties(once, feed, again, cutoff2)
  {
    var doc, again := Reading(far, tf, near, tn, now), Reading(far, tf, near, tn, later);
    var once := Poll(map[], feed, doc, now, hash, 1, cutoff);
    var u := NearSurvives(far, tf, near, tn, feed, now, hash, cutoff);
    assert FirstAt(again, 0) && FirstAt(again, 1) && !Stored(once, feed, again[0].key);
    assert Stored(once, feed, again[1].key);
    assert Unix(cutoff2) <= Unix(tn);
    LaterEntryDisplaces(once, feed, again, later, hash, 1, cutoff2, 0, u);
  }

  lemma NearSurvives(far: Draft, tf: int, near: Draft, tn: int, feed: nat, now: int, hash: string -> string, cutoff: int)
      returns (u: nat)
    requires far.key != near.key && now + DAY < tf && Unix(now) < Unix(tn) && tn <= now + DAY && cutoff <= tn
    ensures var once := Poll(map[], feed, Reading(far, tf, near, tn, now), now, hash, 1, cutoff);
      && u in once && once[u].feed == feed && once[u].key == near.key && once[u].publishedAt == Unix(tn)
      && forall i | i in once :: i == u
  {
    var doc := Reading(far, tf, near, tn, now);
    var none: map<nat, Item> := map[];
    var all, once := Upsert(none, feed, doc, now, hash), Poll(none, feed, doc, now, hash, 1, cutoff);
    assert FirstAt(doc, 0) && FirstAt(doc, 1);
    u := AddedRow(none, feed, doc, now, hash, 1);
    UpsertUnique(none, feed, doc, now, hash);
    forall i | i in all && i != u ensures all[i].feed == feed && Newer(all, u, i) {
      UpsertAdds(none, feed, doc, now, hash, i);
      var p: nat :| FirstAt(doc, p) && !Stored(none, feed, doc[p].key) && all[i] == RowOf(feed, doc[p], now, hash);
      assert p == 0;
    }
    assert Unix(cutoff) <= Unix(tn);
    assert Ahead(all, FeedItems(all, feed), u) == {};
    PruneByRank(all, feed, 1, cutoff, u);
    forall i | i in all && i != u ensures i !in once {
      PruneByRank(all, feed, 1, cutoff, i);
      SubsetSize({u}, Ahead(all, FeedItems(all, feed), i));
    }
  }
}
