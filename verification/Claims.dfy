/** Claims without any timing assumption, retention of wanted feeds, and what a record schedules. */
module Claims {
  import opened Rows
  import opened Ranking
  import opened Retention
  import opened Integrity
  import opened Intervals
  import opened History
  import opened Protocol
  import opened Leases
  import opened Statements

  // ---- claim separation

  /** The step records a fetch of the feed. */
  ghost predicate RecordsFeed(s: State, step: Step, id: nat) {
    (step.NotModified? || step.Fail? || step.Finish?) && step.f < |s.live| && s.live[step.f].feed == id
  }

  /** The feed's row carries this lock. */
  predicate LockIs(s: State, id: nat, until: int) {
    id in s.t.states && s.t.states[id].lockedUntil == Some(until)
  }

  lemma LockLasts(s: State, step: Step, e: Env, id: nat, until: int)
    requires Enabled(s, step, e) && LockIs(s, id, until)
    requires !RecordsFeed(s, step, id) && !ClaimsFeed(step, id) && id in Apply(s, step, e).t.states
    ensures LockIs(Apply(s, step, e), id, until)
  {}

  lemma ClaimLocks(s: State, step: Step, e: Env, id: nat)
    requires Enabled(s, step, e) && ClaimsFeed(step, id)
    ensures id in s.t.states && Unlocked(s.t.states[id], ClaimedAt(step))
    ensures LockIs(Apply(s, step, e), id, LeaseEnd(ClaimedAt(step), e.c.lockFor))
  {}

  /** The step neither claims nor records the feed. */
  ghost predicate LeavesAlone(s: State, step: Step, id: nat) {
    !RecordsFeed(s, step, id) && !ClaimsFeed(step, id)
  }

  predicate HasRow(s: State, id: nat) { id in s.t.states }

  lemma {:induction false} LockLastsOver(states: seq<State>, steps: seq<Step>, e: Env, id: nat, i: nat, j: nat, until: int)
    requires Segment(states, steps, e) && i <= j <= |steps| && LockIs(states[i], id, until)
    requires forall k | i <= k < j :: LeavesAlone(states[k], steps[k], id)
    requires forall k | i <= k <= j :: HasRow(states[k], id)
    ensures LockIs(states[j], id, until)
  {
    if i < j {
      LockLastsOver(states, steps, e, id, i, j - 1, until);
      SegmentStep(states, steps, e, j - 1);
      assert LeavesAlone(states[j - 1], steps[j - 1], id) && HasRow(states[j], id);
      LockLasts(states[j - 1], steps[j - 1], e, id, until);
    }
  }

  /** With no timing assumption at all: between two successive claims of a feed that stays registered,
      either a fetch of it was recorded, or strictly more than `lockFor` passed between the clock readings
      of the two claims, although rows keep whole seconds only. */
  lemma ClaimSeparation(states: seq<State>, steps: seq<Step>, e: Env, id: nat, i: nat, j: nat)
    requires Segment(states, steps, e) && i < j < |steps|
    requires ClaimsFeed(steps[i], id) && ClaimsFeed(steps[j], id)
    requires forall k | i < k < j :: !ClaimsFeed(steps[k], id)
    requires forall k | i <= k <= j :: HasRow(states[k], id)
    ensures (exists k :: i < k < j && RecordsFeed(states[k], steps[k], id))
         || ClaimedAt(steps[j]) > ClaimedAt(steps[i]) + e.c.lockFor
  {
    if forall k | i < k < j :: !RecordsFeed(states[k], steps[k], id) {
      SegmentStep(states, steps, e, i);
      SegmentStep(states, steps, e, j);
      ClaimLocks(states[i], steps[i], e, id);
      forall k | i < k < j ensures LeavesAlone(states[k], steps[k], id) {}
      LockLastsOver(states, steps, e, id, i + 1, j, LeaseEnd(ClaimedAt(steps[i]), e.c.lockFor));
      ClaimLocks(states[j], steps[j], e, id);
    }
  }

  /** And the other way round: a claim locks for `lockFor` and no longer. As long as the feed keeps its row and is
      neither recorded nor claimed again, it can be claimed on demand at just the clock readings whose second
      lies after the one in which `lockFor` ran out, and is then free for the due query too. */
  lemma LockRunsOut(states: seq<State>, steps: seq<Step>, e: Env, id: nat, i: nat, j: nat, now: int)
    requires Segment(states, steps, e) && i < j <= |steps| && ClaimsFeed(steps[i], id)
    requires forall k | i < k < j :: LeavesAlone(states[k], steps[k], id)
    requires forall k | i <= k <= j :: HasRow(states[k], id)
    ensures Enabled(states[j], ClaimFeed(id, now), e) <==> now <= states[j].clock && Unix(ClaimedAt(steps[i]) + e.c.lockFor) < Unix(now)
    ensures id in states[j].t.states
    ensures id in EligibleIds(states[j].t.states, now)
       <==> states[j].t.states[id].nextPollAt <= Unix(now) && Unix(ClaimedAt(steps[i]) + e.c.lockFor) < Unix(now)
  {
    SegmentStep(states, steps, e, i);
    ClaimLocks(states[i], steps[i], e, id);
    assert HasRow(states[j], id);
    LockLastsOver(states, steps, e, id, i + 1, j, LeaseEnd(ClaimedAt(steps[i]), e.c.lockFor));
  }

  /** ClaimDue takes at most `limit` eligible feeds, and fewer only when it leaves none; none of those it
      takes is due later than an eligible one it leaves behind. */
  lemma ClaimDueTakesSoonest(s: State, now: int, limit: int, due: seq<Due>, e: Env)
    requires Enabled(s, ClaimDue(now, limit, due), e) && 0 <= limit
    ensures |due| <= limit && (|due| < limit ==> DueIds(due) == EligibleIds(s.t.states, now))
    ensures forall d, x | d in due && x in s.t.states && Eligible(s.t.states[x], now) && x !in DueIds(due) ::
      Eligible(s.t.states[d.id], now) && s.t.states[d.id].nextPollAt <= s.t.states[x].nextPollAt
  {
    DistinctSize(due);
    forall d | d in due ensures d.id in DueIds(due) {}
  }

  // ---- retention of wanted feeds

  /** The url is registered, and was last requested at `t` or later. */
  ghost predicate WantedSince(s: State, id: nat, url: string, t: int) {
    id in s.t.feeds && s.t.feeds[id].url == url && s.t.feeds[id].lastRequestedAt >= Unix(t)
  }

  ghost predicate Wanted(s: State, url: string, t: int) { exists id :: WantedSince(s, id, url, t) }

  /** A request that found its feed counts from the moment it arrived, iff the feed is still there when its
      second statement runs; otherwise that statement changes nothing. */
  lemma RequestCounts(s: State, k: nat, e: Env)
    requires Sound(s) && k < |s.calls| && s.calls[k].stage == Inserted(false)
    ensures var url, r := s.calls[k].url, Apply(s, FinishCall(k), e);
      && (Wanted(r, url, s.calls[k].now) <==> IdOf(s.t.feeds, url).Some?)
      && (if IdOf(s.t.feeds, url).Some? then WantedSince(r, IdOf(s.t.feeds, url).value, url, s.calls[k].now) else r.t == s.t)
  {
    var url, r := s.calls[k].url, Apply(s, FinishCall(k), e);
    if IdOf(s.t.feeds, url).Some? {
      assert WantedSince(r, IdOf(s.t.feeds, url).value, url, s.calls[k].now);
    }
  }

  lemma RegistrationCounts(s: State, k: nat, id: nat, e: Env)
    requires Enabled(s, InsertCall(k, id), e) && IdOf(s.t.feeds, s.calls[k].url).None?
    ensures WantedSince(Apply(s, InsertCall(k, id), e), id, s.calls[k].url, s.calls[k].now)
  {}

  lemma WantedStep(s: State, step: Step, e: Env, id: nat, url: string, t: int)
    requires Enabled(s, step, e) && WantedSince(s, id, url, t)
    requires step.EvictUnwanted? ==> step.now <= t + e.c.evictAfter
    ensures WantedSince(Apply(s, step, e), id, url, t)
  {
    match step
    case EvictUnwanted(now) => assert Unix(now - e.c.evictAfter) <= Unix(t);
    case _ =>
  }

  /** A feed requested at `t` survives every eviction whose clock reads at most `t + evictAfter`. */
  lemma {:induction false} WantedSurvives(states: seq<State>, steps: seq<Step>, e: Env, i: nat, j: nat, id: nat, url: string, t: int)
    requires Segment(states, steps, e) && i <= j <= |steps| && WantedSince(states[i], id, url, t)
    requires forall k | i <= k < j && steps[k].EvictUnwanted? :: steps[k].now <= t + e.c.evictAfter
    ensures WantedSince(states[j], id, url, t)
  {
    if i < j {
      WantedSurvives(states, steps, e, i, j - 1, id, url, t);
      SegmentStep(states, steps, e, j - 1);
      WantedStep(states[j - 1], steps[j - 1], e, id, url, t);
    }
  }

  /** The step is one of a live fetch of `x`, or a prune of `x`, as every stored document ends with. */
  ghost predicate WorksOn(s: State, step: Step, x: nat) {
    (OfFetch(step) && step.f < |s.live| && s.live[step.f].feed == x) || (step.PruneFeed? && step.id == x)
  }

  /** What a fetch still does after its feed was evicted changes no table; a non-empty document is an error. */
  lemma EvictedResultsInert(s: State, step: Step, e: Env, x: nat)
    requires s.t.Valid() && Enabled(s, step, e) && WorksOn(s, step, x) && x !in s.t.feeds
    ensures Apply(s, step, e).t == s.t
    ensures step.Store? ==> step.doc.drafts == []
  {
    if step.PruneFeed? {
      NothingToPrune(s.t, x, step.keep, step.cutoff);
    }
  }

  lemma NothingToPrune(t: Tables, x: nat, keep: int, cutoff: int)
    requires t.Valid() && x !in t.feeds
    ensures PruneItems(t, x, keep, cutoff) == t
  {
    assert Prune(t.items, x, keep, cutoff) == t.items;
  }

  lemma StaysOut(s: State, step: Step, e: Env, x: nat)
    requires Enabled(s, step, e) && x !in s.t.feeds && !(step.InsertCall? && step.id == x)
    ensures x !in Apply(s, step, e).t.feeds
  {}

  /** The row id goes to no other feed, and what is done for it changes nothing. */
  ghost predicate Inert(s: State, step: Step, next: State, x: nat) {
    x !in s.t.feeds && x !in next.t.feeds && (WorksOn(s, step, x) ==> next.t == s.t)
  }

  /** From its eviction on, and as long as its row id is not given to another feed, a feed stays out, and no
      step of a fetch of it, the prune after its record included, changes a table. */
  lemma {:induction false} EvictedStaysInert(states: seq<State>, steps: seq<Step>, e: Env, x: nat, n: nat)
    requires Segment(states, steps, e) && n <= |steps| && Sound(states[0]) && x !in states[0].t.feeds
    requires forall i | 0 <= i < n :: !(steps[i].InsertCall? && steps[i].id == x)
    ensures Sound(states[n]) && x !in states[n].t.feeds
    ensures forall i | 0 <= i < n :: Inert(states[i], steps[i], states[i + 1], x)
  {
    if n > 0 {
      EvictedStaysInert(states, steps, e, x, n - 1);
      SegmentStep(states, steps, e, n - 1);
      IntegrityStep(states[n - 1], steps[n - 1], e);
      StaysOut(states[n - 1], steps[n - 1], e, x);
      if WorksOn(states[n - 1], steps[n - 1], x) {
        EvictedResultsInert(states[n - 1], steps[n - 1], e, x);
      }
    }
  }

  /** While a fetch of the evicted feed is live, not reusing its id is what the lease protocol assumes. */
  lemma LiveFetchInert(states: seq<State>, steps: seq<Step>, e: Env, x: nat, n: nat)
    requires Segment(states, steps, e) && n <= |steps| && Sound(states[0]) && x !in states[0].t.feeds
    requires forall i | 0 <= i < n :: IsLive(states[i], x) && FreshIds(states[i], steps[i])
    ensures x !in states[n].t.feeds
    ensures forall i | 0 <= i < n :: Inert(states[i], steps[i], states[i + 1], x)
  {
    forall i | 0 <= i < n ensures !(steps[i].InsertCall? && steps[i].id == x) {
      assert IsLive(states[i], x) && FreshIds(states[i], steps[i]);
    }
    EvictedStaysInert(states, steps, e, x, n);
  }

  // ---- what rows keep over runs

  predicate OnceGood(s: State, id: nat) { id in s.t.states && s.t.states[id].lastOkAt.Some? }

  /** Once set, last_ok_at is never null again while the feed has its row. */
  lemma {:induction false} OnceGoodAlways(states: seq<State>, steps: seq<Step>, e: Env, id: nat, i: nat, j: nat)
    requires Segment(states, steps, e) && i <= j <= |steps| && OnceGood(states[i], id)
    requires forall k | i <= k <= j :: HasRow(states[k], id)
    ensures OnceGood(states[j], id)
  {
    if i < j {
      OnceGoodAlways(states, steps, e, id, i, j - 1);
      SegmentStep(states, steps, e, j - 1);
      assert HasRow(states[j], id);
      OnceGoodStep(states[j - 1], steps[j - 1], e, id);
    }
  }

  lemma OnceGoodStep(s: State, step: Step, e: Env, id: nat)
    requires Enabled(s, step, e) && OnceGood(s, id) && id in Apply(s, step, e).t.states
    ensures OnceGood(Apply(s, step, e), id)
  {}

  predicate PositiveIntervals(t: Tables) { forall id | id in t.feeds :: t.feeds[id].pollIntervalS > 0 }

  lemma PositiveStep(s: State, step: Step, e: Env)
    requires Enabled(s, step, e) && PositiveIntervals(s.t)
    ensures PositiveIntervals(Apply(s, step, e).t)
  {}

  /** Stored intervals are always positive: new feeds start with one, and records only ever put another there. */
  lemma {:induction false} PositiveAlways(states: seq<State>, steps: seq<Step>, e: Env, n: nat)
    requires Segment(states, steps, e) && n <= |steps| && PositiveIntervals(states[0].t)
    ensures PositiveIntervals(states[n].t)
  {
    if n > 0 {
      PositiveAlways(states, steps, e, n - 1);
      SegmentStep(states, steps, e, n - 1);
      PositiveStep(states[n - 1], steps[n - 1], e);
    }
  }

  /** An eviction takes exactly the feeds last requested more than `evictAfter` before its clock, in whole seconds,
      with their state rows and items; every other row of all three tables stays as it is. */
  lemma EvictUnwantedMeans(s: State, now: int, e: Env)
    requires s.t.Valid() && Enabled(s, EvictUnwanted(now), e)
    ensures var t, r := s.t, Apply(s, EvictUnwanted(now), e).t;
      && (forall id :: id in r.feeds <==> id in t.feeds && t.feeds[id].lastRequestedAt >= Unix(now - e.c.evictAfter))
      && (forall id :: id in r.states <==> id in t.states && t.feeds[id].lastRequestedAt >= Unix(now - e.c.evictAfter))
      && (forall i :: i in r.items <==> i in t.items && t.feeds[t.items[i].feed].lastRequestedAt >= Unix(now - e.c.evictAfter))
      && (forall id | id in r.feeds :: r.feeds[id] == t.feeds[id])
      && (forall id | id in r.states :: r.states[id] == t.states[id])
      && (forall i | i in r.items :: r.items[i] == t.items[i])
  {
    EvictMeans(s.t, now - e.c.evictAfter);
  }

  // ---- what a record schedules

  // Under the lease protocol the counters a fetch schedules with, taken from its claim, are those its record
  // leaves in the row, and hence those of the feed's history.

  ghost predicate ReadyToRecord(s: State, f: nat) {
    s.t.Valid() && LogFolds(s) && LeasesHeld(s) && f < |s.live| && s.live[f].feed in s.t.feeds
  }

  lemma RecordingFetch(s: State, f: nat)
    requires ReadyToRecord(s, f) && HasSnap(s.live[f].phase)
    ensures var id, p := s.live[f].feed, s.live[f].phase;
      && id in s.t.states && s.t.states[id] == p.snap && id in s.log && Folds(p.snap, s.log[id])
      && StoredInterval(p.row) == StoredInterval(s.t.feeds[id])
  {
    assert Leased(s, s.live[f]);
  }

  /** After a 304 the next poll is set by the stored interval and the quiet run, this poll included. */
  lemma NotModifiedSchedule(s: State, f: nat, status: int, e: Env)
    requires ReadyToRecord(s, f) && Enabled(s, NotModified(f, status), e)
    ensures var id, at, r := s.live[f].feed, s.live[f].phase.at, Apply(s, NotModified(f, status), e);
      && id in r.t.states && id in r.log
      && r.t.states[id].nextPollAt
           == Unix(at + NextIntervalOf(StoredInterval(s.t.feeds[id]), QuietRun(r.log[id]), e.c))
  {
    RecordingFetch(s, f);
    var id, p := s.live[f].feed, s.live[f].phase;
    AfterGood(p.snap, s.log[id], NotModifiedRecord(p.row, p.snap, p.at, status, e.c));
  }

  /** After a document it is set by the document's ttl and the quiet run, which new items have just ended. */
  lemma DocumentSchedule(s: State, f: nat, e: Env)
    requires ReadyToRecord(s, f) && Enabled(s, Finish(f), e)
    ensures var id, p, r := s.live[f].feed, s.live[f].phase, Apply(s, Finish(f), e);
      && id in r.t.states && id in r.log
      && r.t.states[id].nextPollAt == Unix(p.at + NextIntervalOf(p.doc.ttl, QuietRun(r.log[id]), e.c))
  {
    RecordingFetch(s, f);
    var id, p := s.live[f].feed, s.live[f].phase;
    AfterGood(p.snap, s.log[id], DocumentRecord(p.snap, p.at, p.doc, p.newItems, e.c));
  }

  /** After a failure it is set by the stored interval and the length of the run of failures, this one included. */
  lemma FailureSchedule(s: State, f: nat, status: int, retryAfter: int, msg: string, rnd: real, e: Env)
    requires ReadyToRecord(s, f) && Enabled(s, Fail(f, status, retryAfter, msg, rnd), e)
    ensures var id, at, r := s.live[f].feed, s.live[f].phase.at, Apply(s, Fail(f, status, retryAfter, msg, rnd), e);
      && id in r.t.states && id in r.log
      && r.t.states[id].nextPollAt
           == Unix(at + BackoffOf(StoredInterval(s.t.feeds[id]), TrailingErrors(r.log[id]), retryAfter, status, e.c, rnd))
      && r.log[id] == s.log[id] + [Bad(status, at)]
  {
    RecordingFetch(s, f);
    FailureRecorded(s, f, status, retryAfter, msg, rnd, e);
    var id, p := s.live[f].feed, s.live[f].phase;
    AfterBad(s.log[id], status, p.at);
  }

  lemma FailureRecorded(s: State, f: nat, status: int, retryAfter: int, msg: string, rnd: real, e: Env)
    requires Enabled(s, Fail(f, status, retryAfter, msg, rnd), e) && s.live[f].feed in s.t.states && s.live[f].feed in s.log
    ensures var id, p, r := s.live[f].feed, s.live[f].phase, Apply(s, Fail(f, status, retryAfter, msg, rnd), e);
      && id in r.t.states && id in r.log && r.log[id] == s.log[id] + [Bad(status, p.at)]
      && r.t.states[id].nextPollAt == Unix(RetryAt(p.row, p.snap, p.at, status, retryAfter, rnd, e.c))
  {}

  /** The schedule of a failure, its Retry-After included, binds ClaimDue alone: once it is recorded, the feed can
      be claimed on demand at once. */
  lemma FailureReleases(s: State, f: nat, status: int, retryAfter: int, msg: string, rnd: real, e: Env)
    requires Enabled(s, Fail(f, status, retryAfter, msg, rnd), e) && s.live[f].feed in s.t.states
    ensures var id, r := s.live[f].feed, Apply(s, Fail(f, status, retryAfter, msg, rnd), e);
      && Enabled(r, ClaimFeed(id, r.clock), e)
      && (id in EligibleIds(r.t.states, r.clock)
          <==> Unix(RetryAt(s.live[f].phase.row, s.live[f].phase.snap, s.live[f].phase.at, status, retryAfter, rnd, e.c)) <= Unix(r.clock))
  {}

  lemma AfterGood(st: FetchState, h: seq<Event>, r: FetchOK)
    requires Folds(st, h)
    ensures QuietRun(h + [Good(r.etag, r.fetchedAt, r.newItems)]) == if r.newItems > 0 then 0 else st.quietPolls + 1
  {
    assert (h + [Good(r.etag, r.fetchedAt, r.newItems)])[..|h|] == h;
  }

  lemma AfterBad(h: seq<Event>, status: int, at: int)
    ensures TrailingErrors(h + [Bad(status, at)]) == TrailingErrors(h) + 1
  {
    assert (h + [Bad(status, at)])[..|h|] == h;
  }

  /** A 404 or 410 that completes a run of `goneAfterFailures` of them puts the next poll exactly a day off. */
  lemma GoneForADay(s: State, f: nat, status: int, retryAfter: int, msg: string, rnd: real, e: Env)
    requires ReadyToRecord(s, f) && Enabled(s, Fail(f, status, retryAfter, msg, rnd), e)
    requires status == 404 || status == 410
    requires s.live[f].feed in s.log && 1 <= e.c.goneAfterFailures <= |s.log[s.live[f].feed]| + 1
    requires var h := s.log[s.live[f].feed];
      forall i | |h| - (e.c.goneAfterFailures - 1) <= i < |h| :: h[i].Bad? && (h[i].status == 404 || h[i].status == 410)
    ensures var id, r := s.live[f].feed, Apply(s, Fail(f, status, retryAfter, msg, rnd), e);
      id in r.t.states && r.t.states[id].nextPollAt == Unix(s.live[f].phase.at + 24 * HOUR)
  {
    FailureSchedule(s, f, status, retryAfter, msg, rnd, e);
    PinnedIff(s.log[s.live[f].feed] + [Bad(status, s.live[f].phase.at)], status, e.c);
  }

  // ---- the assumptions are needed

  /** Two live fetches of one url, under the lease protocol: one of them works on a feed that was evicted. */
  lemma SameUrlMeansEvicted(s: State, i: nat, j: nat)
    requires s.t.Valid() && LeasesHeld(s) && i < j < |s.live|
    requires !s.live[i].phase.Locked? && !s.live[j].phase.Locked?
    requires s.live[i].phase.row.url == s.live[j].phase.row.url
    ensures s.live[i].feed !in s.t.feeds || s.live[j].feed !in s.t.feeds
  {
    assert Leased(s, s.live[i]) && Leased(s, s.live[j]);
  }

  /** A live fetch's feed can be claimed once more exactly from the second after its lock on, and then the two
      are live together. */
  lemma ReclaimedIff(s: State, f: nat, now: int, e: Env)
    requires LeasesHeld(s) && f < |s.live| && s.live[f].feed in s.t.feeds
    ensures Enabled(s, ClaimFeed(s.live[f].feed, now), e) <==> now <= s.clock && s.live[f].until < Unix(now)
    ensures Enabled(s, ClaimFeed(s.live[f].feed, now), e)
       ==> !Exclusive(Apply(s, ClaimFeed(s.live[f].feed, now), e))
  {
    assert Leased(s, s.live[f]);
    if Enabled(s, ClaimFeed(s.live[f].feed, now), e) {
      ClaimDoubles(s, ClaimFeed(s.live[f].feed, now), e);
    }
  }

  /** A fetch that outlives its lock can be joined by another: one second past the lock, a second claim of the
      same feed goes through, and the two are live together. */
  lemma OverstayedIsDoubled(s: State, f: nat, e: Env)
    requires LeasesHeld(s) && f < |s.live| && s.live[f].feed in s.t.feeds && Unix(s.clock) <= s.live[f].until
    ensures var late := Tick((s.live[f].until + 1) * SECOND);
      && Enabled(s, late, e)
      && var r := Apply(s, late, e);
      var again := ClaimFeed(s.live[f].feed, r.clock);
      Enabled(r, again, e) && !Exclusive(Apply(r, again, e)) && !Timely(r)
  {
    var r := Apply(s, Tick((s.live[f].until + 1) * SECOND), e);
    assert Unix(r.clock) == s.live[f].until + 1;
    FetchesStay(s, r);
    ReclaimedIff(r, f, r.clock, e);
  }

  /** A registration of `url` that nobody gets in the way of, under the row id `x`. */
  ghost predicate RegistersAs(s: State, url: string, x: nat, r: State, e: Env) {
    var k, arrived := |s.calls|, Apply(s, Arrive(url), e);
    && Enabled(arrived, InsertCall(k, x), e)
    && var inserted := Apply(arrived, InsertCall(k, x), e);
    && Enabled(inserted, FinishCall(k), e)
    && r == Apply(inserted, FinishCall(k), e)
  }

  lemma RegisteredAs(s: State, url: string, x: nat, e: Env) returns (r: State)
    requires s.t.Valid() && x !in s.t.feeds && IdOf(s.t.feeds, url).None?
    ensures RegistersAs(s, url, x, r, e)
    ensures r.live == s.live && r.clock == s.clock && x in r.t.states && r.t.states[x] == NewState(s.clock)
  {
    var k, arrived := |s.calls|, Apply(s, Arrive(url), e);
    assert arrived.calls[k] == Call(url, s.clock, Arrived);
    var inserted := Apply(arrived, InsertCall(k, x), e);
    assert inserted.calls[k] == Call(url, s.clock, Inserted(true));
    assert x in inserted.t.feeds && inserted.t.feeds[x].url == url;
    assert IdOf(inserted.t.feeds, url) == Some(x);
    r := Apply(inserted, FinishCall(k), e);
  }

  /** The row id of an evicted feed that is given to another while a fetch of the first is live: the new feed
      can be claimed at once, and two fetches of one feed are live, each of them within its own lock. */
  lemma ReusedIdIsDoubled(s: State, f: nat, url: string, e: Env) returns (r: State)
    requires Sound(s) && Timely(s) && f < |s.live| && s.live[f].feed !in s.t.feeds
    requires IdOf(s.t.feeds, url).None? && 0 <= e.c.lockFor
    ensures RegistersAs(s, url, s.live[f].feed, r, e)
    ensures var again := ClaimFeed(s.live[f].feed, r.clock);
      Enabled(r, again, e) && !Exclusive(Apply(r, again, e)) && Timely(Apply(r, again, e))
  {
    r := RegisteredAs(s, url, s.live[f].feed, e);
    var again := ClaimFeed(s.live[f].feed, r.clock);
    assert ClaimsFeed(again, r.live[f].feed);
    ClaimDoubles(r, again, e);
    var q := Apply(r, again, e);
    assert Unix(r.clock) <= LeaseEnd(r.clock, e.c.lockFor);
    forall i | 0 <= i < |q.live| ensures Unix(q.clock) <= q.live[i].until {
      if i < |s.live| {
        assert q.live[i] == s.live[i];
      }
    }
  }
}
