/** What the lease table guarantees over every run. */
module Leases {
  import opened Rows
  import opened Retention
  import opened Integrity
  import opened Intervals
  import opened History
  import opened Protocol

  // ---- rows are folds of their histories

  lemma LogStep(s: State, step: Step, e: Env)
    requires LogFolds(s) && Enabled(s, step, e)
    ensures LogFolds(Apply(s, step, e))
  {
    match step
    case NotModified(_, _) => LogRecord(s, step, e);
    case Finish(_) => LogRecord(s, step, e);
    case Fail(_, _, _, _, _) => LogRecord(s, step, e);
    case FinishCall(k) => LogFinishCall(s, k);
    case ClaimDue(now, limit, due) => NoRecord(s, Apply(s, step, e));
    case ClaimFeed(id, now) => NoRecord(s, Apply(s, step, e));
    case EvictUnwanted(now) => LogEvict(s, now, e);
    case _ => LogUntouched(s, step, e);
  }

  lemma LogRecord(s: State, step: Step, e: Env)
    requires LogFolds(s) && Enabled(s, step, e) && (step.NotModified? || step.Finish? || step.Fail?)
    ensures LogFolds(Apply(s, step, e))
  {
    var r, p := Apply(s, step, e), s.live[step.f].phase;
    match step
    case NotModified(f, status) => GoodStep(s, r, f, NotModifiedRecord(p.row, p.snap, p.at, status, e.c));
    case Finish(f) => GoodStep(s, r, f, DocumentRecord(p.snap, p.at, p.doc, p.newItems, e.c));
    case Fail(f, status, retryAfter, msg, rnd) =>
      BadStep(s, r, s.live[f].feed, status, msg, p.at, RetryAt(p.row, p.snap, p.at, status, retryAfter, rnd, e.c));
  }

  lemma LogFinishCall(s: State, k: nat)
    requires LogFolds(s) && k < |s.calls| && s.calls[k].stage.Inserted?
    ensures LogFolds(FinishedCall(s, k))
  {
    NoRecord(s, FinishedCall(s, k));
  }

  lemma LogEvict(s: State, now: int, e: Env)
    requires LogFolds(s) && Enabled(s, EvictUnwanted(now), e)
    ensures LogFolds(Apply(s, EvictUnwanted(now), e))
  {
    NoRecord(s, Apply(s, EvictUnwanted(now), e));
  }

  lemma LogUntouched(s: State, step: Step, e: Env)
    requires LogFolds(s) && Enabled(s, step, e)
    requires step.Tick? || step.Arrive? || step.InsertCall? || step.AbortCall? || step.ReadRow? || step.ReadState? || step.Start?
          || step.Store? || step.Abandon? || step.PruneFeed?
    ensures LogFolds(Apply(s, step, e))
  {
    assert Apply(s, step, e).t.states == s.t.states && Apply(s, step, e).log == s.log;
  }

  predicate SameCounters(a: FetchState, b: FetchState) {
    a.failCount == b.failCount && a.quietPolls == b.quietPolls && a.etag == b.etag && a.lastOkAt == b.lastOkAt
  }

  /** Rows that are not recorded keep their counters, new ones start with none. */
  lemma NoRecord(s: State, r: State)
    requires LogFolds(s) && r.log.Keys == r.t.states.Keys
    requires forall id | id in r.log ::
      || (id in s.log && r.log[id] == s.log[id] && SameCounters(s.t.states[id], r.t.states[id]))
      || (r.log[id] == [] && SameCounters(NewState(0), r.t.states[id]))
    ensures LogFolds(r)
  {}

  lemma BadStep(s: State, r: State, id: nat, status: int, msg: string, at: int, next: int)
    requires LogFolds(s)
    requires r.t.states == RecordError(s.t, id, status, msg, at, next).states
    requires r.log == Logged(s.log, id, Bad(status, at))
    ensures LogFolds(r)
  {
    if id in s.log {
      var h := s.log[id];
      assert (h + [Bad(status, at)])[..|h|] == h;
    }
  }

  lemma GoodStep(s: State, r: State, f: nat, ok: FetchOK)
    requires LogFolds(s) && f < |s.live|
    requires r.t.states == RecordOK(s.t, s.live[f].feed, ok).states
    requires r.log == Logged(s.log, s.live[f].feed, Good(ok.etag, ok.fetchedAt, ok.newItems))
    ensures LogFolds(r)
  {
    var id := s.live[f].feed;
    if id in s.log {
      var h := s.log[id];
      assert (h + [Good(ok.etag, ok.fetchedAt, ok.newItems)])[..|h|] == h;
    }
  }

  /** In every run, at every moment, each row equals the fold of what was recorded for its feed. */
  lemma {:induction false} RowsFoldHistory(states: seq<State>, steps: seq<Step>, e: Env, n: nat)
    requires Run(states, steps, e) && n <= |steps|
    ensures LogFolds(states[n])
  {
    if n > 0 {
      RowsFoldHistory(states, steps, e, n - 1);
      SegmentStep(states, steps, e, n - 1);
      LogStep(states[n - 1], steps[n - 1], e);
    }
  }

  // ---- integrity

  /** A call has created the feed and not yet given it a state row. */
  ghost predicate BeingCreated(s: State, id: nat)
    requires id in s.t.feeds
  {
    exists k :: 0 <= k < |s.calls| && s.calls[k].stage == Inserted(true) && s.calls[k].url == s.t.feeds[id].url
  }

  ghost predicate Sound(s: State) {
    && s.t.Valid()
    && s.orphans <= s.t.feeds.Keys - s.t.states.Keys
    && (forall id | id in s.t.feeds && id !in s.t.states :: id in s.orphans || BeingCreated(s, id))
  }

  lemma IntegrityStep(s: State, step: Step, e: Env)
    requires Sound(s) && Enabled(s, step, e)
    ensures Sound(Apply(s, step, e))
  {
    match step
    case Arrive(url) => CallsGrow(s, Apply(s, step, e));
    case InsertCall(k, id) => InsertCallSound(s, k, id, e);
    case FinishCall(k) => FinishCallSound(s, k);
    case AbortCall(k) => AbortCallSound(s, k);
    case NotModified(_, _) => IntegrityRecord(s, step, e);
    case Finish(_) => IntegrityRecord(s, step, e);
    case Fail(_, _, _, _, _) => IntegrityRecord(s, step, e);
    case ClaimDue(_, _, _) => IntegrityStatement(s, step, e);
    case ClaimFeed(_, _) => IntegrityStatement(s, step, e);
    case Store(_, _) => IntegrityStatement(s, step, e);
    case PruneFeed(_, _, _) => IntegrityStatement(s, step, e);
    case EvictUnwanted(_) => IntegrityStatement(s, step, e);
    case _ => CallsGrow(s, Apply(s, step, e));
  }

  lemma IntegrityStatement(s: State, step: Step, e: Env)
    requires Sound(s) && Enabled(s, step, e)
    requires step.ClaimDue? || step.ClaimFeed? || step.Store? || step.PruneFeed? || step.EvictUnwanted?
    ensures Sound(Apply(s, step, e))
  {
    match step
    case ClaimDue(now, limit, due) => LockValid(s.t, DueIds(due), LeaseEnd(now, e.c.lockFor));
    case ClaimFeed(id, now) => LockValid(s.t, {id}, LeaseEnd(now, e.c.lockFor));
    case Store(f, doc) => UpsertItemsValid(s.t, s.live[f].feed, doc.drafts, s.live[f].phase.at, e.hash);
    case PruneFeed(id, keep, cutoff) => PruneItemsValid(s.t, id, keep, cutoff);
    case EvictUnwanted(now) => EvictValid(s.t, now - e.c.evictAfter);
    SameFeeds(s, Apply(s, step, e));
  }

  lemma IntegrityRecord(s: State, step: Step, e: Env)
    requires Sound(s) && Enabled(s, step, e) && (step.NotModified? || step.Finish? || step.Fail?)
    ensures Sound(Apply(s, step, e))
  {
    var r, p := Apply(s, step, e), s.live[step.f].phase;
    match step
    case NotModified(f, status) =>
      RecordOKValid(s.t, s.live[f].feed, NotModifiedRecord(p.row, p.snap, p.at, status, e.c));
      SameFeeds(s, r);
    case Finish(f) =>
      RecordOKValid(s.t, s.live[f].feed, DocumentRecord(p.snap, p.at, p.doc, p.newItems, e.c));
      SameFeeds(s, r);
    case Fail(f, status, retryAfter, msg, rnd) =>
      RecordErrorValid(s.t, s.live[f].feed, status, msg, p.at, RetryAt(p.row, p.snap, p.at, status, retryAfter, rnd, e.c));
      SameFeeds(s, r);
  }

  /** The feeds that lack a state row are among those that lacked one, and the calls are the same. */
  lemma SameFeeds(s: State, r: State)
    requires Sound(s) && r.t.Valid() && r.calls == s.calls
    requires forall id | id in r.t.feeds :: id in s.t.feeds && r.t.feeds[id].url == s.t.feeds[id].url
    requires forall id | id in r.t.feeds :: id in r.t.states <==> id in s.t.states
    requires r.orphans == s.orphans * r.t.feeds.Keys
    ensures Sound(r)
  {
    forall id | id in r.t.feeds && id !in r.t.states ensures id in r.orphans || BeingCreated(r, id) {
      if id !in s.orphans {
        var k :| 0 <= k < |s.calls| && s.calls[k].stage == Inserted(true) && s.calls[k].url == s.t.feeds[id].url;
        assert r.calls[k].url == r.t.feeds[id].url;
      }
    }
  }

  lemma CallsGrow(s: State, r: State)
    requires Sound(s) && r.t == s.t && r.orphans == s.orphans
    requires |s.calls| <= |r.calls| && forall k | 0 <= k < |s.calls| :: r.calls[k] == s.calls[k]
    ensures Sound(r)
  {
    forall id | id in r.t.feeds && id !in r.t.states ensures id in r.orphans || BeingCreated(r, id) {
      if id !in s.orphans {
        var k :| 0 <= k < |s.calls| && s.calls[k].stage == Inserted(true) && s.calls[k].url == s.t.feeds[id].url;
        assert r.calls[k].url == r.t.feeds[id].url;
      }
    }
  }

  lemma InsertCallSound(s: State, k: nat, id: nat, e: Env)
    requires Sound(s) && Enabled(s, InsertCall(k, id), e)
    ensures Sound(Apply(s, InsertCall(k, id), e))
  {
    var r := Apply(s, InsertCall(k, id), e);
    var call := s.calls[k];
    InsertFeedValid(s.t, call.url, call.now, id);
    forall x | x in r.t.feeds && x !in r.t.states ensures x in r.orphans || BeingCreated(r, x) {
      if x !in s.t.feeds {
        assert r.calls[k].stage == Inserted(true) && r.calls[k].url == r.t.feeds[x].url;
      } else if x !in s.orphans {
        var j :| 0 <= j < |s.calls| && s.calls[j].stage == Inserted(true) && s.calls[j].url == s.t.feeds[x].url;
        assert j != k && r.calls[j] == s.calls[j] && r.calls[j].url == r.t.feeds[x].url;
      }
    }
  }

  /** Where a call that is not the `k`-th ends up when the `k`-th leaves. */
  lemma StillThere(calls: seq<Call>, k: nat, j: nat) returns (i: nat)
    requires k < |calls| && j < |calls| && j != k
    ensures i < |Without1(calls, k)| && Without1(calls, k)[i] == calls[j]
  {
    i := if j < k then j else j - 1;
  }

  lemma FinishCallSound(s: State, k: nat)
    requires Sound(s) && k < |s.calls| && s.calls[k].stage.Inserted?
    ensures Sound(FinishedCall(s, k))
  {
    var r := FinishedCall(s, k);
    var call := s.calls[k];
    InsertStateValid(s.t, call.url, call.now);
    TouchFeedValid(s.t, call.url, call.now);
    forall x | x in r.t.feeds && x !in r.t.states ensures x in r.orphans || BeingCreated(r, x) {
      assert x in s.t.feeds && x !in s.t.states && r.t.feeds[x].url == s.t.feeds[x].url;
      if x !in r.orphans {
        var j :| 0 <= j < |s.calls| && s.calls[j].stage == Inserted(true) && s.calls[j].url == s.t.feeds[x].url;
        if j != k {
          var i := StillThere(s.calls, k, j);
          assert r.calls[i].url == r.t.feeds[x].url;
        }
      }
    }
  }

  lemma AbortCallSound(s: State, k: nat)
    requires Sound(s) && k < |s.calls|
    ensures Sound(AbortedCall(s, k))
  {
    var r := AbortedCall(s, k);
    var call := s.calls[k];
    forall x | x in r.t.feeds && x !in r.t.states ensures x in r.orphans || BeingCreated(r, x) {
      if x !in r.orphans {
        var j :| 0 <= j < |s.calls| && s.calls[j].stage == Inserted(true) && s.calls[j].url == s.t.feeds[x].url;
        if j != k {
          var i := StillThere(s.calls, k, j);
          assert r.calls[i].url == r.t.feeds[x].url;
        }
      }
    }
  }

  /** In every run the schema's constraints hold, and a feed lacks a state row only while the call that
      created it is between its two statements, or if such a call broke off there. */
  lemma {:induction false} IntegrityAlways(states: seq<State>, steps: seq<Step>, e: Env, n: nat)
    requires Run(states, steps, e) && n <= |steps|
    ensures Sound(states[n])
  {
    if n > 0 {
      IntegrityAlways(states, steps, e, n - 1);
      SegmentStep(states, steps, e, n - 1);
      IntegrityStep(states[n - 1], steps[n - 1], e);
    }
  }

  /** No call is about to give the feed a state row. */
  ghost predicate Forgotten(s: State, id: nat) {
    id in s.t.feeds && id !in s.t.states && !BeingCreated(s, id)
  }

  /** A creating call that breaks off between its two statements, with no other call creating the same url,
      leaves a registered feed that nothing is going to poll. */
  lemma AbortForgets(s: State, k: nat, e: Env, id: nat)
    requires Sound(s) && k < |s.calls| && s.calls[k].stage == Inserted(true)
    requires id in s.t.feeds && id !in s.t.states && s.t.feeds[id].url == s.calls[k].url
    requires forall j | 0 <= j < |s.calls| && s.calls[j].stage == Inserted(true) && s.calls[j].url == s.calls[k].url :: j == k
    ensures Forgotten(Apply(s, AbortCall(k), e), id) && id in Apply(s, AbortCall(k), e).orphans
  {
    assert IdOf(s.t.feeds, s.calls[k].url) == Some(id);
  }

  /** The call is the only one that has created the feed and not yet given it a state row. */
  ghost predicate OnlyCreator(s: State, k: nat, id: nat) {
    && k < |s.calls| && s.calls[k].stage == Inserted(true)
    && id in s.t.feeds && id !in s.t.states && s.t.feeds[id].url == s.calls[k].url
    && forall j | 0 <= j < |s.calls| && s.calls[j].stage == Inserted(true) && s.calls[j].url == s.calls[k].url :: j == k
  }

  /** There is no other way to be forgotten: a step does it iff it breaks off the only call that created the
      feed, between its two statements. */
  lemma ForgottenIff(s: State, step: Step, e: Env, id: nat)
    requires Sound(s) && Enabled(s, step, e) && !Forgotten(s, id)
    ensures Forgotten(Apply(s, step, e), id) <==> step.AbortCall? && OnlyCreator(s, step.k, id)
  {
    if step.AbortCall? && OnlyCreator(s, step.k, id) {
      AbortForgets(s, step.k, e, id);
      return;
    }
    if id !in Apply(s, step, e).t.feeds || id in Apply(s, step, e).t.states {
      return;
    }
    match step
    case InsertCall(k, n) => NotForgottenByInsert(s, k, n, e, id);
    case FinishCall(k) => NotForgottenByFinish(s, k, id);
    case AbortCall(k) => NotForgottenByAbort(s, k, id);
    case _ => NotForgottenByOthers(s, step, e, id);
  }

  lemma NotForgottenByInsert(s: State, k: nat, n: nat, e: Env, id: nat)
    requires Sound(s) && Enabled(s, InsertCall(k, n), e) && !Forgotten(s, id)
    ensures !Forgotten(Apply(s, InsertCall(k, n), e), id)
  {
    var r := Apply(s, InsertCall(k, n), e);
    if id in s.t.feeds && id !in s.t.states {
      var j :| 0 <= j < |s.calls| && s.calls[j].stage == Inserted(true) && s.calls[j].url == s.t.feeds[id].url;
      assert r.calls[j] == s.calls[j] && r.calls[j].url == r.t.feeds[id].url;
    } else if id in r.t.feeds && id !in r.t.states {
      assert r.calls[k].stage == Inserted(true) && r.calls[k].url == r.t.feeds[id].url;
    }
  }

  lemma NotForgottenByFinish(s: State, k: nat, id: nat)
    requires Sound(s) && k < |s.calls| && s.calls[k].stage.Inserted? && !Forgotten(s, id)
    requires id in FinishedCall(s, k).t.feeds && id !in FinishedCall(s, k).t.states
    ensures !Forgotten(FinishedCall(s, k), id)
  {
    var r := FinishedCall(s, k);
    assert id in s.t.feeds && id !in s.t.states && r.t.feeds[id].url == s.t.feeds[id].url;
    var j :| 0 <= j < |s.calls| && s.calls[j].stage == Inserted(true) && s.calls[j].url == s.t.feeds[id].url;
    assert j != k;
    var i := StillThere(s.calls, k, j);
    assert r.calls[i].url == r.t.feeds[id].url;
  }

  lemma NotForgottenByAbort(s: State, k: nat, id: nat)
    requires Sound(s) && k < |s.calls| && !OnlyCreator(s, k, id)
    requires id in s.t.feeds && id !in s.t.states && BeingCreated(s, id)
    ensures !Forgotten(AbortedCall(s, k), id)
  {
    var r := AbortedCall(s, k);
    var j :| 0 <= j < |s.calls| && j != k && s.calls[j].stage == Inserted(true) && s.calls[j].url == s.t.feeds[id].url;
    var i := StillThere(s.calls, k, j);
    assert r.calls[i].url == r.t.feeds[id].url;
  }

  lemma NotForgottenByOthers(s: State, step: Step, e: Env, id: nat)
    requires Enabled(s, step, e) && id in Apply(s, step, e).t.feeds && id !in Apply(s, step, e).t.states && !Forgotten(s, id)
    requires !step.InsertCall? && !step.FinishCall? && !step.AbortCall?
    ensures !Forgotten(Apply(s, step, e), id)
  {
    var r := Apply(s, step, e);
    FeedsAndRows(s, step, e, id);
    var j :| 0 <= j < |s.calls| && s.calls[j].stage == Inserted(true) && s.calls[j].url == s.t.feeds[id].url;
    assert r.calls[j] == s.calls[j] && r.calls[j].url == r.t.feeds[id].url;
  }

  /** A feed that is there without a state row was so before, and the calls in progress still are. */
  lemma FeedsAndRows(s: State, step: Step, e: Env, id: nat)
    requires Enabled(s, step, e) && id in Apply(s, step, e).t.feeds && id !in Apply(s, step, e).t.states
    requires !step.InsertCall? && !step.FinishCall? && !step.AbortCall?
    ensures var r := Apply(s, step, e);
      id in s.t.feeds && id !in s.t.states && r.t.feeds[id].url == s.t.feeds[id].url && s.calls <= r.calls
  {}

  lemma ForgottenStep(s: State, step: Step, e: Env, id: nat)
    requires Sound(s) && Enabled(s, step, e) && Forgotten(s, id)
    requires id in Apply(s, step, e).t.feeds
    ensures Forgotten(Apply(s, step, e), id)
  {
    match step
    case InsertCall(k, n) => ForgottenByInsert(s, k, n, e, id);
    case FinishCall(k) => ForgottenByFinish(s, k, id);
    case AbortCall(k) => ForgottenByAbort(s, k, id);
    case Arrive(_) =>
    case _ => ForgottenByOthers(s, step, e, id);
  }

  lemma ForgottenByOthers(s: State, step: Step, e: Env, id: nat)
    requires Sound(s) && Enabled(s, step, e) && Forgotten(s, id)
    requires !step.InsertCall? && !step.FinishCall? && !step.AbortCall? && !step.Arrive?
    requires id in Apply(s, step, e).t.feeds
    ensures Forgotten(Apply(s, step, e), id)
  {
    RowsGained(s, step, e, id);
    UrlsStay(s, step, e, id);
  }

  /** Only a registration gives a feed its state row, or changes the calls in progress. */
  lemma RowsGained(s: State, step: Step, e: Env, id: nat)
    requires Enabled(s, step, e) && id !in s.t.states
    requires !step.InsertCall? && !step.FinishCall? && !step.AbortCall? && !step.Arrive?
    ensures id !in Apply(s, step, e).t.states && Apply(s, step, e).calls == s.calls
  {}

  lemma UrlsStay(s: State, step: Step, e: Env, id: nat)
    requires Enabled(s, step, e) && id in s.t.feeds && id in Apply(s, step, e).t.feeds
    requires !step.InsertCall? && !step.FinishCall? && !step.AbortCall? && !step.Arrive?
    ensures Apply(s, step, e).t.feeds[id].url == s.t.feeds[id].url
  {}

  lemma ForgottenByAbort(s: State, k: nat, id: nat)
    requires k < |s.calls| && Forgotten(s, id)
    ensures Forgotten(AbortedCall(s, k), id)
  {
    var r := AbortedCall(s, k);
    forall j | 0 <= j < |r.calls| ensures r.calls[j] in s.calls {}
  }

  lemma ForgottenByInsert(s: State, k: nat, n: nat, e: Env, id: nat)
    requires Sound(s) && Enabled(s, InsertCall(k, n), e) && Forgotten(s, id)
    ensures Forgotten(Apply(s, InsertCall(k, n), e), id)
  {
    var r := Apply(s, InsertCall(k, n), e);
    assert forall j | 0 <= j < |s.calls| && j != k :: r.calls[j] == s.calls[j];
    assert r.calls[k].stage == Inserted(true) ==> r.calls[k].url != s.t.feeds[id].url;
    assert !BeingCreated(s, id);
    assert forall j | 0 <= j < |s.calls| :: s.calls[j].stage == Inserted(true) ==> s.calls[j].url != s.t.feeds[id].url;
  }

  lemma ForgottenByFinish(s: State, k: nat, id: nat)
    requires Sound(s) && k < |s.calls| && s.calls[k].stage.Inserted? && Forgotten(s, id)
    ensures Forgotten(FinishedCall(s, k), id)
  {
    var r := FinishedCall(s, k);
    assert s.calls[k].stage.created ==> s.calls[k].url != s.t.feeds[id].url;
    forall j | 0 <= j < |r.calls| ensures r.calls[j] in s.calls {}
  }

  /** Later requests for the url do not repair it: for as long as the feed stays registered it has no state
      row, so no claim ever returns it. */
  lemma {:induction false} ForgottenStays(states: seq<State>, steps: seq<Step>, e: Env, id: nat, n: nat)
    requires Segment(states, steps, e) && n <= |steps| && Sound(states[0]) && Forgotten(states[0], id)
    requires forall i | 0 <= i <= n :: id in states[i].t.feeds
    ensures Sound(states[n]) && Forgotten(states[n], id)
  {
    if n > 0 {
      ForgottenStays(states, steps, e, id, n - 1);
      SegmentStep(states, steps, e, n - 1);
      IntegrityStep(states[n - 1], steps[n - 1], e);
      assert id in states[n].t.feeds;
      ForgottenStep(states[n - 1], steps[n - 1], e, id);
    }
  }

  // ---- exclusivity

  /** No two live fetches work on one feed. */
  ghost predicate Exclusive(s: State) {
    forall i, j | 0 <= i < j < |s.live| :: s.live[i].feed != s.live[j].feed
  }

  /** No live fetch has outlived its lock. */
  ghost predicate Timely(s: State) {
    forall i | 0 <= i < |s.live| :: Unix(s.clock) <= s.live[i].until
  }

  /** A new feed does not get the row id of one that is still being fetched. */
  ghost predicate FreshIds(s: State, step: Step) {
    step.InsertCall? ==> forall i | 0 <= i < |s.live| :: s.live[i].feed != step.id
  }

  /** The row is locked for this fetch, and is just as the fetch read it. */
  predicate Holds(st: FetchState, f: Fetch) {
    st.lockedUntil == Some(f.until) && (HasSnap(f.phase) ==> st == f.phase.snap)
  }

  predicate Knows(row: Feed, f: Fetch) {
    !f.phase.Locked? ==> row.url == f.phase.row.url && row.pollIntervalS == f.phase.row.pollIntervalS
  }

  /** What a live fetch may rely on, unless its feed was evicted. */
  ghost predicate Leased(s: State, f: Fetch) {
    f.feed in s.t.feeds ==> f.feed in s.t.states && Holds(s.t.states[f.feed], f) && Knows(s.t.feeds[f.feed], f)
  }

  ghost predicate LeasesHeld(s: State) {
    Exclusive(s) && forall i | 0 <= i < |s.live| :: Leased(s, s.live[i])
  }

  // What a step does to the live fetches: leave them, end one, advance one, or add some.

  /** What a fetch of feed `x` relies on is as it was. */
  predicate RowsKept(t: Tables, r: Tables, x: nat) {
    x in r.feeds ==>
      && x in t.feeds && r.feeds[x].url == t.feeds[x].url && r.feeds[x].pollIntervalS == t.feeds[x].pollIntervalS
      && (x in t.states ==> x in r.states && r.states[x] == t.states[x])
  }

  lemma FetchesStay(s: State, r: State)
    requires LeasesHeld(s) && r.live == s.live
    requires forall i | 0 <= i < |s.live| :: RowsKept(s.t, r.t, s.live[i].feed)
    ensures LeasesHeld(r)
  {
    forall i | 0 <= i < |r.live| ensures Leased(r, r.live[i]) {
      assert Leased(s, s.live[i]);
    }
  }

  lemma FetchEnds(s: State, r: State, f: nat)
    requires LeasesHeld(s) && f < |s.live| && r.live == Without1(s.live, f)
    requires forall x: nat | x != s.live[f].feed :: RowsKept(s.t, r.t, x)
    ensures LeasesHeld(r)
  {
    forall i | 0 <= i < |r.live| ensures Leased(r, r.live[i]) {
      var j := if i < f then i else i + 1;
      assert r.live[i] == s.live[j] && Leased(s, s.live[j]);
      assert s.live[j].feed != s.live[f].feed && RowsKept(s.t, r.t, s.live[j].feed);
    }
  }

  lemma FetchAdvances(s: State, r: State, f: nat, next: Fetch)
    requires LeasesHeld(s) && f < |s.live| && r.live == s.live[f := next] && next.feed == s.live[f].feed
    requires forall x: nat :: RowsKept(s.t, r.t, x)
    requires Leased(r, next)
    ensures LeasesHeld(r)
  {
    forall i | 0 <= i < |r.live| ensures Leased(r, r.live[i]) {
      if i != f {
        assert Leased(s, s.live[i]) && RowsKept(s.t, r.t, s.live[i].feed);
      }
    }
  }

  lemma FetchesAdded(s: State, r: State, more: seq<Fetch>)
    requires LeasesHeld(s) && r.live == s.live + more
    requires forall i | 0 <= i < |s.live| :: RowsKept(s.t, r.t, s.live[i].feed)
    requires forall i, j | 0 <= i < |s.live| && 0 <= j < |more| :: s.live[i].feed != more[j].feed
    requires forall i, j | 0 <= i < j < |more| :: more[i].feed != more[j].feed
    requires forall i | 0 <= i < |more| :: Leased(r, more[i])
    ensures LeasesHeld(r)
  {
    forall i | 0 <= i < |r.live| ensures Leased(r, r.live[i]) {
      if i < |s.live| {
        assert Leased(s, s.live[i]);
      } else {
        assert r.live[i] == more[i - |s.live|];
      }
    }
  }

  /** The feed of a live fetch that has not outlived its lock cannot be claimed. */
  lemma LiveIsLocked(s: State, i: nat, id: nat, now: int)
    requires LeasesHeld(s) && Timely(s) && s.t.Valid() && i < |s.live| && now <= s.clock
    requires id in s.t.states && Unlocked(s.t.states[id], now)
    ensures s.live[i].feed != id
  {
    assert Leased(s, s.live[i]);
    assert Unix(now) <= Unix(s.clock) <= s.live[i].until;
  }

  /** The step claims the feed of a live fetch. */
  ghost predicate ClaimsLive(s: State, step: Step) {
    exists i :: 0 <= i < |s.live| && ClaimsFeed(step, s.live[i].feed)
  }

  /** It does so because that fetch has outlived its lock. */
  ghost predicate ClaimsOverstayed(s: State, step: Step) {
    exists i :: 0 <= i < |s.live| && ClaimsFeed(step, s.live[i].feed) && s.live[i].until < Unix(ClaimedAt(step))
  }

  /** The step makes a new feed under the row id of one that is still being fetched. */
  ghost predicate ReusesId(s: State, step: Step) {
    && step.InsertCall? && step.k < |s.calls| && IdOf(s.t.feeds, s.calls[step.k].url).None?
    && exists i :: 0 <= i < |s.live| && s.live[i].feed == step.id
  }

  lemma ClaimsLiveIff(s: State, step: Step, e: Env)
    requires s.t.Valid() && LeasesHeld(s) && Enabled(s, step, e)
    ensures ClaimsLive(s, step) <==> ClaimsOverstayed(s, step)
  {
    if i :| 0 <= i < |s.live| && ClaimsFeed(step, s.live[i].feed) {
      assert Leased(s, s.live[i]);
      assert Unlocked(s.t.states[s.live[i].feed], ClaimedAt(step));
    }
  }

  lemma ClaimDueLeases(s: State, now: int, limit: int, due: seq<Due>, e: Env)
    requires LeasesHeld(s) && Enabled(s, ClaimDue(now, limit, due), e) && !ClaimsLive(s, ClaimDue(now, limit, due))
    ensures LeasesHeld(Apply(s, ClaimDue(now, limit, due), e))
  {
    var r := Apply(s, ClaimDue(now, limit, due), e);
    var more := DueFetches(due, LeaseEnd(now, e.c.lockFor));
    forall j | 0 <= j < |due| ensures due[j].id in DueIds(due) && Leased(r, more[j]) {
      assert due[j] in due;
    }
    forall i | 0 <= i < |s.live| ensures s.live[i].feed !in DueIds(due) {
      assert !ClaimsFeed(ClaimDue(now, limit, due), s.live[i].feed);
    }
    FetchesAdded(s, r, more);
  }

  lemma ClaimFeedLeases(s: State, id: nat, now: int, e: Env)
    requires LeasesHeld(s) && Enabled(s, ClaimFeed(id, now), e) && !ClaimsLive(s, ClaimFeed(id, now))
    ensures LeasesHeld(Apply(s, ClaimFeed(id, now), e))
  {
    forall i | 0 <= i < |s.live| ensures s.live[i].feed != id {
      assert !ClaimsFeed(ClaimFeed(id, now), s.live[i].feed);
    }
    FetchesAdded(s, Apply(s, ClaimFeed(id, now), e), [Fetch(id, LeaseEnd(now, e.c.lockFor), Locked)]);
  }

  /** The steps of one fetch. */
  lemma FetchStepLeases(s: State, step: Step, e: Env)
    requires Sound(s) && LeasesHeld(s) && Enabled(s, step, e)
    requires OfFetch(step)
    ensures LeasesHeld(Apply(s, step, e))
  {
    var r := Apply(s, step, e);
    assert Leased(s, s.live[step.f]);
    if |r.live| < |s.live| {
      FetchEnds(s, r, step.f);
    } else {
      FetchAdvances(s, r, step.f, r.live[step.f]);
    }
  }

  lemma FinishCallLeases(s: State, k: nat)
    requires LeasesHeld(s) && s.t.Valid() && k < |s.calls| && s.calls[k].stage.Inserted?
    ensures LeasesHeld(FinishedCall(s, k))
  {
    forall i | 0 <= i < |s.live| ensures RowsKept(s.t, FinishedCall(s, k).t, s.live[i].feed) {
      assert Leased(s, s.live[i]);
    }
    FetchesStay(s, FinishedCall(s, k));
  }

  /** From a state where every lease is held, a step keeps them all unless it is a claim of a feed whose fetch
      has outlived its lock, or gives a live fetch's row id to another feed. */
  lemma LeasesStay(s: State, step: Step, e: Env)
    requires Sound(s) && LeasesHeld(s) && Enabled(s, step, e) && !ClaimsLive(s, step) && !ReusesId(s, step)
    ensures LeasesHeld(Apply(s, step, e))
  {
    match step
    case ClaimDue(now, limit, due) => ClaimDueLeases(s, now, limit, due, e);
    case ClaimFeed(id, now) => ClaimFeedLeases(s, id, now, e);
    case FinishCall(k) => FinishCallLeases(s, k);
    case Tick(_) => FetchesStay(s, Apply(s, step, e));
    case Arrive(_) => FetchesStay(s, Apply(s, step, e));
    case InsertCall(k, id) => FetchesStay(s, Apply(s, step, e));
    case AbortCall(_) => FetchesStay(s, Apply(s, step, e));
    case PruneFeed(_, _, _) => FetchesStay(s, Apply(s, step, e));
    case EvictUnwanted(_) => FetchesStay(s, Apply(s, step, e));
    case _ => FetchStepLeases(s, step, e);
  }

  /** A claim adds a fetch, and nothing else brings two of one feed together. */
  lemma ExclusiveIff(s: State, step: Step, e: Env)
    requires Sound(s) && LeasesHeld(s) && Enabled(s, step, e)
    ensures Exclusive(Apply(s, step, e)) <==> !ClaimsOverstayed(s, step)
  {
    ClaimsLiveIff(s, step, e);
    if ClaimsLive(s, step) {
      ClaimDoubles(s, step, e);
    } else if ReusesId(s, step) {
      assert Apply(s, step, e).live == s.live;
    } else {
      LeasesStay(s, step, e);
    }
  }

  lemma ClaimDoubles(s: State, step: Step, e: Env)
    requires Enabled(s, step, e) && ClaimsLive(s, step)
    ensures !Exclusive(Apply(s, step, e))
  {
    var r := Apply(s, step, e);
    var i :| 0 <= i < |s.live| && ClaimsFeed(step, s.live[i].feed);
    var until := LeaseEnd(ClaimedAt(step), e.c.lockFor);
    if step.ClaimFeed? {
      TwoOfOne(s, r, [Fetch(step.id, until, Locked)], i, 0);
      return;
    }
    var j := ClaimedAs(step.due, s.live[i].feed);
    TwoOfOne(s, r, DueFetches(step.due, until), i, j);
  }

  lemma ClaimedAs(due: seq<Due>, id: nat) returns (j: nat)
    requires id in DueIds(due)
    ensures j < |due| && due[j].id == id
  {
    var d :| d in due && d.id == id;
    j :| j < |due| && due[j] == d;
  }

  lemma TwoOfOne(s: State, r: State, more: seq<Fetch>, i: nat, j: nat)
    requires r.live == s.live + more && i < |s.live| && j < |more| && s.live[i].feed == more[j].feed
    ensures !Exclusive(r)
  {
    assert r.live[|s.live| + j].feed == r.live[i].feed;
  }

  lemma ReuseUnleases(s: State, step: Step, e: Env)
    requires s.t.Valid() && Enabled(s, step, e) && ReusesId(s, step)
    ensures !LeasesHeld(Apply(s, step, e))
  {
    var i :| 0 <= i < |s.live| && s.live[i].feed == step.id;
    assert !Leased(Apply(s, step, e), s.live[i]);
  }

  /** Exactly two kinds of step break the lease protocol: a claim that comes after the lock of a live fetch of
      the feed ran out, and a registration under the row id of a live fetch. */
  lemma LeasesIff(s: State, step: Step, e: Env)
    requires Sound(s) && LeasesHeld(s) && Enabled(s, step, e)
    ensures LeasesHeld(Apply(s, step, e)) <==> !ClaimsOverstayed(s, step) && !ReusesId(s, step)
  {
    ExclusiveIff(s, step, e);
    ClaimsLiveIff(s, step, e);
    if ReusesId(s, step) {
      ReuseUnleases(s, step, e);
    } else if !ClaimsLive(s, step) {
      LeasesStay(s, step, e);
    }
  }

  lemma LeaseStep(s: State, step: Step, e: Env)
    requires Sound(s) && LeasesHeld(s) && Timely(s) && Enabled(s, step, e) && FreshIds(s, step)
    ensures LeasesHeld(Apply(s, step, e))
  {
    LeasesIff(s, step, e);
    assert step.ClaimDue? || step.ClaimFeed? ==> Unix(ClaimedAt(step)) <= Unix(s.clock);
  }

  /** The step breaks neither assumption. */
  ghost predicate Keeps(s: State, step: Step) { !ClaimsOverstayed(s, step) && !ReusesId(s, step) }

  /** Over every run: all leases are held all the time if and only if no step is of those two kinds. */
  lemma {:induction false} LeasesExactly(states: seq<State>, steps: seq<Step>, e: Env, n: nat)
    requires Run(states, steps, e) && n <= |steps|
    ensures (forall i | 0 <= i <= n :: LeasesHeld(states[i])) <==> forall i | 0 <= i < n :: Keeps(states[i], steps[i])
  {
    if n > 0 {
      LeasesExactly(states, steps, e, n - 1);
      SegmentStep(states, steps, e, n - 1);
      IntegrityAlways(states, steps, e, n - 1);
      if LeasesHeld(states[n - 1]) {
        LeasesIff(states[n - 1], steps[n - 1], e);
      }
    }
  }

  /** All assumptions of the lease protocol up to the `n`-th step. */
  ghost predicate Disciplined(states: seq<State>, steps: seq<Step>, n: nat)
    requires n <= |steps| && |states| == |steps| + 1
  {
    forall i | 0 <= i < n :: Timely(states[i]) && FreshIds(states[i], steps[i])
  }

  lemma {:induction false} LeasesAlways(states: seq<State>, steps: seq<Step>, e: Env, n: nat)
    requires Segment(states, steps, e) && n <= |steps| && Disciplined(states, steps, n)
    requires Sound(states[0]) && LeasesHeld(states[0])
    ensures Sound(states[n]) && LeasesHeld(states[n])
  {
    if n > 0 {
      LeasesAlways(states, steps, e, n - 1);
      SegmentStep(states, steps, e, n - 1);
      assert Timely(states[n - 1]) && FreshIds(states[n - 1], steps[n - 1]);
      IntegrityStep(states[n - 1], steps[n - 1], e);
      LeaseStep(states[n - 1], steps[n - 1], e);
    }
  }

  /** Over every interleaving: as long as every fetch ends no later than its own lock, and row ids are not
      reused under a live fetch, no two live fetches work on one feed, and every live fetch's row is still
      exactly what it read when it claimed it. */
  lemma LeaseExclusive(states: seq<State>, steps: seq<Step>, e: Env, n: nat)
    requires Run(states, steps, e) && n <= |steps| && Disciplined(states, steps, n)
    ensures Exclusive(states[n])
    ensures forall i | 0 <= i < |states[n].live| :: Leased(states[n], states[n].live[i])
  {
    LeasesAlways(states, steps, e, n);
  }
}
