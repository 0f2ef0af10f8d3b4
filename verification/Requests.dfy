/** What a request for a feed is promised, from its arrival on: it keeps the feed registered for the time that
    unwanted feeds are kept. */
module Requests {
  import opened Rows
  import opened RowIds
  import opened Ranking
  import opened Integrity
  import opened Intervals
  import opened History
  import opened Protocol
  import opened Leases
  import opened Claims
  import Timeline

  // ---- following one call through a run

  predicate Leaves(step: Step) { step.FinishCall? || step.AbortCall? }

  /** Where the call at position `p` is after the step; calls in front of it may leave. */
  function Shift(step: Step, p: nat): nat {
    if Leaves(step) && step.k < p then p - 1 else p
  }

  /** Where the call that is at position `k` at the `i`-th state is at the `m`-th. */
  function At(steps: seq<Step>, k: nat, i: nat, m: nat): nat
    requires i <= m <= |steps|
  {
    if m == i then k else Shift(steps[m - 1], At(steps, k, i, m - 1))
  }

  predicate Ends(step: Step, p: nat) { Leaves(step) && step.k == p }

  /** Until the `m`-th state the call neither finishes nor breaks off. */
  ghost predicate InProgress(steps: seq<Step>, k: nat, i: nat, m: nat)
    requires i <= m <= |steps|
  {
    forall j: nat | i <= j < m :: !EndsAt(steps, k, i, j)
  }

  predicate EndsAt(steps: seq<Step>, k: nat, i: nat, j: nat)
    requires i <= j < |steps|
  {
    Ends(steps[j], At(steps, k, i, j))
  }

  lemma CallStep(s: State, step: Step, e: Env, p: nat)
    requires Enabled(s, step, e) && p < |s.calls| && !Ends(step, p)
    ensures var r, q := Apply(s, step, e), Shift(step, p);
      && q < |r.calls| && r.calls[q].url == s.calls[p].url && r.calls[q].now == s.calls[p].now
      && (!(step.InsertCall? && step.k == p) ==> r.calls[q] == s.calls[p])
  {}

  /** A request for `url` arrives with the `i`-th step, and its first statement is the `a`-th. */
  ghost predicate Begins(states: seq<State>, steps: seq<Step>, url: string, i: nat, a: nat)
    requires |states| == |steps| + 1
  {
    && i < a < |steps| && steps[i] == Arrive(url) && InProgress(steps, |states[i].calls|, i + 1, a)
    && steps[a].InsertCall? && steps[a].k == At(steps, |states[i].calls|, i + 1, a)
  }

  /** And its second statement is the `b`-th. */
  ghost predicate Completes(steps: seq<Step>, a: nat, b: nat)
    requires a < |steps| && steps[a].InsertCall?
  {
    && a < b < |steps| && InProgress(steps, steps[a].k, a + 1, b)
    && steps[b] == FinishCall(At(steps, steps[a].k, a + 1, b))
  }

  /** A call that was `was` and is `call` now: still itself, and the same if its first statement had run. */
  predicate Continues(was: Call, call: Call) {
    call.url == was.url && call.now == was.now && (was.stage.Inserted? ==> call == was)
  }

  /** A call in progress stays itself, and once its first statement has run it changes no more. */
  lemma {:induction false} FollowCall(states: seq<State>, steps: seq<Step>, e: Env, k: nat, i: nat, m: nat)
    requires Segment(states, steps, e) && i <= m <= |steps| && k < |states[i].calls| && InProgress(steps, k, i, m)
    ensures var p := At(steps, k, i, m); p < |states[m].calls| && Continues(states[i].calls[k], states[m].calls[p])
  {
    if i == m {
      return;
    }
    var p := At(steps, k, i, m - 1);
    FollowCall(states, steps, e, k, i, m - 1);
    assert !EndsAt(steps, k, i, m - 1);
    SegmentStep(states, steps, e, m - 1);
    ContinueStep(states[m - 1], steps[m - 1], e, p, states[i].calls[k]);
  }

  lemma ContinueStep(s: State, step: Step, e: Env, p: nat, was: Call)
    requires Enabled(s, step, e) && p < |s.calls| && !Ends(step, p) && Continues(was, s.calls[p])
    ensures var r, q := Apply(s, step, e), Shift(step, p); q < |r.calls| && Continues(was, r.calls[q])
  {
    CallStep(s, step, e, p);
  }

  /** The call as its first statement finds it. */
  lemma CallAtInsert(states: seq<State>, steps: seq<Step>, e: Env, url: string, i: nat, a: nat)
    requires Segment(states, steps, e) && Begins(states, steps, url, i, a)
    ensures var k := steps[a].k; k < |states[a].calls| && states[a].calls[k] == Call(url, states[i].clock, Arrived)
  {
    SegmentStep(states, steps, e, i);
    SegmentStep(states, steps, e, a);
    FollowCall(states, steps, e, |states[i].calls|, i + 1, a);
  }

  /** The call as its second statement finds it. */
  lemma CallAtFinish(states: seq<State>, steps: seq<Step>, e: Env, url: string, i: nat, a: nat, b: nat)
    requires Segment(states, steps, e) && Begins(states, steps, url, i, a) && Completes(steps, a, b)
    ensures var k := steps[b].k;
      && k < |states[b].calls|
      && states[b].calls[k] == Call(url, states[i].clock, Inserted(IdOf(states[a].t.feeds, url).None?))
  {
    CallAtInsert(states, steps, e, url, i, a);
    SegmentStep(states, steps, e, a);
    FollowCall(states, steps, e, steps[a].k, a + 1, b);
  }

  // ---- the url in between

  ghost predicate Registered(s: State, url: string) { IdOf(s.t.feeds, url).Some? }

  /** The step is an eviction whose cutoff lies above the last request of the url's feed. */
  ghost predicate Drops(s: State, step: Step, url: string, e: Env) {
    && step.EvictUnwanted? && Registered(s, url)
    && s.t.feeds[IdOf(s.t.feeds, url).value].lastRequestedAt < Unix(step.now - e.c.evictAfter)
  }

  /** The step is the first statement of a request for the url. */
  ghost predicate Readds(s: State, step: Step, url: string) {
    step.InsertCall? && step.k < |s.calls| && s.calls[step.k].url == url
  }

  ghost predicate ReaddedIn(states: seq<State>, steps: seq<Step>, url: string, m: nat, b: nat)
    requires m <= b <= |steps| && |states| == |steps| + 1
  {
    exists r: nat :: m <= r < b && Readds(states[r], steps[r], url)
  }

  /** Between the two states, every eviction that takes the url's feed is made good by another request's
      first statement. */
  ghost predicate NotLost(states: seq<State>, steps: seq<Step>, url: string, e: Env, a: nat, b: nat)
    requires a <= b <= |steps| && |states| == |steps| + 1
  {
    forall m: nat | a <= m < b && Drops(states[m], steps[m], url, e) :: ReaddedIn(states, steps, url, m, b)
  }

  lemma RegisteredStep(s: State, step: Step, e: Env, url: string)
    requires s.t.Valid() && Enabled(s, step, e)
    ensures Registered(Apply(s, step, e), url) <==> (Registered(s, url) && !Drops(s, step, url, e)) || Readds(s, step, url)
  {
    match step
    case InsertCall(k, id) => RegisteredByInsert(s, k, id, e, url);
    case EvictUnwanted(now) => RegisteredByEvict(s, now, e, url);
    case FinishCall(k) => RegisteredByFinish(s, k, url);
    case _ => SameUrls(s, step, e, url);
  }

  lemma RegisteredByInsert(s: State, k: nat, id: nat, e: Env, url: string)
    requires Enabled(s, InsertCall(k, id), e)
    ensures Registered(Apply(s, InsertCall(k, id), e), url) <==> Registered(s, url) || s.calls[k].url == url
  {
    var r := Apply(s, InsertCall(k, id), e);
    if Registered(s, url) {
      assert r.t.feeds[IdOf(s.t.feeds, url).value].url == url;
    } else if s.calls[k].url == url {
      assert r.t.feeds[id].url == url;
    }
  }

  lemma RegisteredByEvict(s: State, now: int, e: Env, url: string)
    requires s.t.Valid()
    ensures IdOf(Evict(s.t, now - e.c.evictAfter).feeds, url).Some?
       <==> Registered(s, url) && !Drops(s, EvictUnwanted(now), url, e)
  {
    var left := Evict(s.t, now - e.c.evictAfter).feeds;
    if Registered(s, url) && !Drops(s, EvictUnwanted(now), url, e) {
      assert IdOf(s.t.feeds, url).value in left && left[IdOf(s.t.feeds, url).value].url == url;
    }
  }

  lemma RegisteredByFinish(s: State, k: nat, url: string)
    requires k < |s.calls| && s.calls[k].stage.Inserted?
    ensures Registered(FinishedCall(s, k), url) <==> Registered(s, url)
  {
    var r := FinishedCall(s, k);
    SameUrlsBoth(s.t.feeds, r.t.feeds, url);
  }

  lemma SameUrls(s: State, step: Step, e: Env, url: string)
    requires Enabled(s, step, e) && !step.InsertCall? && !step.EvictUnwanted? && !step.FinishCall?
    ensures Registered(Apply(s, step, e), url) <==> Registered(s, url)
  {
    SameUrlsBoth(s.t.feeds, Apply(s, step, e).t.feeds, url);
  }

  lemma SameUrlsBoth(feeds: map<nat, Feed>, others: map<nat, Feed>, url: string)
    requires feeds.Keys == others.Keys && forall id | id in feeds :: others[id].url == feeds[id].url
    ensures IdOf(feeds, url).Some? <==> IdOf(others, url).Some?
  {
    if IdOf(feeds, url).Some? {
      assert others[IdOf(feeds, url).value].url == url;
    }
  }

  lemma NotLostStep(states: seq<State>, steps: seq<Step>, url: string, e: Env, a: nat, b: nat)
    requires a <= b < |steps| && |states| == |steps| + 1
    ensures NotLost(states, steps, url, e, a, b + 1)
       <==> Readds(states[b], steps[b], url) || (NotLost(states, steps, url, e, a, b) && !Drops(states[b], steps[b], url, e))
  {
    forall m: nat | a <= m <= b
      ensures ReaddedIn(states, steps, url, m, b + 1) <==> ReaddedIn(states, steps, url, m, b) || Readds(states[b], steps[b], url)
    {
      if r: nat :| m <= r < b && Readds(states[r], steps[r], url) { assert r < b + 1; }
    }
  }

  lemma {:induction false} RegisteredIff(states: seq<State>, steps: seq<Step>, e: Env, url: string, a: nat, b: nat)
    requires Run(states, steps, e) && a <= b <= |steps| && Registered(states[a], url)
    ensures Registered(states[b], url) <==> NotLost(states, steps, url, e, a, b)
  {
    if a == b {
      return;
    }
    RegisteredIff(states, steps, e, url, a, b - 1);
    IntegrityAlways(states, steps, e, b - 1);
    SegmentStep(states, steps, e, b - 1);
    RegisteredStep(states[b - 1], steps[b - 1], e, url);
    NotLostStep(states, steps, url, e, a, b - 1);
  }

  // ---- the promise

  /** No eviction from the `i`-th step to the `j`-th reads a clock past the time that a request at `t` is
      good for. */
  ghost predicate InTime(steps: seq<Step>, e: Env, t: int, i: nat, j: nat)
    requires i <= j <= |steps|
  {
    forall m | i <= m < j && steps[m].EvictUnwanted? :: steps[m].now <= t + e.c.evictAfter
  }

  /** From the `i`-th state on the url stays registered, and wanted since `t`, for as long as a request at `t`
      is good for. */
  ghost predicate Kept(states: seq<State>, steps: seq<Step>, e: Env, url: string, t: int, i: nat)
    requires |states| == |steps| + 1
  {
    forall j: nat | i <= j <= |steps| && InTime(steps, e, t, i, j) :: Wanted(states[j], url, t)
  }

  lemma KeptIff(states: seq<State>, steps: seq<Step>, e: Env, url: string, t: int, i: nat)
    requires Segment(states, steps, e) && i <= |steps|
    ensures Kept(states, steps, e, url, t, i) <==> Wanted(states[i], url, t)
  {
    if id: nat :| WantedSince(states[i], id, url, t) {
      forall j: nat | i <= j <= |steps| && InTime(steps, e, t, i, j) ensures Wanted(states[j], url, t) {
        WantedSurvives(states, steps, e, i, j, id, url, t);
      }
    }
    if Kept(states, steps, e, url, t, i) {
      assert InTime(steps, e, t, i, i);
    }
  }

  /** A request that found its url registered keeps it from its arrival on -- through every eviction up to
      `evictAfter` past its arrival -- if and only if each eviction between its two statements that takes the
      feed is made good by another request before the second one. With no other request for the url in
      between: iff no eviction there has a cutoff above the feed's last request. */
  lemma RequestKeptIff(states: seq<State>, steps: seq<Step>, e: Env, url: string, i: nat, a: nat, b: nat)
    requires Run(states, steps, e) && Begins(states, steps, url, i, a) && Completes(steps, a, b)
    requires Registered(states[a], url)
    ensures Kept(states, steps, e, url, states[i].clock, b + 1) <==> NotLost(states, steps, url, e, a + 1, b)
    ensures (forall m: nat | a < m < b :: !Readds(states[m], steps[m], url)) ==>
      (Kept(states, steps, e, url, states[i].clock, b + 1) <==> forall m: nat | a < m < b :: !Drops(states[m], steps[m], url, e))
  {
    InsertRegisters(states, steps, e, url, i, a);
    RegisteredIff(states, steps, e, url, a + 1, b);
    CallAtFinish(states, steps, e, url, i, a, b);
    IntegrityAlways(states, steps, e, b);
    RequestCounts(states[b], steps[b].k, e);
    SegmentStep(states, steps, e, b);
    KeptIff(states, steps, e, url, states[i].clock, b + 1);
    if forall m: nat | a < m < b :: !Readds(states[m], steps[m], url) {
      NoReaddsNotLost(states, steps, url, e, a + 1, b);
    }
  }

  lemma NoReaddsNotLost(states: seq<State>, steps: seq<Step>, url: string, e: Env, a: nat, b: nat)
    requires a <= b <= |steps| && |states| == |steps| + 1
    requires forall m: nat | a <= m < b :: !Readds(states[m], steps[m], url)
    ensures NotLost(states, steps, url, e, a, b) <==> forall m: nat | a <= m < b :: !Drops(states[m], steps[m], url, e)
  {
    forall m: nat | a <= m < b ensures !ReaddedIn(states, steps, url, m, b) {}
  }

  lemma InsertRegisters(states: seq<State>, steps: seq<Step>, e: Env, url: string, i: nat, a: nat)
    requires Run(states, steps, e) && Begins(states, steps, url, i, a)
    ensures Registered(states[a + 1], url)
  {
    CallAtInsert(states, steps, e, url, i, a);
    IntegrityAlways(states, steps, e, a);
    SegmentStep(states, steps, e, a);
    RegisteredStep(states[a], steps[a], e, url);
  }

  /** A request that registers its url keeps it, with no condition, from its first statement on. */
  lemma CreatedKept(states: seq<State>, steps: seq<Step>, e: Env, url: string, i: nat, a: nat)
    requires Run(states, steps, e) && Begins(states, steps, url, i, a) && !Registered(states[a], url)
    ensures Kept(states, steps, e, url, states[i].clock, a + 1)
  {
    CallAtInsert(states, steps, e, url, i, a);
    SegmentStep(states, steps, e, a);
    RegistrationCounts(states[a], steps[a].k, steps[a].id, e);
    assert WantedSince(states[a + 1], steps[a].id, url, states[i].clock);
    KeptIff(states, steps, e, url, states[i].clock, a + 1);
  }

  /** The four steps of a request that loses its feed: it arrives, finds the url, the feed is evicted as nobody
      wanted it for long, and the second statement touches no row. */
  ghost predicate LosesUrl(s: State, url: string, row: nat, e: Env) {
    var k, arrived := |s.calls|, Apply(s, Arrive(url), e);
    && Enabled(arrived, InsertCall(k, row), e)
    && var found := Apply(arrived, InsertCall(k, row), e);
    && Enabled(found, EvictUnwanted(found.clock), e)
    && var evicted := Apply(found, EvictUnwanted(found.clock), e);
    && Enabled(evicted, FinishCall(k), e)
    && !Registered(Apply(evicted, FinishCall(k), e), url)
  }

  /** From every state in which the url's feed is due for eviction, a request for it can be lost so, by an
      eviction at the very second of its arrival. */
  lemma RequestCanBeLost(s: State, url: string, e: Env)
    requires s.t.Valid() && Registered(s, url)
    requires s.t.feeds[IdOf(s.t.feeds, url).value].lastRequestedAt < Unix(s.clock - e.c.evictAfter)
    ensures LosesUrl(s, url, NextRowId(s.t.feeds.Keys), e)
  {
    var k, row, arrived := |s.calls|, NextRowId(s.t.feeds.Keys), Apply(s, Arrive(url), e);
    assert arrived.calls[k] == Call(url, s.clock, Arrived);
    var found := Apply(arrived, InsertCall(k, row), e);
    assert found.calls[k] == Call(url, s.clock, Inserted(false)) && found.t == s.t;
    RegisteredStep(found, EvictUnwanted(found.clock), e, url);
    var evicted := Apply(found, EvictUnwanted(found.clock), e);
    assert evicted.calls == found.calls;
    EvictValid(found.t, found.clock - e.c.evictAfter);
    RegisteredStep(evicted, FinishCall(k), e, url);
  }

  // ---- what a later statement of the request reads

  /** Whenever a request reads the state rows, in any run, a feed is listed as warming iff no good fetch of it
      was ever recorded, and as stale iff one was, but not last. */
  lemma PresentedInRun(states: seq<State>, steps: seq<Step>, e: Env, m: nat, id: nat)
    requires Run(states, steps, e) && m <= |steps|
    ensures var s := states[m];
      var h := if id in s.log then s.log[id] else [];
      && (Timeline.IsWarming(s.t.states, id) <==> forall i | 0 <= i < |h| :: h[i].Bad?)
      && (Timeline.IsStale(s.t.states, id) <==> h != [] && h[|h| - 1].Bad? && exists i :: 0 <= i < |h| && h[i].Good?)
  {
    RowsFoldHistory(states, steps, e, m);
    if id in states[m].log {
      Presentation(states[m].t.states[id], states[m].log[id]);
    }
  }

  /** Each of the urls is registered under its id, and wanted since `t`. */
  ghost predicate AllWanted(s: State, ids: seq<nat>, urls: seq<string>, t: int)
    requires |ids| == |urls|
  {
    forall k | 0 <= k < |ids| :: WantedSince(s, ids[k], urls[k], t)
  }

  /** A request for several feeds registers them one by one, the `k`-th by the `at[k]`-th state, reads the state
      rows at the `m`-th and lists the items at the `n`-th, with anyone stepping in between. If no eviction
      meanwhile runs past the time the request is good for, all its feeds are still there both times, under the
      ids it was given, and the page is a selection of the items of just these feeds. */
  lemma ServedInRun(states: seq<State>, steps: seq<Step>, e: Env, urls: seq<string>, ids: seq<nat>, t: int, at: seq<nat>,
      m: nat, n: nat, since: Option<int>, limit: nat, norm: string -> string)
    requires Run(states, steps, e) && |ids| == |urls| == |at| && m <= n <= |steps|
    requires forall k | 0 <= k < |at| :: at[k] <= m && WantedSince(states[at[k]], ids[k], urls[k], t) && InTime(steps, e, t, at[k], n)
    ensures AllWanted(states[m], ids, urls, t) && AllWanted(states[n], ids, urls, t)
    ensures var items := states[n].t.items;
      var rows := Timeline.PageRows(items, Members(ids), since, limit, norm);
      |rows| <= limit && forall i | 0 <= i < |rows| :: items[rows[i]].feed in ids
  {
    forall k | 0 <= k < |ids| ensures WantedSince(states[m], ids[k], urls[k], t) && WantedSince(states[n], ids[k], urls[k], t) {
      assert InTime(steps, e, t, at[k], n);
      WantedSurvives(states, steps, e, at[k], m, ids[k], urls[k], t);
      WantedSurvives(states, steps, e, at[k], n, ids[k], urls[k], t);
    }
    Timeline.PageIsSelection(states[n].t.items, Members(ids), since, limit, norm);
  }
}
