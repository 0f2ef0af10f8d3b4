/** A feed that is due gets claimed, within a bounded number of claims. */
module Starvation {
  import opened Rows
  import opened RowIds
  import opened Ranking
  import opened Retention
  import opened Integrity
  import opened Intervals
  import opened History
  import opened Protocol
  import opened Leases
  import opened Claims

  // ---- waits are never negative

  predicate Sane(c: Config) {
    && 0 <= c.minInterval && 0 <= c.maxInterval <= TWO62
    && 0 < c.defaultInterval && 0 <= c.maxBackoff <= TWO62
  }

  lemma {:induction false} CappedNotNegative(d: int, n: nat, cap: int)
    requires 0 <= d && 0 <= cap
    ensures 0 <= Capped(d, n, cap)
  {
    DoubledStaysAbove(d, n);
  }

  lemma IntervalNotNegative(ttl: int, quiet: int, c: Config)
    requires Sane(c)
    ensures 0 <= NextIntervalOf(ttl, quiet, c)
  {
    GrowIsCapped(Base(ttl, c), Doublings(quiet, c), c.maxInterval);
    CappedNotNegative(Base(ttl, c), Doublings(quiet, c), c.maxInterval);
  }

  lemma BackoffNotNegative(base: int, failCount: int, retryAfter: int, status: int, c: Config, rnd: real)
    requires Sane(c) && 0.0 <= rnd < 1.0
    ensures 0 <= BackoffOf(base, failCount, retryAfter, status, c, rnd)
  {
    var b := if base <= 0 then c.defaultInterval else base;
    if failCount > 0 {
      GrowIsCapped(b, failCount, c.maxBackoff);
      CappedNotNegative(b, failCount, c.maxBackoff);
    }
    var d := Delay(base, failCount, retryAfter, c);
    if d > 0 {
      JitterBounds(d, rnd);
    } else {
      assert d as real * (0.9 + 0.2 * rnd) == 0.0;
    }
  }

  // ---- who can still be served before the feed

  /** A fetch that started no later than second `d` may put its feed back in the queue at or before `d`. */
  predicate StartedBy(f: Fetch, d: int) {
    (f.phase.Started? || f.phase.Stored?) && Unix(f.phase.at) <= d
  }

  ghost function Waiting(s: State, x: nat, d: int): set<nat> {
    set y | y in s.t.states && y != x && !IsLive(s, y) && s.t.states[y].nextPollAt <= d
  }

  ghost function Returning(s: State, x: nat, d: int): set<nat> {
    set i: nat | i < |s.live| && s.live[i].feed != x && StartedBy(s.live[i], d) :: s.live[i].feed
  }

  ghost function InFront(s: State, x: nat, d: int): set<nat> { Waiting(s, x, d) + Returning(s, x, d) }

  /** Requests that arrived by second `d` and may still register a feed that is due then. */
  function LateCalls(calls: seq<Call>, d: int): nat {
    if calls == [] then 0
    else LateCalls(calls[..|calls| - 1], d) + if Unix(calls[|calls| - 1].now) <= d then 1 else 0
  }

  ghost function Queue(s: State, x: nat, d: int): nat { |InFront(s, x, d)| + LateCalls(s.calls, d) }

  lemma {:induction false} LateCallsConcat(a: seq<Call>, b: seq<Call>, d: int)
    ensures LateCalls(a + b, d) == LateCalls(a, d) + LateCalls(b, d)
  {
    if b == [] {
      assert a + b == a;
    } else {
      LateCallsConcat(a, b[..|b| - 1], d);
      assert (a + b)[..|a + b| - 1] == a + b[..|b| - 1];
    }
  }

  lemma LateCallsRemove(calls: seq<Call>, k: nat, d: int)
    requires k < |calls|
    ensures LateCalls(calls, d) == LateCalls(Without1(calls, k), d) + if Unix(calls[k].now) <= d then 1 else 0
  {
    LateCallsConcat(calls[..k], [calls[k]], d);
    LateCallsConcat(calls[..k] + [calls[k]], calls[k + 1..], d);
    LateCallsConcat(calls[..k], calls[k + 1..], d);
    assert calls == calls[..k] + [calls[k]] + calls[k + 1..];
    assert [calls[k]][..0] == [];
  }

  lemma LateCallsUpdate(calls: seq<Call>, k: nat, call: Call, d: int)
    requires k < |calls| && call.now == calls[k].now
    ensures LateCalls(calls[k := call], d) == LateCalls(calls, d)
  {
    LateCallsRemove(calls, k, d);
    LateCallsRemove(calls[k := call], k, d);
    assert Without1(calls[k := call], k) == Without1(calls, k);
  }

  // ---- one step

  /** The fetch breaks off without a record, and its feed is still there. */
  ghost predicate Loses(s: State, step: Step) {
    step.Abandon? && step.f < |s.live| && s.live[step.f].feed in s.t.states
  }

  /** What holds of the feed while it waits. */
  ghost predicate WaitsAs(s: State, x: nat, st: FetchState) {
    x in s.t.states && s.t.states[x] == st && !IsLive(s, x)
  }

  ghost predicate Proper(s: State, step: Step, e: Env) {
    && Sound(s) && LeasesHeld(s) && Timely(s) && Enabled(s, step, e) && FreshIds(s, step)
    && Sane(e.c)
  }

  lemma StaysIdle(s: State, step: Step, e: Env, x: nat)
    requires Enabled(s, step, e) && !IsLive(s, x) && !ClaimsFeed(step, x)
    ensures !IsLive(Apply(s, step, e), x)
  {
    var r := Apply(s, step, e);
    if step.ClaimDue? {
      forall i | 0 <= i < |r.live| ensures r.live[i].feed != x {
        if i >= |s.live| {
          assert step.due[i - |s.live|] in step.due;
        }
      }
      return;
    }
    forall i | 0 <= i < |r.live| ensures r.live[i].feed != x {}
  }

  lemma WaitsStep(s: State, step: Step, e: Env, x: nat, st: FetchState)
    requires Enabled(s, step, e) && WaitsAs(s, x, st)
    requires !ClaimsFeed(step, x) && x in Apply(s, step, e).t.states
    ensures WaitsAs(Apply(s, step, e), x, st)
  {
    StaysIdle(s, step, e, x);
    assert Apply(s, step, e).t.states[x] == st;
  }

  /** Nothing joins those in front, other than by a call or by a fetch that breaks off. */
  lemma FrontShrinks(s: State, step: Step, e: Env, x: nat, d: int)
    requires Proper(s, step, e) && d < Unix(s.clock) && !step.FinishCall? && !Loses(s, step)
    ensures InFront(Apply(s, step, e), x, d) <= InFront(s, x, d)
  {
    match step
    case ClaimDue(now, limit, due) => ClaimFront(s, now, limit, due, e, x, d);
    case ClaimFeed(id, now) => ClaimFeedFront(s, id, now, e, x, d);
    case NotModified(_, _) => RecordedFront(s, step, e, x, d);
    case Fail(_, _, _, _, _) => RecordedFront(s, step, e, x, d);
    case Finish(_) => RecordedFront(s, step, e, x, d);
    case Abandon(f) => DropFront(s, step, e, x, d);
    case ReadRow(_) => ReadBackFront(s, step, e, x, d);
    case ReadState(_) => ReadBackFront(s, step, e, x, d);
    case Start(f) => AdvanceFront(s, step, e, x, d);
    case Store(f, doc) => AdvanceFront(s, step, e, x, d);
    case _ => OthersFront(s, step, e, x, d);
  }

  lemma RecordedFront(s: State, step: Step, e: Env, x: nat, d: int)
    requires Enabled(s, step, e) && (step.NotModified? || step.Fail? || step.Finish?) && Sane(e.c)
    ensures InFront(Apply(s, step, e), x, d) <= InFront(s, x, d)
  {
    match step
    case NotModified(f, status) =>
      IntervalNotNegative(StoredInterval(s.live[f].phase.row), s.live[f].phase.snap.quietPolls + 1, e.c);
      RecordFront(s, step, e, x, d);
    case Fail(f, status, retryAfter, msg, rnd) =>
      var p := s.live[f].phase;
      BackoffNotNegative(StoredInterval(p.row), p.snap.failCount + 1, retryAfter, status, e.c, rnd);
      RecordFront(s, step, e, x, d);
    case Finish(f) =>
      var p := s.live[f].phase;
      IntervalNotNegative(p.doc.ttl, if p.newItems == 0 then p.snap.quietPolls + 1 else 0, e.c);
      RecordFront(s, step, e, x, d);
  }

  lemma OthersFront(s: State, step: Step, e: Env, x: nat, d: int)
    requires Enabled(s, step, e)
    requires step.Tick? || step.Arrive? || step.InsertCall? || step.AbortCall? || step.PruneFeed? || step.EvictUnwanted?
    ensures InFront(Apply(s, step, e), x, d) <= InFront(s, x, d)
  {
    assert Apply(s, step, e).live == s.live;
  }

  lemma ClaimFront(s: State, now: int, limit: int, due: seq<Due>, e: Env, x: nat, d: int)
    requires Enabled(s, ClaimDue(now, limit, due), e)
    ensures var r := Apply(s, ClaimDue(now, limit, due), e);
      InFront(r, x, d) <= InFront(s, x, d) && Waiting(r, x, d) <= Waiting(s, x, d) - DueIds(due)
      && Returning(r, x, d) <= Returning(s, x, d)
  {
    var r := Apply(s, ClaimDue(now, limit, due), e);
    forall y | y in DueIds(due) ensures IsLive(r, y) {
      var q :| q in due && q.id == y;
      var j :| 0 <= j < |due| && due[j] == q;
      assert r.live[|s.live| + j].feed == y;
    }
    forall y | y in Waiting(r, x, d) ensures y in Waiting(s, x, d) - DueIds(due) {
      forall i | 0 <= i < |s.live| ensures s.live[i].feed != y { assert r.live[i] == s.live[i]; }
    }
    forall y | y in Returning(r, x, d) ensures y in Returning(s, x, d) {
      var i: nat :| i < |r.live| && r.live[i].feed == y && y != x && StartedBy(r.live[i], d);
      assert i < |s.live| && r.live[i] == s.live[i];
    }
  }

  lemma ClaimFeedFront(s: State, id: nat, now: int, e: Env, x: nat, d: int)
    requires Enabled(s, ClaimFeed(id, now), e)
    ensures InFront(Apply(s, ClaimFeed(id, now), e), x, d) <= InFront(s, x, d)
  {
    var r := Apply(s, ClaimFeed(id, now), e);
    assert r.live[|s.live|].feed == id;
    forall y | y in Waiting(r, x, d) ensures y in Waiting(s, x, d) {
      forall i | 0 <= i < |s.live| ensures s.live[i].feed != y { assert r.live[i] == s.live[i]; }
    }
    forall y | y in Returning(r, x, d) ensures y in Returning(s, x, d) {
      var i: nat :| i < |r.live| && r.live[i].feed == y && y != x && StartedBy(r.live[i], d);
      assert i < |s.live| && r.live[i] == s.live[i];
    }
  }

  /** Where a remaining fetch was before the `f`-th left, and where it is after. */
  lemma RemovedLive(s: State, r: State, f: nat)
    requires f < |s.live| && r.live == Without1(s.live, f)
    ensures forall y: nat | y != s.live[f].feed && IsLive(s, y) :: IsLive(r, y)
    ensures forall i: nat | i < |r.live| :: r.live[i] in s.live
  {
    forall y: nat | y != s.live[f].feed && IsLive(s, y) ensures IsLive(r, y) {
      var i: nat :| i < |s.live| && s.live[i].feed == y;
      var j := if i < f then i else i - 1;
      assert r.live[j] == s.live[i];
    }
  }

  lemma ReturningSubset(s: State, r: State, x: nat, d: int)
    requires forall i: nat | i < |r.live| && StartedBy(r.live[i], d) ::
      exists j: nat :: j < |s.live| && s.live[j].feed == r.live[i].feed && StartedBy(s.live[j], d)
    ensures Returning(r, x, d) <= Returning(s, x, d)
  {
    forall y | y in Returning(r, x, d) ensures y in Returning(s, x, d) {
      var i: nat :| i < |r.live| && r.live[i].feed == y && y != x && StartedBy(r.live[i], d);
      var j: nat :| j < |s.live| && s.live[j].feed == r.live[i].feed && StartedBy(s.live[j], d);
    }
  }

  lemma RemovedReturning(s: State, r: State, f: nat, x: nat, d: int)
    requires f < |s.live| && r.live == Without1(s.live, f)
    ensures Returning(r, x, d) <= Returning(s, x, d)
  {
    forall i: nat | i < |r.live| && StartedBy(r.live[i], d)
      ensures exists j: nat :: j < |s.live| && s.live[j].feed == r.live[i].feed && StartedBy(s.live[j], d)
    {
      var j: nat := if i < f then i else i + 1;
      assert s.live[j] == r.live[i];
    }
    ReturningSubset(s, r, x, d);
  }

  /** A recorded feed comes back later than `d`, unless its fetch had started by then. */
  lemma RecordFront(s: State, step: Step, e: Env, x: nat, d: int)
    requires Enabled(s, step, e) && (step.NotModified? || step.Fail? || step.Finish?)
    requires var r, at := Apply(s, step, e), s.live[step.f].phase.at;
      s.live[step.f].feed in r.t.states ==> r.t.states[s.live[step.f].feed].nextPollAt >= Unix(at)
    ensures InFront(Apply(s, step, e), x, d) <= InFront(s, x, d)
  {
    var r, f := Apply(s, step, e), step.f;
    RemovedLive(s, r, f);
    RemovedReturning(s, r, f, x, d);
    forall y | y in Waiting(r, x, d) ensures y in InFront(s, x, d) {
      if y == s.live[f].feed {
        assert StartedBy(s.live[f], d);
      } else {
        assert y in Waiting(s, x, d);
      }
    }
  }

  lemma DropFront(s: State, step: Step, e: Env, x: nat, d: int)
    requires Enabled(s, step, e) && step.Abandon? && !Loses(s, step)
    ensures InFront(Apply(s, step, e), x, d) <= InFront(s, x, d)
  {
    var r := Apply(s, step, e);
    RemovedLive(s, r, step.f);
    RemovedReturning(s, r, step.f, x, d);
  }

  /** A fetch that breaks off puts its feed back with the due time it had. */
  lemma LoseFront(s: State, step: Step, e: Env, x: nat, d: int)
    requires Enabled(s, step, e) && Loses(s, step)
    ensures InFront(Apply(s, step, e), x, d) <= InFront(s, x, d) + {s.live[step.f].feed}
  {
    var r := Apply(s, step, e);
    RemovedLive(s, r, step.f);
    RemovedReturning(s, r, step.f, x, d);
  }

  lemma AdvanceFront(s: State, step: Step, e: Env, x: nat, d: int)
    requires Enabled(s, step, e) && (step.Start? || step.Store?) && d < Unix(s.clock)
    ensures InFront(Apply(s, step, e), x, d) <= InFront(s, x, d)
  {
    var r := Apply(s, step, e);
    SameFeedsLive(s, r);
    forall i: nat | i < |r.live| && StartedBy(r.live[i], d)
      ensures exists j: nat :: j < |s.live| && s.live[j].feed == r.live[i].feed && StartedBy(s.live[j], d)
    {
      assert s.live[i].feed == r.live[i].feed && StartedBy(s.live[i], d);
    }
    ReturningSubset(s, r, x, d);
    assert r.t.states == s.t.states;
    assert Waiting(r, x, d) <= Waiting(s, x, d);
  }

  lemma SameFeedsLive(s: State, r: State)
    requires |r.live| == |s.live| && forall i | 0 <= i < |s.live| :: r.live[i].feed == s.live[i].feed
    ensures forall y: nat :: IsLive(r, y) <==> IsLive(s, y)
  {
    forall y: nat ensures IsLive(r, y) <==> IsLive(s, y) {
      if IsLive(s, y) {
        var i :| 0 <= i < |s.live| && s.live[i].feed == y;
        assert r.live[i].feed == y;
      }
    }
  }

  lemma ReadBackFront(s: State, step: Step, e: Env, x: nat, d: int)
    requires s.t.Valid() && Enabled(s, step, e) && (step.ReadRow? || step.ReadState?)
    ensures InFront(Apply(s, step, e), x, d) <= InFront(s, x, d)
  {
    var r, f := Apply(s, step, e), step.f;
    if r.live == Without1(s.live, f) {
      RemovedLive(s, r, f);
      RemovedReturning(s, r, f, x, d);
      assert s.live[f].feed !in s.t.states;
    } else {
      SameFeedsLive(s, r);
      forall i: nat | i < |r.live| && StartedBy(r.live[i], d)
        ensures exists j: nat :: j < |s.live| && s.live[j].feed == r.live[i].feed && StartedBy(s.live[j], d)
      {
        assert s.live[i] == r.live[i];
      }
      ReturningSubset(s, r, x, d);
    }
  }

  /** A call that gives a new feed its state row may put that feed in front, but is then over itself. */
  lemma FinishCallQueue(s: State, k: nat, x: nat, d: int)
    requires k < |s.calls| && s.calls[k].stage.Inserted?
    ensures Queue(FinishedCall(s, k), x, d) <= Queue(s, x, d)
  {
    var r, call := FinishedCall(s, k), s.calls[k];
    LateCallsRemove(s.calls, k, d);
    var id := IdOf(s.t.feeds, call.url);
    var joined: set<nat> := if id.Some? && Unix(call.now) <= d then {id.value} else {};
    FinishCallFront(s, k, x, d, joined);
    SubsetSize(InFront(r, x, d), InFront(s, x, d) + joined);
    UnionSize(InFront(s, x, d), joined);
  }

  lemma UnionSize(a: set<nat>, b: set<nat>)
    ensures |a + b| <= |a| + |b|
  {}

  lemma FinishCallFront(s: State, k: nat, x: nat, d: int, joined: set<nat>)
    requires k < |s.calls| && s.calls[k].stage.Inserted?
    requires var id := IdOf(s.t.feeds, s.calls[k].url);
      joined == if id.Some? && Unix(s.calls[k].now) <= d then {id.value} else {}
    ensures InFront(FinishedCall(s, k), x, d) <= InFront(s, x, d) + joined
  {
    var r := FinishedCall(s, k);
    assert r.live == s.live && Returning(r, x, d) == Returning(s, x, d);
    forall y | y in Waiting(r, x, d) ensures y in Waiting(s, x, d) + joined {}
  }

  ghost function Lost(s: State, step: Step): nat { if Loses(s, step) then 1 else 0 }

  /** The queue never grows, but for the feed of a fetch that breaks off. */
  lemma QueueStep(s: State, step: Step, e: Env, x: nat, d: int)
    requires Proper(s, step, e) && d < Unix(s.clock)
    ensures Queue(Apply(s, step, e), x, d) <= Queue(s, x, d) + Lost(s, step)
  {
    if step.FinishCall? {
      FinishCallQueue(s, step.k, x, d);
      return;
    }
    CallsStep(s, step, e, d);
    if Loses(s, step) {
      LoseSize(s, step, e, x, d);
      return;
    }
    FrontShrinks(s, step, e, x, d);
    SubsetSize(InFront(Apply(s, step, e), x, d), InFront(s, x, d));
  }

  lemma LoseSize(s: State, step: Step, e: Env, x: nat, d: int)
    requires Enabled(s, step, e) && Loses(s, step)
    ensures |InFront(Apply(s, step, e), x, d)| <= |InFront(s, x, d)| + 1
  {
    var back := {s.live[step.f].feed};
    LoseFront(s, step, e, x, d);
    SubsetSize(InFront(Apply(s, step, e), x, d), InFront(s, x, d) + back);
    UnionSize(InFront(s, x, d), back);
  }

  lemma CallsStep(s: State, step: Step, e: Env, d: int)
    requires Enabled(s, step, e) && !step.FinishCall? && d < Unix(s.clock)
    ensures LateCalls(Apply(s, step, e).calls, d) <= LateCalls(s.calls, d)
  {
    match step
    case Arrive(url) =>
      var call := Call(url, s.clock, Arrived);
      LateCallsConcat(s.calls, [call], d);
      assert [call][..0] == [];
    case InsertCall(k, id) => LateCallsUpdate(s.calls, k, Apply(s, step, e).calls[k], d);
    case AbortCall(k) => LateCallsRemove(s.calls, k, d);
    case _ =>
  }

  /** A ClaimDue that could have taken the feed and did not takes `limit` of those in front. */
  lemma MissShrinks(s: State, now: int, limit: int, due: seq<Due>, e: Env, x: nat)
    requires Proper(s, ClaimDue(now, limit, due), e) && 0 <= limit
    requires x in s.t.states && x !in DueIds(due) && Eligible(s.t.states[x], now)
    ensures var d := s.t.states[x].nextPollAt;
      Queue(Apply(s, ClaimDue(now, limit, due), e), x, d) + limit <= Queue(s, x, d)
  {
    var d, ids, r := s.t.states[x].nextPollAt, DueIds(due), Apply(s, ClaimDue(now, limit, due), e);
    assert x in EligibleIds(s.t.states, now) - ids && |ids| == limit;
    forall y | y in ids ensures y in Waiting(s, x, d) && y !in Returning(s, x, d) {
      forall i | 0 <= i < |s.live| ensures s.live[i].feed != y {
        LiveIsLocked(s, i, y, now);
      }
    }
    ClaimFront(s, now, limit, due, e, x, d);
    assert InFront(r, x, d) <= InFront(s, x, d) - ids;
    SubsetSize(InFront(r, x, d), InFront(s, x, d) - ids);
    assert ids <= InFront(s, x, d);
    assert |InFront(s, x, d) - ids| == |InFront(s, x, d)| - |ids|;
  }

  // ---- runs

  /** The step is a claim of up to `limit` feeds made on a clock that reads `from` or later. */
  predicate Counts(step: Step, from: int, limit: int) {
    step.ClaimDue? && step.limit == limit && from <= step.now
  }

  function ClaimCount(steps: seq<Step>, from: int, limit: int): nat {
    if steps == [] then 0
    else ClaimCount(steps[..|steps| - 1], from, limit) + if Counts(steps[|steps| - 1], from, limit) then 1 else 0
  }

  /** The step keeps to the lease protocol. */
  ghost predicate Regular(s: State, step: Step) { Timely(s) && FreshIds(s, step) }

  /** How many fetches broke off in the first `n` steps. */
  ghost function Losses(states: seq<State>, steps: seq<Step>, n: nat): nat
    requires n <= |steps| && |states| == |steps| + 1
  {
    if n == 0 then 0 else Losses(states, steps, n - 1) + Lost(states[n - 1], steps[n - 1])
  }

  /** The feed is registered, free and past due. */
  ghost predicate Overdue(s: State, x: nat) {
    x in s.t.states && !IsLive(s, x) && Unlocked(s.t.states[x], s.clock) && s.t.states[x].nextPollAt < Unix(s.clock)
  }

  /** The feed stays registered and no step before the `n`-th claims it. */
  ghost predicate Passed(states: seq<State>, steps: seq<Step>, x: nat, n: nat)
    requires n <= |steps| && |states| == |steps| + 1
  {
    forall i | 0 <= i < n :: PassedBy(states[i + 1], steps[i], x)
  }

  ghost predicate PassedBy(next: State, step: Step, x: nat) {
    !ClaimsFeed(step, x) && x in next.t.states
  }

  ghost predicate RegularRun(states: seq<State>, steps: seq<Step>, n: nat)
    requires n <= |steps| && |states| == |steps| + 1
  {
    forall i | 0 <= i < n :: Regular(states[i], steps[i])
  }

  lemma ClockRises(s: State, step: Step, e: Env)
    requires Enabled(s, step, e)
    ensures s.clock <= Apply(s, step, e).clock
  {}

  /** One step of a run in which the feed is passed over. */
  lemma PassingStep(s: State, step: Step, e: Env, x: nat, st: FetchState, from: int, limit: int)
    requires Proper(s, step, e) && WaitsAs(s, x, st) && from <= s.clock && 1 <= limit
    requires st.nextPollAt < Unix(from) && Unlocked(st, from)
    requires PassedBy(Apply(s, step, e), step, x)
    ensures var r, d := Apply(s, step, e), st.nextPollAt;
      && WaitsAs(r, x, st)
      && Queue(r, x, d) + (if Counts(step, from, limit) then limit else 0) <= Queue(s, x, d) + Lost(s, step)
  {
    assert Unix(from) <= Unix(s.clock);
    WaitsStep(s, step, e, x, st);
    QueueStep(s, step, e, x, st.nextPollAt);
    if Counts(step, from, limit) {
      assert Unix(from) <= Unix(step.now);
      MissShrinks(s, step.now, step.limit, step.due, e, x);
    }
  }

  /** Where the run stands after claims that took `taken` feeds and passed this one over, and `lost` fetches
      that broke off. */
  ghost predicate Drained(s0: State, s: State, x: nat, taken: nat, lost: nat)
    requires x in s0.t.states
  {
    var st := s0.t.states[x];
    && Sound(s) && LeasesHeld(s) && WaitsAs(s, x, st) && s0.clock <= s.clock
    && Queue(s, x, st.nextPollAt) + taken <= Queue(s0, x, st.nextPollAt) + lost
  }

  lemma DrainStep(s0: State, s: State, step: Step, e: Env, x: nat, limit: nat, taken: nat, lost: nat)
    requires Overdue(s0, x) && Drained(s0, s, x, taken, lost) && Sane(e.c) && 1 <= limit
    requires Enabled(s, step, e) && Regular(s, step) && PassedBy(Apply(s, step, e), step, x)
    ensures Drained(s0, Apply(s, step, e), x, taken + (if Counts(step, s0.clock, limit) then limit else 0), lost + Lost(s, step))
  {
    IntegrityStep(s, step, e);
    LeaseStep(s, step, e);
    ClockRises(s, step, e);
    PassingStep(s, step, e, x, s0.t.states[x], s0.clock, limit);
  }

  /** While the feed is passed over, every claim takes `limit` from the queue, and every fetch that breaks off
      adds at most one. */
  lemma {:induction false} QueueDrains(states: seq<State>, steps: seq<Step>, e: Env, x: nat, limit: nat, n: nat)
    requires Segment(states, steps, e) && n <= |steps| && Sane(e.c) && 1 <= limit
    requires Sound(states[0]) && LeasesHeld(states[0]) && Overdue(states[0], x)
    requires RegularRun(states, steps, n) && Passed(states, steps, x, n)
    ensures Drained(states[0], states[n], x, Product(limit, ClaimCount(steps[..n], states[0].clock, limit)), Losses(states, steps, n))
  {
    if n == 0 {
      NoneDrained(states[0], steps, x, limit);
      return;
    }
    QueueDrains(states, steps, e, x, limit, n - 1);
    assert Regular(states[n - 1], steps[n - 1]) && PassedBy(states[n], steps[n - 1], x);
    DrainNext(states, steps, e, x, limit, n);
  }

  lemma NoneDrained(s: State, steps: seq<Step>, x: nat, limit: nat)
    requires Sound(s) && LeasesHeld(s) && Overdue(s, x)
    ensures Drained(s, s, x, Product(limit, ClaimCount(steps[..0], s.clock, limit)), 0)
  {
    assert steps[..0] == [];
  }

  lemma DrainNext(states: seq<State>, steps: seq<Step>, e: Env, x: nat, limit: nat, n: nat)
    requires Segment(states, steps, e) && 0 < n <= |steps| && Sane(e.c) && 1 <= limit && Overdue(states[0], x)
    requires Regular(states[n - 1], steps[n - 1]) && PassedBy(states[n], steps[n - 1], x)
    requires Drained(states[0], states[n - 1], x, Product(limit, ClaimCount(steps[..n - 1], states[0].clock, limit)), Losses(states, steps, n - 1))
    ensures Drained(states[0], states[n], x, Product(limit, ClaimCount(steps[..n], states[0].clock, limit)), Losses(states, steps, n))
  {
    var taken, lost := Product(limit, ClaimCount(steps[..n - 1], states[0].clock, limit)), Losses(states, steps, n - 1);
    DrainAt(states, steps, e, x, limit, n - 1, taken, lost);
    CountNext(steps, n, states[0].clock, limit);
    SameDrained(states[0], states[n], x,
                taken + (if Counts(steps[n - 1], states[0].clock, limit) then limit else 0),
                Product(limit, ClaimCount(steps[..n], states[0].clock, limit)), Losses(states, steps, n));
  }

  lemma SameDrained(s0: State, s: State, x: nat, taken: nat, other: nat, lost: nat)
    requires x in s0.t.states && Drained(s0, s, x, taken, lost) && taken == other
    ensures Drained(s0, s, x, other, lost)
  {}

  function Product(a: nat, b: nat): nat { a * b }

  lemma DrainAt(states: seq<State>, steps: seq<Step>, e: Env, x: nat, limit: nat, i: nat, taken: nat, lost: nat)
    requires Segment(states, steps, e) && i < |steps| && Sane(e.c) && 1 <= limit && Overdue(states[0], x)
    requires Regular(states[i], steps[i]) && PassedBy(states[i + 1], steps[i], x)
    requires Drained(states[0], states[i], x, taken, lost)
    ensures Drained(states[0], states[i + 1], x,
                    taken + (if Counts(steps[i], states[0].clock, limit) then limit else 0), lost + Lost(states[i], steps[i]))
  {
    SegmentStep(states, steps, e, i);
    DrainStep(states[0], states[i], steps[i], e, x, limit, taken, lost);
  }

  lemma CountNext(steps: seq<Step>, n: nat, from: int, limit: nat)
    requires 0 < n <= |steps|
    ensures Product(limit, ClaimCount(steps[..n], from, limit))
         == Product(limit, ClaimCount(steps[..n - 1], from, limit)) + if Counts(steps[n - 1], from, limit) then limit else 0
  {
    assert steps[..n][..n - 1] == steps[..n - 1];
    CountStep(ClaimCount(steps[..n - 1], from, limit), limit);
  }

  lemma CountStep(count: nat, limit: int)
    ensures limit * (count + 1) == limit * count + limit
  {}

  /** floor((queue + lost) / limit) + 1: the queue being the feeds due no later than `x`, the fetches that started
      no later, and the requests that arrived no later, and `lost` the fetches that break off meanwhile. */
  ghost function ClaimBound(states: seq<State>, steps: seq<Step>, x: nat, limit: nat): nat
    requires |states| == |steps| + 1 && x in states[0].t.states && 1 <= limit
  {
    Rounds(Queue(states[0], x, states[0].t.states[x].nextPollAt) + Losses(states, steps, |steps|), limit)
  }

  /** How many claims of `limit` feeds it takes to have had more than `q` turns. */
  function Rounds(q: nat, limit: nat): nat
    requires 1 <= limit
  {
    q / limit + 1
  }

  /** No feed starves. An overdue feed that stays registered is claimed within that many claims, whatever fails
      -- provided fetches end before their locks expire, and row ids are not reused under a live fetch. */
  lemma ClaimedInTime(states: seq<State>, steps: seq<Step>, e: Env, x: nat, limit: nat)
    requires Segment(states, steps, e) && Sane(e.c) && 1 <= limit
    requires Sound(states[0]) && LeasesHeld(states[0]) && Overdue(states[0], x)
    requires RegularRun(states, steps, |steps|)
    requires forall i | 0 <= i < |states| :: HasRow(states[i], x)
    requires ClaimCount(steps, states[0].clock, limit) >= ClaimBound(states, steps, x, limit)
    ensures exists i :: 0 <= i < |steps| && ClaimsFeed(steps[i], x)
  {
    if forall i | 0 <= i < |steps| :: !ClaimsFeed(steps[i], x) {
      PassedOver(states, steps, e, x, limit);
      assert false;
    }
  }

  lemma PassedOver(states: seq<State>, steps: seq<Step>, e: Env, x: nat, limit: nat)
    requires Segment(states, steps, e) && Sane(e.c) && 1 <= limit
    requires Sound(states[0]) && LeasesHeld(states[0]) && Overdue(states[0], x)
    requires RegularRun(states, steps, |steps|)
    requires forall i | 0 <= i < |states| :: HasRow(states[i], x)
    requires forall i | 0 <= i < |steps| :: !ClaimsFeed(steps[i], x)
    ensures ClaimCount(steps, states[0].clock, limit) < ClaimBound(states, steps, x, limit)
  {
    TakenFits(states, steps, e, x, limit);
    BelowBound(states, steps, x, limit, ClaimCount(steps, states[0].clock, limit));
  }

  lemma BelowBound(states: seq<State>, steps: seq<Step>, x: nat, limit: nat, count: nat)
    requires |states| == |steps| + 1 && x in states[0].t.states && 1 <= limit
    requires Product(limit, count) <= Queue(states[0], x, states[0].t.states[x].nextPollAt) + Losses(states, steps, |steps|)
    ensures count < ClaimBound(states, steps, x, limit)
  {
    QuotientBound(Queue(states[0], x, states[0].t.states[x].nextPollAt) + Losses(states, steps, |steps|), count, limit);
  }

  lemma TakenFits(states: seq<State>, steps: seq<Step>, e: Env, x: nat, limit: nat)
    requires Segment(states, steps, e) && Sane(e.c) && 1 <= limit
    requires Sound(states[0]) && LeasesHeld(states[0]) && Overdue(states[0], x)
    requires RegularRun(states, steps, |steps|)
    requires forall i | 0 <= i < |states| :: HasRow(states[i], x)
    requires forall i | 0 <= i < |steps| :: !ClaimsFeed(steps[i], x)
    ensures Product(limit, ClaimCount(steps, states[0].clock, limit))
         <= Queue(states[0], x, states[0].t.states[x].nextPollAt) + Losses(states, steps, |steps|)
  {
    forall i | 0 <= i < |steps| ensures PassedBy(states[i + 1], steps[i], x) { assert HasRow(states[i + 1], x); }
    QueueDrains(states, steps, e, x, limit, |steps|);
    assert steps[..|steps|] == steps;
  }

  lemma QuotientBound(q: nat, count: nat, limit: nat)
    requires 1 <= limit && Product(limit, count) <= q
    ensures count < Rounds(q, limit)
  {
    QuotientIs(q, limit);
    LessProduct(count, q / limit, limit);
  }
}
