/** What the store's methods do is what the protocol's steps do, so the theorems about its runs cover them. */
module Refinement {
  import opened Rows
  import opened RowIds
  import opened Protocol
  import opened Store

  /** Whatever ClaimDue returns, and leaves in the tables, is one step; the feeds it returns are the fetches
      that are live from then on. */
  lemma ClaimDueIsOneStep(s: State, after: Tables, due: seq<Due>, now: int, limit: int, e: Env)
    requires now <= s.clock && ClaimsDue(s.t, after, due, now, e.c.lockFor, limit)
    ensures Enabled(s, ClaimDue(now, limit, due), e)
    ensures var r := Apply(s, ClaimDue(now, limit, due), e);
      && r.t == after && |r.live| == |s.live| + |due| && s.live <= r.live
      && forall i | 0 <= i < |due| ::
           r.live[|s.live| + i] == Fetch(due[i].id, LeaseEnd(now, e.c.lockFor), Claimed(due[i].feed, due[i].state))
  {}

  /** ClaimFeed succeeds iff its first step may be taken; the other two read back what it returns. */
  lemma ClaimFeedIsThreeSteps(s: State, id: nat, now: int, e: Env)
    requires s.t.Valid() && now <= s.clock
    ensures Enabled(s, ClaimFeed(id, now), e) <==> id in s.t.states && Unlocked(s.t.states[id], now)
    ensures Enabled(s, ClaimFeed(id, now), e) ==>
      var until, r, f := LeaseEnd(now, e.c.lockFor), Apply(s, ClaimFeed(id, now), e), |s.live|;
      && Enabled(r, ReadRow(f), e)
      && var p := Apply(r, ReadRow(f), e);
      && Enabled(p, ReadState(f), e)
      && var q := Apply(p, ReadState(f), e);
      && q.t == s.t.(states := Lock(s.t.states, {id}, until))
      && id in q.t.feeds && id in q.t.states
      && q.live == s.live + [Fetch(id, until, Claimed(q.t.feeds[id], q.t.states[id]))]
  {
    if Enabled(s, ClaimFeed(id, now), e) {
      var r := Apply(s, ClaimFeed(id, now), e);
      assert r.live[|s.live|] == Fetch(id, LeaseEnd(now, e.c.lockFor), Locked);
      var p := Apply(r, ReadRow(|s.live|), e);
      assert p.live[|s.live|] == Fetch(id, LeaseEnd(now, e.c.lockFor), RowRead(s.t.feeds[id]));
    }
  }

  /** An EnsureFeed that nobody gets in the way of is its two statements, one after the other. */
  lemma EnsureFeedIsTwoSteps(s: State, url: string, e: Env)
    requires s.t.Valid()
    ensures var k, arrived := |s.calls|, Apply(s, Arrive(url), e);
      && Enabled(arrived, InsertCall(k, NextRowId(s.t.feeds.Keys)), e)
      && var inserted := Apply(arrived, InsertCall(k, NextRowId(s.t.feeds.Keys)), e);
      && Enabled(inserted, FinishCall(k), e)
      && var r := Apply(inserted, FinishCall(k), e);
      && r.t == Ensured(s.t, url, s.clock) && r.calls == s.calls
  {
    var k, id := |s.calls|, NextRowId(s.t.feeds.Keys);
    var arrived := Apply(s, Arrive(url), e);
    var inserted := Apply(arrived, InsertCall(k, id), e);
    assert arrived.calls[k] == Call(url, s.clock, Arrived);
    assert Without1(inserted.calls, k) == s.calls;
    if IdOf(s.t.feeds, url).None? {
      IdOfIs(inserted.t.feeds, url, id);
    }
  }

  /** A fetch that has its host works with what its claim read, and with the clock as it is then. */
  lemma StartReadsClock(s: State, f: nat, e: Env)
    requires Enabled(s, Start(f), e)
    ensures var p, r := s.live[f].phase, Apply(s, Start(f), e);
      && r.t == s.t && r.live == s.live[f := Fetch(s.live[f].feed, s.live[f].until, Started(p.row, p.snap, s.clock))]
  {}

  /** Reading, waiting, arriving and breaking off change no table. */
  lemma QuietSteps(s: State, step: Step, e: Env)
    requires Enabled(s, step, e)
    requires step.Tick? || step.Arrive? || step.AbortCall? || step.ReadRow? || step.ReadState? || step.Start? || step.Abandon?
    ensures Apply(s, step, e).t == s.t
  {}

  /** Each statement of a call works on the tables it meets, with the clock as it was when the request arrived. */
  lemma CallStatements(s: State, k: nat, id: nat, e: Env)
    requires k < |s.calls|
    ensures Enabled(s, InsertCall(k, id), e) ==>
      Apply(s, InsertCall(k, id), e).t == InsertFeed(s.t, s.calls[k].url, s.calls[k].now, id)
    ensures Enabled(s, FinishCall(k), e) ==>
      Apply(s, FinishCall(k), e).t == if s.calls[k].stage.created then InsertState(s.t, s.calls[k].url, s.calls[k].now)
                                      else TouchFeed(s.t, s.calls[k].url, s.calls[k].now)
  {}
}
