/** Everything that steps over the tables at once: requests, claims, fetches, pruning and eviction.

    A step is one statement or one transaction. Between two of them any other party may step. */
module Protocol {
  import opened Rows
  import opened Retention
  import opened Integrity
  import opened Intervals
  import opened History

  /** A parsed feed document and the headers it came with. */
  datatype Document = Document(
    etag: string, lastModified: string, status: int,
    kind: string, title: string, siteUrl: string, ttl: int, drafts: seq<Draft>)

  /** How far a fetch has come. `row` and `snap` are what the claim read, one after the other if the feed was
      claimed on demand; `at` is the poller's clock once the host was acquired. */
  datatype Phase =
    | Locked
    | RowRead(row: Feed)
    | Claimed(row: Feed, snap: FetchState)
    | Started(row: Feed, snap: FetchState, at: int)
    | Stored(row: Feed, snap: FetchState, at: int, doc: Document, newItems: nat)

  /** A fetch from its claim until it is recorded or abandoned. */
  datatype Fetch = Fetch(feed: nat, until: int, phase: Phase)

  datatype Stage = Arrived | Inserted(created: bool)

  /** An EnsureFeed in progress; `now` was read when the request arrived. */
  datatype Call = Call(url: string, now: int, stage: Stage)

  datatype State = State(
    t: Tables, live: seq<Fetch>, calls: seq<Call>, clock: int,
    orphans: set<nat>,               // feeds whose creating call broke off between its two statements
    log: map<nat, seq<Event>>)       // recorded fetches of every feed with a state row

  datatype Env = Env(c: Config, hash: string -> string)

  datatype Step =
    | Tick(now: int)
    | Arrive(url: string)
    | InsertCall(k: nat, id: nat)
    | FinishCall(k: nat)
    | AbortCall(k: nat)
    | ClaimDue(now: int, limit: int, due: seq<Due>)
    | ClaimFeed(id: nat, now: int)
    | ReadRow(f: nat)
    | ReadState(f: nat)
    | Start(f: nat)
    | NotModified(f: nat, status: int)
    | Fail(f: nat, status: int, retryAfter: int, msg: string, rnd: real)
    | Store(f: nat, doc: Document)
    | Finish(f: nat)
    | Abandon(f: nat)
    | PruneFeed(id: nat, keep: int, cutoff: int)
    | EvictUnwanted(now: int)

  /** A step that the `f`-th live fetch takes. */
  predicate OfFetch(step: Step) {
    step.ReadRow? || step.ReadState? || step.Start? || step.NotModified? || step.Fail? || step.Store? || step.Finish? || step.Abandon?
  }

  /** The step claims the feed, by either path. */
  ghost predicate ClaimsFeed(step: Step, id: nat) {
    (step.ClaimDue? && id in DueIds(step.due)) || (step.ClaimFeed? && step.id == id)
  }

  function ClaimedAt(step: Step): int
    requires step.ClaimDue? || step.ClaimFeed?
  {
    step.now
  }

  predicate HasSnap(p: Phase) { !p.Locked? && !p.RowRead? }

  function Without1<T>(s: seq<T>, k: nat): seq<T>
    requires k < |s|
  {
    s[..k] + s[k + 1..]
  }

  // ---- what the poller records

  function StoredInterval(row: Feed): int { row.pollIntervalS * SECOND }

  function NotModifiedRecord(row: Feed, snap: FetchState, at: int, status: int, c: Config): FetchOK {
    FetchOK("", "", status, at, at + NextIntervalOf(StoredInterval(row), snap.quietPolls + 1, c),
            "", "", "", StoredInterval(row), 0)
  }

  function DocumentRecord(snap: FetchState, at: int, doc: Document, newItems: nat, c: Config): FetchOK {
    var quiet := if newItems == 0 then snap.quietPolls + 1 else 0;
    FetchOK(doc.etag, doc.lastModified, doc.status, at, at + NextIntervalOf(doc.ttl, quiet, c),
            doc.kind, doc.title, doc.siteUrl, NextIntervalOf(doc.ttl, 0, c), newItems)
  }

  function RetryAt(row: Feed, snap: FetchState, at: int, status: int, retryAfter: int, rnd: real, c: Config): int {
    at + BackoffOf(StoredInterval(row), snap.failCount + 1, retryAfter, status, c, rnd)
  }

  // ---- steps

  function DueFetches(due: seq<Due>, until: int): (r: seq<Fetch>)
    ensures |r| == |due|
  {
    seq(|due|, i requires 0 <= i < |due| => Fetch(due[i].id, until, Claimed(due[i].feed, due[i].state)))
  }

  function Logged(log: map<nat, seq<Event>>, id: nat, e: Event): map<nat, seq<Event>> {
    if id in log then log[id := log[id] + [e]] else log
  }

  ghost predicate Enabled(s: State, step: Step, e: Env) {
    match step
    case Tick(now) => s.clock <= now
    case Arrive(_) => true
    case InsertCall(k, id) => k < |s.calls| && s.calls[k].stage.Arrived? && id !in s.t.feeds
    case FinishCall(k) => k < |s.calls| && s.calls[k].stage.Inserted?
    case AbortCall(k) => k < |s.calls|
    case ClaimDue(now, limit, due) =>
      now <= s.clock && ClaimsDue(s.t, s.t.(states := Lock(s.t.states, DueIds(due), LeaseEnd(now, e.c.lockFor))), due, now, e.c.lockFor, limit)
    case ClaimFeed(id, now) => now <= s.clock && id in s.t.states && Unlocked(s.t.states[id], now)
    case ReadRow(f) => f < |s.live| && s.live[f].phase.Locked?
    case ReadState(f) => f < |s.live| && s.live[f].phase.RowRead?
    case Start(f) => f < |s.live| && s.live[f].phase.Claimed?
    case NotModified(f, _) => f < |s.live| && s.live[f].phase.Started?
    case Fail(f, _, _, _, rnd) => f < |s.live| && s.live[f].phase.Started? && 0.0 <= rnd < 1.0
    case Store(f, doc) => f < |s.live| && s.live[f].phase.Started? && !UpsertFails(s.t, s.live[f].feed, doc.drafts)
    case Finish(f) => f < |s.live| && s.live[f].phase.Stored?
    case Abandon(f) => f < |s.live|
    case PruneFeed(_, _, _) => true
    case EvictUnwanted(now) => now <= s.clock
  }

  ghost function FinishedCall(s: State, k: nat): State
    requires k < |s.calls| && s.calls[k].stage.Inserted?
  {
    var call := s.calls[k];
    var rest := Without1(s.calls, k);
    if call.stage.created then
      match IdOf(s.t.feeds, call.url)
      case Some(id) =>
        if id in s.t.states then s.(calls := rest)
        else s.(t := InsertState(s.t, call.url, call.now), calls := rest, orphans := s.orphans - {id}, log := s.log[id := []])
      case None => s.(calls := rest)
    else s.(t := TouchFeed(s.t, call.url, call.now), calls := rest)
  }

  /** A call that breaks off after its first statement leaves the feed it created without a state row. */
  ghost function AbortedCall(s: State, k: nat): State
    requires k < |s.calls|
  {
    var call := s.calls[k];
    var id := IdOf(s.t.feeds, call.url);
    s.(calls := Without1(s.calls, k),
       orphans := if call.stage == Inserted(true) && id.Some? && id.value !in s.t.states then s.orphans + {id.value} else s.orphans)
  }

  /** A row that is gone by then ends the fetch. */
  ghost function RowReadBack(s: State, f: nat): State
    requires f < |s.live| && s.live[f].phase.Locked?
  {
    var id := s.live[f].feed;
    if id in s.t.feeds then s.(live := s.live[f := s.live[f].(phase := RowRead(s.t.feeds[id]))])
    else s.(live := Without1(s.live, f))
  }

  ghost function StateReadBack(s: State, f: nat): State
    requires f < |s.live| && s.live[f].phase.RowRead?
  {
    var id := s.live[f].feed;
    if id in s.t.states then s.(live := s.live[f := s.live[f].(phase := Claimed(s.live[f].phase.row, s.t.states[id]))])
    else s.(live := Without1(s.live, f))
  }

  ghost function Apply(s: State, step: Step, e: Env): State
    requires Enabled(s, step, e)
  {
    match step
    case Tick(now) => s.(clock := now)
    case Arrive(url) => s.(calls := s.calls + [Call(url, s.clock, Arrived)])
    case InsertCall(k, id) =>
      var call := s.calls[k];
      s.(t := InsertFeed(s.t, call.url, call.now, id),
         calls := s.calls[k := call.(stage := Inserted(IdOf(s.t.feeds, call.url).None?))])
    case FinishCall(k) => FinishedCall(s, k)
    case AbortCall(k) => AbortedCall(s, k)
    case ClaimDue(now, limit, due) =>
      var until := LeaseEnd(now, e.c.lockFor);
      s.(t := s.t.(states := Lock(s.t.states, DueIds(due), until)), live := s.live + DueFetches(due, until))
    case ClaimFeed(id, now) =>
      var until := LeaseEnd(now, e.c.lockFor);
      s.(t := s.t.(states := Lock(s.t.states, {id}, until)), live := s.live + [Fetch(id, until, Locked)])
    case ReadRow(f) => RowReadBack(s, f)
    case ReadState(f) => StateReadBack(s, f)
    case Start(f) =>
      var p := s.live[f].phase;
      s.(live := s.live[f := s.live[f].(phase := Started(p.row, p.snap, s.clock))])
    case NotModified(f, status) =>
      var id, p := s.live[f].feed, s.live[f].phase;
      var r := NotModifiedRecord(p.row, p.snap, p.at, status, e.c);
      s.(t := RecordOK(s.t, id, r), live := Without1(s.live, f), log := Logged(s.log, id, Good("", p.at, 0)))
    case Fail(f, status, retryAfter, msg, rnd) =>
      var id, p := s.live[f].feed, s.live[f].phase;
      s.(t := RecordError(s.t, id, status, msg, p.at, RetryAt(p.row, p.snap, p.at, status, retryAfter, rnd, e.c)),
         live := Without1(s.live, f), log := Logged(s.log, id, Bad(status, p.at)))
    case Store(f, doc) =>
      var id, p := s.live[f].feed, s.live[f].phase;
      s.(t := UpsertItems(s.t, id, doc.drafts, p.at, e.hash),
         live := s.live[f := s.live[f].(phase := Stored(p.row, p.snap, p.at, doc, |NewKeys(s.t.items, id, doc.drafts)|))])
    case Finish(f) =>
      var id, p := s.live[f].feed, s.live[f].phase;
      s.(t := RecordOK(s.t, id, DocumentRecord(p.snap, p.at, p.doc, p.newItems, e.c)),
         live := Without1(s.live, f), log := Logged(s.log, id, Good(p.doc.etag, p.at, p.newItems)))
    case Abandon(f) => s.(live := Without1(s.live, f))
    case PruneFeed(id, keep, cutoff) => s.(t := PruneItems(s.t, id, keep, cutoff))
    case EvictUnwanted(now) =>
      var gone := EvictedIds(s.t.feeds, now - e.c.evictAfter);
      s.(t := Evict(s.t, now - e.c.evictAfter), orphans := s.orphans - gone, log := Without(s.log, gone))
  }

  ghost predicate IsLive(s: State, y: nat) {
    exists i :: 0 <= i < |s.live| && s.live[i].feed == y
  }

  // ---- runs

  ghost predicate StepAt(states: seq<State>, steps: seq<Step>, e: Env, i: nat)
    requires |states| == |steps| + 1 && i < |steps|
  {
    Enabled(states[i], steps[i], e) && states[i + 1] == Apply(states[i], steps[i], e)
  }

  /** Consecutive states, each the result of the step between them. */
  ghost predicate Segment(states: seq<State>, steps: seq<Step>, e: Env) {
    |states| == |steps| + 1 && forall i | 0 <= i < |steps| :: StepAt(states, steps, e, i)
  }

  /** The process starts on some database, with nothing in flight. */
  ghost predicate Init(s: State) {
    && s.t.Valid() && s.live == [] && s.calls == []
    && s.orphans == s.t.feeds.Keys - s.t.states.Keys
    && LogFolds(s)
  }

  ghost predicate Run(states: seq<State>, steps: seq<Step>, e: Env) {
    Segment(states, steps, e) && Init(states[0])
  }

  /** Every state row is the fold of its feed's recorded fetches. */
  ghost predicate LogFolds(s: State) {
    s.log.Keys == s.t.states.Keys && forall id | id in s.log :: Folds(s.t.states[id], s.log[id])
  }

  lemma SegmentStep(states: seq<State>, steps: seq<Step>, e: Env, i: nat)
    requires Segment(states, steps, e) && i < |steps|
    ensures Enabled(states[i], steps[i], e) && states[i + 1] == Apply(states[i], steps[i], e)
  {
    assert StepAt(states, steps, e, i);
  }
}
