/** The poll loop: it claims batches of due feeds and fetches them with bounded concurrency. */
module WorkerPool {

  /** Where the loop stands. `rest` is what is left of the batch; a token is a slot of the semaphore. */
  datatype Loop =
    | Selecting
    | InBatch(rest: seq<nat>)
    | HasToken(job: nat, rest: seq<nat>)
    | Counted(job: nat, rest: seq<nat>)
    | Draining
    | Returned

  /** Where a spawned goroutine stands: its deferred calls give the token back before they tell the wait group. */
  datatype Worker = Fetching | Fetched | TokenBack | Gone

  /** `claimed` and `spawned` list the feeds of all batches and of all fetches so far, in order. */
  datatype State = State(
    loop: Loop, cancelled: bool, tokens: nat, waiting: nat, workers: seq<Worker>,
    claimed: seq<nat>, spawned: seq<nat>, dropped: seq<nat>)

  datatype Step =
    | Cancel
    | ClaimBatch(due: seq<nat>)
    | StopSelecting
    | TakeToken
    | StopInBatch
    | EndBatch
    | AddToGroup
    | Spawn
    | FetchEnds(w: nat)
    | GiveBack(w: nat)
    | LeaveGroup(w: nat)
    | Return

  predicate Enabled(s: State, step: Step, limit: nat) {
    match step
    case Cancel => true
    case ClaimBatch(_) => s.loop.Selecting?
    case StopSelecting => s.loop.Selecting? && s.cancelled
    case TakeToken => s.loop.InBatch? && s.loop.rest != [] && s.tokens < limit
    case StopInBatch => s.loop.InBatch? && s.loop.rest != [] && s.cancelled
    case EndBatch => s.loop.InBatch? && s.loop.rest == []
    case AddToGroup => s.loop.HasToken?
    case Spawn => s.loop.Counted?
    case FetchEnds(w) => w < |s.workers| && s.workers[w].Fetching?
    case GiveBack(w) => w < |s.workers| && s.workers[w].Fetched? && s.tokens > 0
    case LeaveGroup(w) => w < |s.workers| && s.workers[w].TokenBack? && s.waiting > 0
    case Return => s.loop.Draining? && s.waiting == 0
  }

  function Apply(s: State, step: Step, limit: nat): State
    requires Enabled(s, step, limit)
  {
    match step
    case Cancel => s.(cancelled := true)
    case ClaimBatch(due) => s.(loop := InBatch(due), claimed := s.claimed + due)
    case StopSelecting => s.(loop := Draining)
    case TakeToken => s.(loop := HasToken(s.loop.rest[0], s.loop.rest[1..]), tokens := s.tokens + 1)
    case StopInBatch => s.(loop := Draining, dropped := s.loop.rest)
    case EndBatch => s.(loop := Selecting)
    case AddToGroup => s.(loop := Counted(s.loop.job, s.loop.rest), waiting := s.waiting + 1)
    case Spawn => s.(loop := InBatch(s.loop.rest), workers := s.workers + [Fetching], spawned := s.spawned + [s.loop.job])
    case FetchEnds(w) => s.(workers := s.workers[w := Fetched])
    case GiveBack(w) => s.(workers := s.workers[w := TokenBack], tokens := s.tokens - 1)
    case LeaveGroup(w) => s.(workers := s.workers[w := Gone], waiting := s.waiting - 1)
    case Return => s.(loop := Returned)
  }

  predicate Init(s: State) {
    && s.loop.Selecting? && !s.cancelled && s.tokens == 0 && s.waiting == 0
    && s.workers == [] && s.claimed == [] && s.spawned == [] && s.dropped == []
  }

  ghost predicate StepAt(states: seq<State>, steps: seq<Step>, limit: nat, i: nat)
    requires |states| == |steps| + 1 && i < |steps|
  {
    Enabled(states[i], steps[i], limit) && states[i + 1] == Apply(states[i], steps[i], limit)
  }

  ghost predicate Run(states: seq<State>, steps: seq<Step>, limit: nat) {
    |states| == |steps| + 1 && Init(states[0]) && forall i | 0 <= i < |steps| :: StepAt(states, steps, limit, i)
  }

  // ---- counting workers

  predicate KeepsToken(w: Worker) { w.Fetching? || w.Fetched? }

  function TokenHolders(workers: seq<Worker>): nat {
    if workers == [] then 0 else TokenHolders(workers[1..]) + if KeepsToken(workers[0]) then 1 else 0
  }

  function Alive(workers: seq<Worker>): nat {
    if workers == [] then 0 else Alive(workers[1..]) + if workers[0].Gone? then 0 else 1
  }

  lemma {:induction false} AppendWorker(workers: seq<Worker>, w: Worker)
    ensures TokenHolders(workers + [w]) == TokenHolders(workers) + if KeepsToken(w) then 1 else 0
    ensures Alive(workers + [w]) == Alive(workers) + if w.Gone? then 0 else 1
  {
    if workers == [] {
      assert [w][1..] == [];
    } else {
      AppendWorker(workers[1..], w);
      assert (workers + [w])[1..] == workers[1..] + [w];
    }
  }

  lemma {:induction false} MoveWorker(workers: seq<Worker>, i: nat, w: Worker)
    requires i < |workers|
    ensures TokenHolders(workers[i := w]) + (if KeepsToken(workers[i]) then 1 else 0)
         == TokenHolders(workers) + if KeepsToken(w) then 1 else 0
    ensures Alive(workers[i := w]) + (if workers[i].Gone? then 0 else 1)
         == Alive(workers) + if w.Gone? then 0 else 1
  {
    if i == 0 {
      assert workers[i := w][1..] == workers[1..];
    } else {
      MoveWorker(workers[1..], i - 1, w);
      assert workers[i := w][1..] == workers[1..][i - 1 := w];
    }
  }

  lemma {:induction false} SomeHolder(workers: seq<Worker>)
    ensures TokenHolders(workers) <= Alive(workers)
    ensures TokenHolders(workers) > 0 <==> exists i :: 0 <= i < |workers| && KeepsToken(workers[i])
    ensures Alive(workers) > 0 <==> exists i :: 0 <= i < |workers| && !workers[i].Gone?
  {
    if workers != [] {
      SomeHolder(workers[1..]);
      if KeepsToken(workers[0]) || !workers[0].Gone? {
      } else {
        assert forall i | 1 <= i < |workers| :: workers[i] == workers[1..][i - 1];
      }
      if i :| 0 <= i < |workers[1..]| && KeepsToken(workers[1..][i]) { assert KeepsToken(workers[i + 1]); }
      if i :| 0 <= i < |workers[1..]| && !workers[1..][i].Gone? { assert !workers[i + 1].Gone?; }
    }
  }

  // ---- the invariant

  function LoopTokens(l: Loop): nat { if l.HasToken? || l.Counted? then 1 else 0 }

  function LoopCounted(l: Loop): nat { if l.Counted? then 1 else 0 }

  /** What the loop still has to do of the batch. */
  function Pending(s: State): seq<nat> {
    match s.loop
    case InBatch(rest) => rest
    case HasToken(job, rest) => [job] + rest
    case Counted(job, rest) => [job] + rest
    case _ => s.dropped
  }

  ghost predicate Inv(s: State, limit: nat) {
    && s.tokens == TokenHolders(s.workers) + LoopTokens(s.loop)
    && s.waiting == Alive(s.workers) + LoopCounted(s.loop)
    && s.tokens <= limit
    && s.claimed == s.spawned + Pending(s)
    && |s.workers| == |s.spawned|
    && (!s.loop.Draining? && !s.loop.Returned? ==> s.dropped == [])
    && (s.loop.Returned? ==> s.waiting == 0)
  }

  lemma InvStep(s: State, step: Step, limit: nat)
    requires Inv(s, limit) && Enabled(s, step, limit)
    ensures Inv(Apply(s, step, limit), limit)
  {
    match step
    case ClaimBatch(due) => assert s.claimed + due == s.spawned + due;
    case TakeToken => assert s.loop.rest == [s.loop.rest[0]] + s.loop.rest[1..];
    case Spawn =>
      AppendWorker(s.workers, Fetching);
      assert s.spawned + ([s.loop.job] + s.loop.rest) == (s.spawned + [s.loop.job]) + s.loop.rest;
    case FetchEnds(_) => InvWorker(s, step, limit);
    case GiveBack(_) => InvWorker(s, step, limit);
    case LeaveGroup(_) => InvWorker(s, step, limit);
    case _ =>
  }

  lemma InvWorker(s: State, step: Step, limit: nat)
    requires Inv(s, limit) && Enabled(s, step, limit) && ByWorker(step)
    ensures Inv(Apply(s, step, limit), limit)
  {
    match step
    case FetchEnds(w) => MoveWorker(s.workers, w, Fetched);
    case GiveBack(w) => MoveWorker(s.workers, w, TokenBack);
    case LeaveGroup(w) => MoveWorker(s.workers, w, Gone);
  }

  lemma {:induction false} InvAlways(states: seq<State>, steps: seq<Step>, limit: nat, n: nat)
    requires Run(states, steps, limit) && n <= |steps|
    ensures Inv(states[n], limit)
  {
    if n > 0 {
      InvAlways(states, steps, limit, n - 1);
      assert StepAt(states, steps, limit, n - 1);
      InvStep(states[n - 1], steps[n - 1], limit);
    } else {
      assert states[0].workers == [] && Pending(states[0]) == [];
    }
  }

  // ---- what a run guarantees

  /** At every moment: at most `limit` fetches hold a token, tokens never exceed the wait group by more than
      the one the loop itself holds, and the fetches spawned so far are, in order, the first of the feeds
      claimed: none is spawned twice, none is skipped. */
  lemma PoolBounded(states: seq<State>, steps: seq<Step>, limit: nat, n: nat)
    requires Run(states, steps, limit) && n <= |steps|
    ensures var s := states[n];
      && TokenHolders(s.workers) <= s.tokens <= limit
      && s.tokens <= s.waiting + LoopTokens(s.loop) - LoopCounted(s.loop)
      && s.spawned <= s.claimed && |s.workers| == |s.spawned|
      && (s.loop.Selecting? ==> s.spawned == s.claimed)
  {
    InvAlways(states, steps, limit, n);
    SomeHolder(states[n].workers);
  }

  /** When the loop has returned, by either way out, no fetch it spawned is alive, every token is back, and
      what was claimed but not spawned is the tail of the last batch. */
  lemma ReturnsClean(states: seq<State>, steps: seq<Step>, limit: nat, n: nat)
    requires Run(states, steps, limit) && n <= |steps| && states[n].loop.Returned?
    ensures var s := states[n];
      && s.tokens == 0 && s.waiting == 0
      && (forall w | 0 <= w < |s.workers| :: s.workers[w].Gone?)
      && s.claimed == s.spawned + s.dropped
  {
    InvAlways(states, steps, limit, n);
    SomeHolder(states[n].workers);
  }

  predicate ByWorker(step: Step) { step.FetchEnds? || step.GiveBack? || step.LeaveGroup? }

  ghost predicate WorkersCanStep(s: State, limit: nat) {
    exists step :: ByWorker(step) && Enabled(s, step, limit)
  }

  /** A goroutine's deferred receive and its Done never wait. */
  lemma DefersNeverBlock(s: State, limit: nat, w: nat)
    requires Inv(s, limit) && w < |s.workers|
    ensures s.workers[w].Fetched? ==> Enabled(s, GiveBack(w), limit)
    ensures s.workers[w].TokenBack? ==> Enabled(s, LeaveGroup(w), limit)
  {
    SomeHolder(s.workers);
  }

  /** The loop never waits in vain: when it has to wait for a token, or for the wait group, some goroutine it
      spawned can go on. With no workers at all it would wait for a token that nobody has. */
  lemma LoopIsServed(s: State, limit: nat)
    requires Inv(s, limit)
    requires (s.loop.InBatch? && s.loop.rest != [] && s.tokens == limit && limit > 0) || (s.loop.Draining? && s.waiting > 0)
    ensures WorkersCanStep(s, limit)
  {
    SomeHolder(s.workers);
    var w :| 0 <= w < |s.workers| && !s.workers[w].Gone?;
    DefersNeverBlock(s, limit, w);
    var step := match s.workers[w] case Fetching => FetchEnds(w) case Fetched => GiveBack(w) case _ => LeaveGroup(w);
    assert ByWorker(step) && Enabled(s, step, limit);
  }

  predicate Stopped(s: State) { s.loop.Draining? || s.loop.Returned? }

  /** The loop stops only when it is told to. */
  lemma {:induction false} StopsWhenCancelled(states: seq<State>, steps: seq<Step>, limit: nat, n: nat)
    requires Run(states, steps, limit) && n <= |steps| && Stopped(states[n])
    ensures states[n].cancelled
  {
    if n > 0 {
      assert StepAt(states, steps, limit, n - 1);
      if Stopped(states[n - 1]) {
        StopsWhenCancelled(states, steps, limit, n - 1);
      }
    }
  }

  /** With a job left it takes a token whenever one is free, and then spawns the fetch of that very job. */
  lemma JobIsSpawned(s: State, limit: nat)
    requires s.loop.InBatch? && s.loop.rest != []
    ensures Enabled(s, TakeToken, limit) <==> s.tokens < limit
    ensures s.tokens < limit ==>
      && var taken := Apply(s, TakeToken, limit);
      && Enabled(taken, AddToGroup, limit)
      && var counted := Apply(taken, AddToGroup, limit);
      && Enabled(counted, Spawn, limit)
      && Apply(counted, Spawn, limit) == s.(
           loop := InBatch(s.loop.rest[1..]), tokens := s.tokens + 1, waiting := s.waiting + 1,
           workers := s.workers + [Fetching], spawned := s.spawned + [s.loop.rest[0]])
  {}

  /** A claim takes up its whole batch, and a loop that is told to stop within one leaves all that is left of it. */
  lemma BatchesMean(s: State, due: seq<nat>, limit: nat)
    ensures s.loop.Selecting? ==>
      Enabled(s, ClaimBatch(due), limit) && Apply(s, ClaimBatch(due), limit) == s.(loop := InBatch(due), claimed := s.claimed + due)
    ensures s.loop.InBatch? && s.loop.rest != [] ==>
      && (Enabled(s, StopInBatch, limit) <==> s.cancelled)
      && (s.cancelled ==> Apply(s, StopInBatch, limit) == s.(loop := Draining, dropped := s.loop.rest))
    ensures s.loop.InBatch? && s.loop.rest == [] ==>
      Enabled(s, EndBatch, limit) && Apply(s, EndBatch, limit) == s.(loop := Selecting)
    ensures s.loop.Selecting? && s.cancelled ==>
      Enabled(s, StopSelecting, limit) && Apply(s, StopSelecting, limit) == s.(loop := Draining)
  {}

  /** Stopping is final: nothing is claimed or spawned any more. */
  lemma {:induction false} StopIsFinal(states: seq<State>, steps: seq<Step>, limit: nat, i: nat, j: nat)
    requires Run(states, steps, limit) && i <= j <= |steps| && Stopped(states[i])
    ensures Stopped(states[j]) && states[j].claimed == states[i].claimed && states[j].spawned == states[i].spawned
  {
    if i < j {
      StopIsFinal(states, steps, limit, i, j - 1);
      assert StepAt(states, steps, limit, j - 1);
    }
  }
}
