/** One request at a time per host, with a gap between them: acquire and release, run by any number of
    goroutines. A step is what one goroutine does between two points where others may run. */
module HostLimiter {
  import opened Rows
  import opened RowIds

  /** Where a goroutine stands. From `Locking` on it knows its slot; from `Measuring` on it holds the slot's
      mutex. `Holding` is between acquire's return and the call of its release function. */
  datatype Pc =
    | Outside
    | Entering(host: string)
    | Looking(host: string)
    | Found(host: string, slot: nat)
    | Locking(host: string, slot: nat)
    | Measuring(host: string, slot: nat)
    | Sleeping(host: string, slot: nat, wake: int)
    | Holding(host: string, slot: nat, since: int)
    | Stamped(host: string, slot: nat)

  datatype Slot = Slot(mutex: Option<nat>, last: Option<int>)

  /** A finished use of a host: acquire returned at `from`, release was called at `to`. */
  datatype Session = Session(from: int, to: int)

  datatype State = State(
    mutex: Option<nat>, slots: map<string, nat>, cells: map<nat, Slot>,
    threads: map<nat, Pc>, clock: int,
    done: map<string, seq<Session>>)

  datatype Step =
    | Tick(now: int)
    | Call(th: nat, host: string)
    | LockMap(th: nat)
    | Look(th: nat, unused: nat)
    | UnlockMap(th: nat)
    | LockSlot(th: nat)
    | Measure(th: nat)
    | Wake(th: nat)
    | Stamp(th: nat)
    | UnlockSlot(th: nat)

  function PcOf(s: State, th: nat): Pc { if th in s.threads then s.threads[th] else Outside }

  function Done(s: State, host: string): seq<Session> { if host in s.done then s.done[host] else [] }

  predicate Enabled(s: State, step: Step) {
    match step
    case Tick(now) => s.clock <= now
    case Call(th, _) => PcOf(s, th).Outside?
    case LockMap(th) => PcOf(s, th).Entering? && s.mutex.None?
    case Look(th, unused) => PcOf(s, th).Looking? && unused !in s.cells
    case UnlockMap(th) => PcOf(s, th).Found?
    case LockSlot(th) => PcOf(s, th).Locking? && PcOf(s, th).slot in s.cells && s.cells[PcOf(s, th).slot].mutex.None?
    case Measure(th) => PcOf(s, th).Measuring? && PcOf(s, th).slot in s.cells
    case Wake(th) => PcOf(s, th).Sleeping? && PcOf(s, th).wake <= s.clock
    case Stamp(th) => PcOf(s, th).Holding? && PcOf(s, th).slot in s.cells
    case UnlockSlot(th) => PcOf(s, th).Stamped? && PcOf(s, th).slot in s.cells
  }

  /** gap - time.Since(last); a slot never used has no last time and nothing to wait for. */
  function Wait(gap: int, last: Option<int>, clock: int): int {
    if last.None? then 0 else gap - (clock - last.value)
  }

  function Apply(s: State, step: Step, gap: int): State
    requires Enabled(s, step)
  {
    match step
    case Tick(now) => s.(clock := now)
    case Call(th, host) => s.(threads := s.threads[th := Entering(host)])
    case LockMap(th) => s.(mutex := Some(th), threads := s.threads[th := Looking(PcOf(s, th).host)])
    case Look(th, unused) =>
      var host := PcOf(s, th).host;
      if host in s.slots then s.(threads := s.threads[th := Found(host, s.slots[host])])
      else s.(slots := s.slots[host := unused], cells := s.cells[unused := Slot(None, None)],
              threads := s.threads[th := Found(host, unused)])
    case UnlockMap(th) => s.(mutex := None, threads := s.threads[th := Locking(PcOf(s, th).host, PcOf(s, th).slot)])
    case LockSlot(th) =>
      var p := PcOf(s, th);
      s.(cells := s.cells[p.slot := s.cells[p.slot].(mutex := Some(th))],
         threads := s.threads[th := Measuring(p.host, p.slot)])
    case Measure(th) =>
      var p := PcOf(s, th);
      var wait := Wait(gap, s.cells[p.slot].last, s.clock);
      s.(threads := s.threads[th := if wait > 0 then Sleeping(p.host, p.slot, s.clock + wait) else Holding(p.host, p.slot, s.clock)])
    case Wake(th) =>
      var p := PcOf(s, th);
      s.(threads := s.threads[th := Holding(p.host, p.slot, s.clock)])
    case Stamp(th) =>
      var p := PcOf(s, th);
      s.(cells := s.cells[p.slot := s.cells[p.slot].(last := Some(s.clock))],
         threads := s.threads[th := Stamped(p.host, p.slot)],
         done := s.done[p.host := Done(s, p.host) + [Session(p.since, s.clock)]])
    case UnlockSlot(th) =>
      var p := PcOf(s, th);
      s.(cells := s.cells[p.slot := s.cells[p.slot].(mutex := None)], threads := s.threads[th := Outside])
  }

  // ---- runs

  predicate Init(s: State) {
    s.mutex.None? && s.slots == map[] && s.cells == map[] && s.threads == map[] && s.done == map[]
  }

  ghost predicate StepAt(states: seq<State>, steps: seq<Step>, gap: int, i: nat)
    requires |states| == |steps| + 1 && i < |steps|
  {
    Enabled(states[i], steps[i]) && states[i + 1] == Apply(states[i], steps[i], gap)
  }

  ghost predicate Segment(states: seq<State>, steps: seq<Step>, gap: int) {
    |states| == |steps| + 1 && forall i | 0 <= i < |steps| :: StepAt(states, steps, gap, i)
  }

  // ---- the invariant

  predicate HoldsMap(p: Pc) { p.Looking? || p.Found? }

  predicate KnowsSlot(p: Pc) { p.Found? || p.Locking? || HoldsSlot(p) }

  predicate HoldsSlot(p: Pc) { p.Measuring? || p.Sleeping? || p.Holding? || p.Stamped? }

  function AtLeastGap(gap: int): int { if gap > 0 then gap else 0 }

  /** Uses of one host, in order: each begins at least the gap after every earlier one was released. */
  predicate Spaced(done: seq<Session>, gap: int) {
    && (forall i | 0 <= i < |done| :: done[i].from <= done[i].to)
    && (forall i, j | 0 <= i < j < |done| :: done[j].from >= done[i].to + AtLeastGap(gap))
  }

  /** `t` is at least the gap after every release. */
  predicate After(done: seq<Session>, gap: int, t: int) {
    forall i | 0 <= i < |done| :: t >= done[i].to + AtLeastGap(gap)
  }

  predicate LastIs(done: seq<Session>, last: Option<int>) {
    if done == [] then last.None? else last == Some(done[|done| - 1].to)
  }

  predicate Reached(done: seq<Session>, clock: int) { forall i | 0 <= i < |done| :: done[i].to <= clock }

  ghost predicate Slots(s: State) {
    && (forall g, h | g in s.slots && h in s.slots && s.slots[g] == s.slots[h] :: g == h)
    && (forall h | h in s.slots :: s.slots[h] in s.cells)
    && (forall h | h in s.done :: h in s.slots)
  }

  ghost predicate MapMutex(s: State) {
    forall th: nat :: s.mutex == Some(th) <==> HoldsMap(PcOf(s, th))
  }

  ghost predicate SlotsKnown(s: State) {
    forall th: nat | KnowsSlot(PcOf(s, th)) :: PcOf(s, th).host in s.slots && s.slots[PcOf(s, th).host] == PcOf(s, th).slot
  }

  predicate HoldsCell(p: Pc, c: nat) { HoldsSlot(p) && p.slot == c }

  ghost predicate CellMutexes(s: State) {
    forall c, th: nat | c in s.cells :: s.cells[c].mutex == Some(th) <==> HoldsCell(PcOf(s, th), c)
  }

  ghost predicate Mutexes(s: State) { MapMutex(s) && SlotsKnown(s) && CellMutexes(s) }

  /** What the holder of a slot knows of the host's past. */
  predicate Position(s: State, p: Pc, gap: int) {
    match p
    case Sleeping(host, _, wake) => After(Done(s, host), gap, wake) && Reached(Done(s, host), wake)
    case Holding(host, _, since) => After(Done(s, host), gap, since) && since <= s.clock
    case _ => true
  }

  ghost predicate Times(s: State, gap: int)
    requires Slots(s)
  {
    && (forall h | h in s.slots :: && Spaced(Done(s, h), gap) && Reached(Done(s, h), s.clock)
          && LastIs(Done(s, h), s.cells[s.slots[h]].last))
    && (forall th: nat :: Position(s, PcOf(s, th), gap))
  }

  ghost predicate Inv(s: State, gap: int) { Slots(s) && Mutexes(s) && Times(s, gap) }

  lemma SlotsStep(s: State, step: Step, gap: int)
    requires Slots(s) && Mutexes(s) && Enabled(s, step)
    ensures Slots(Apply(s, step, gap))
  {}

  /** Only the stepping goroutine moves. */
  lemma OthersStay(s: State, step: Step, gap: int)
    requires Enabled(s, step)
    ensures forall th: nat | step.Tick? || th != step.th :: PcOf(Apply(s, step, gap), th) == PcOf(s, th)
  {}

  lemma MapMutexStep(s: State, step: Step, gap: int)
    requires MapMutex(s) && Enabled(s, step)
    ensures MapMutex(Apply(s, step, gap))
  {
    OthersStay(s, step, gap);
  }

  lemma SlotsKnownStep(s: State, step: Step, gap: int)
    requires SlotsKnown(s) && Slots(s) && Enabled(s, step)
    ensures SlotsKnown(Apply(s, step, gap))
  {
    OthersStay(s, step, gap);
  }

  lemma CellMutexesStep(s: State, step: Step, gap: int)
    requires CellMutexes(s) && SlotsKnown(s) && Slots(s) && Enabled(s, step)
    ensures CellMutexes(Apply(s, step, gap))
  {
    OthersStay(s, step, gap);
    var r := Apply(s, step, gap);
    forall c, th: nat | c in r.cells ensures r.cells[c].mutex == Some(th) <==> HoldsCell(PcOf(r, th), c) {
      if c in s.cells {
        assert s.cells[c].mutex == Some(th) <==> HoldsCell(PcOf(s, th), c);
        if !step.Tick? {
          assert s.cells[c].mutex == Some(step.th) <==> HoldsCell(PcOf(s, step.th), c);
        }
      }
    }
  }

  /** The slot's last release is the latest of all, so waiting the gap out after it is waiting it out after
      every earlier one. */
  lemma AfterLast(done: seq<Session>, gap: int, last: Option<int>, t: int)
    requires Spaced(done, gap) && LastIs(done, last)
    requires last.Some? ==> t >= last.value + AtLeastGap(gap)
    ensures After(done, gap, t)
  {
    var n := |done| - 1;
    forall i | 0 <= i < |done| ensures t >= done[i].to + AtLeastGap(gap) {
      if i < n {
        assert done[n].from >= done[i].to + AtLeastGap(gap);
      }
    }
  }

  /** A step that releases nothing keeps the host's past; the stepping goroutine must know its position. */
  lemma PastStays(s: State, r: State, th: nat, gap: int)
    requires Slots(s) && Slots(r) && Times(s, gap) && r.done == s.done && s.clock <= r.clock
    requires forall h | h in s.slots :: h in r.slots && r.cells[r.slots[h]].last == s.cells[s.slots[h]].last
    requires forall h | h in r.slots && h !in s.slots :: r.cells[r.slots[h]].last.None?
    requires forall x: nat | x != th :: PcOf(r, x) == PcOf(s, x)
    requires Position(r, PcOf(r, th), gap)
    ensures Times(r, gap)
  {
    forall x: nat ensures Position(r, PcOf(r, x), gap) {
      assert Position(s, PcOf(s, x), gap);
      PositionKept(s, r, PcOf(s, x), gap);
    }
    forall h | h in r.slots
      ensures Spaced(Done(r, h), gap) && Reached(Done(r, h), r.clock) && LastIs(Done(r, h), r.cells[r.slots[h]].last)
    {
      assert Done(r, h) == Done(s, h);
      assert h !in s.slots ==> h !in s.done;
    }
  }

  lemma PositionKept(s: State, r: State, p: Pc, gap: int)
    requires Position(s, p, gap) && r.done == s.done && s.clock <= r.clock
    ensures Position(r, p, gap)
  {
    assert !p.Outside? ==> Done(r, p.host) == Done(s, p.host);
  }

  /** What measuring finds out: once the wait is over, the gap has passed after every release. */
  lemma MeasuredWait(done: seq<Session>, gap: int, last: Option<int>, clock: int)
    requires Spaced(done, gap) && LastIs(done, last) && Reached(done, clock)
    ensures var wait := Wait(gap, last, clock);
      if wait > 0 then After(done, gap, clock + wait) && Reached(done, clock + wait) else After(done, gap, clock)
  {
    var wait := Wait(gap, last, clock);
    AfterLast(done, gap, last, if wait > 0 then clock + wait else clock);
  }

  lemma MeasureTimes(s: State, th: nat, gap: int)
    requires Inv(s, gap) && Enabled(s, Measure(th)) && Slots(Apply(s, Measure(th), gap))
    ensures Times(Apply(s, Measure(th), gap), gap)
  {
    var p := PcOf(s, th);
    assert KnowsSlot(p) && p.host in s.slots && s.slots[p.host] == p.slot;
    MeasuredWait(Done(s, p.host), gap, s.cells[p.slot].last, s.clock);
    OthersStay(s, Measure(th), gap);
    LastStays(s, Measure(th), gap);
    PastStays(s, Apply(s, Measure(th), gap), th, gap);
  }

  lemma StampPosition(s: State, th: nat, gap: int, x: nat)
    requires Inv(s, gap) && Enabled(s, Stamp(th))
    ensures Position(Apply(s, Stamp(th), gap), PcOf(Apply(s, Stamp(th), gap), x), gap)
  {
    var p, q := PcOf(s, th), PcOf(s, x);
    assert Position(s, q, gap);
    if x != th && HoldsSlot(q) && q.host == p.host {
      OneHolder(s, x, th);
    }
  }

  lemma StampPast(s: State, th: nat, gap: int, h: string)
    requires Inv(s, gap) && Enabled(s, Stamp(th)) && h in s.slots
    ensures var r := Apply(s, Stamp(th), gap);
      && h in r.slots && r.slots[h] in r.cells
      && Spaced(Done(r, h), gap) && Reached(Done(r, h), r.clock) && LastIs(Done(r, h), r.cells[r.slots[h]].last)
  {
    var p := PcOf(s, th);
    assert Position(s, p, gap) && KnowsSlot(p) && p.host in s.slots && s.slots[p.host] == p.slot;
    assert Spaced(Done(s, h), gap) && Reached(Done(s, h), s.clock) && LastIs(Done(s, h), s.cells[s.slots[h]].last);
    if h == p.host {
      SpacedAppend(Done(s, h), gap, p.since, s.clock);
    } else {
      assert s.slots[h] != p.slot;
    }
  }

  lemma StampTimes(s: State, th: nat, gap: int)
    requires Inv(s, gap) && Enabled(s, Stamp(th)) && Slots(Apply(s, Stamp(th), gap))
    ensures Times(Apply(s, Stamp(th), gap), gap)
  {
    var r := Apply(s, Stamp(th), gap);
    forall x: nat ensures Position(r, PcOf(r, x), gap) { StampPosition(s, th, gap, x); }
    forall h | h in r.slots
      ensures Spaced(Done(r, h), gap) && Reached(Done(r, h), r.clock) && LastIs(Done(r, h), r.cells[r.slots[h]].last)
    {
      StampPast(s, th, gap, h);
    }
  }

  lemma SpacedAppend(done: seq<Session>, gap: int, from: int, to: int)
    requires Spaced(done, gap) && After(done, gap, from) && from <= to && Reached(done, to)
    ensures Spaced(done + [Session(from, to)], gap) && Reached(done + [Session(from, to)], to)
  {}

  /** Two holders of one host are one. */
  lemma OneHolder(s: State, x: nat, y: nat)
    requires Slots(s) && Mutexes(s)
    requires HoldsSlot(PcOf(s, x)) && HoldsSlot(PcOf(s, y)) && PcOf(s, x).host == PcOf(s, y).host
    ensures x == y
  {
    var c := s.slots[PcOf(s, x).host];
    assert HoldsCell(PcOf(s, x), c) && HoldsCell(PcOf(s, y), c);
  }

  lemma LastStays(s: State, step: Step, gap: int)
    requires Slots(s) && Enabled(s, step) && !step.Stamp? && Slots(Apply(s, step, gap))
    ensures var r := Apply(s, step, gap);
      && r.done == s.done && s.clock <= r.clock
      && (forall h | h in s.slots :: h in r.slots && r.cells[r.slots[h]].last == s.cells[s.slots[h]].last)
      && (forall h | h in r.slots && h !in s.slots :: r.cells[r.slots[h]].last.None?)
  {}

  lemma OwnPosition(s: State, step: Step, gap: int, th: nat)
    requires Slots(s) && Times(s, gap) && Enabled(s, step) && !step.Measure? && !step.Stamp?
    ensures Position(Apply(s, step, gap), PcOf(Apply(s, step, gap), th), gap)
  {
    var p, r := PcOf(s, th), Apply(s, step, gap);
    assert Position(s, p, gap);
    assert r.done == s.done && s.clock <= r.clock;
    if step.Wake? && step.th == th {
      assert Done(r, p.host) == Done(s, p.host);
    } else {
      PositionKept(s, r, p, gap);
    }
  }

  lemma OtherTimes(s: State, step: Step, gap: int)
    requires Inv(s, gap) && Enabled(s, step) && !step.Measure? && !step.Stamp? && Slots(Apply(s, step, gap))
    ensures Times(Apply(s, step, gap), gap)
  {
    var th := if step.Tick? then 0 else step.th;
    OthersStay(s, step, gap);
    LastStays(s, step, gap);
    OwnPosition(s, step, gap, th);
    PastStays(s, Apply(s, step, gap), th, gap);
  }

  lemma InvStep(s: State, step: Step, gap: int)
    requires Inv(s, gap) && Enabled(s, step)
    ensures Inv(Apply(s, step, gap), gap)
  {
    SlotsStep(s, step, gap);
    MapMutexStep(s, step, gap);
    SlotsKnownStep(s, step, gap);
    CellMutexesStep(s, step, gap);
    match step
    case Measure(th) => MeasureTimes(s, th, gap);
    case Stamp(th) => StampTimes(s, th, gap);
    case _ => OtherTimes(s, step, gap);
  }

  lemma {:induction false} InvAlways(states: seq<State>, steps: seq<Step>, gap: int, n: nat)
    requires Segment(states, steps, gap) && Init(states[0]) && n <= |steps|
    ensures Inv(states[n], gap)
  {
    if n > 0 {
      InvAlways(states, steps, gap, n - 1);
      assert StepAt(states, steps, gap, n - 1);
      InvStep(states[n - 1], steps[n - 1], gap);
    }
  }

  // ---- what a run guarantees

  /** At every moment of every run: a host has at most one holder; its finished uses are in order, each
      beginning at least the gap after every earlier release; and so does the use in progress. */
  lemma OneAtATime(states: seq<State>, steps: seq<Step>, gap: int, n: nat, host: string)
    requires Segment(states, steps, gap) && Init(states[0]) && n <= |steps|
    ensures var s := states[n];
      && Spaced(Done(s, host), gap) && Reached(Done(s, host), s.clock)
      && (forall x: nat, y: nat | PcOf(s, x).Holding? && PcOf(s, y).Holding? && PcOf(s, x).host == PcOf(s, y).host == host :: x == y)
      && (forall x: nat | PcOf(s, x).Holding? && PcOf(s, x).host == host :: After(Done(s, host), gap, PcOf(s, x).since))
  {
    InvAlways(states, steps, gap, n);
    var s := states[n];
    forall x: nat, y: nat | PcOf(s, x).Holding? && PcOf(s, y).Holding? && PcOf(s, x).host == PcOf(s, y).host == host ensures x == y {
      OneHolder(s, x, y);
    }
    forall x: nat | PcOf(s, x).Holding? && PcOf(s, x).host == host ensures After(Done(s, host), gap, PcOf(s, x).since) {
      assert Position(s, PcOf(s, x), gap);
    }
  }

  /** Once created, a host's slot is never replaced. */
  lemma {:induction false} SlotStays(states: seq<State>, steps: seq<Step>, gap: int, i: nat, j: nat, host: string)
    requires Segment(states, steps, gap) && i <= j <= |steps| && host in states[i].slots
    ensures host in states[j].slots && states[j].slots[host] == states[i].slots[host]
  {
    if i < j {
      SlotStays(states, steps, gap, i, j - 1, host);
      assert StepAt(states, steps, gap, j - 1);
    }
  }

  /** What the goroutine does next. */
  function NextStep(s: State, th: nat, unused: nat): Step
    requires !PcOf(s, th).Outside?
  {
    match PcOf(s, th)
    case Entering(_) => LockMap(th)
    case Looking(_) => Look(th, unused)
    case Found(_, _) => UnlockMap(th)
    case Locking(_, _) => LockSlot(th)
    case Measuring(_, _) => Measure(th)
    case Sleeping(_, _, _) => Wake(th)
    case Holding(_, _, _) => Step.Stamp(th)
    case Stamped(_, _) => UnlockSlot(th)
  }

  /** The goroutine can go on, at once or when the clock has come far enough. */
  ghost predicate CanGoOn(s: State, th: nat) {
    !PcOf(s, th).Outside? && exists now: int, unused: nat :: s.clock <= now && Enabled(s.(clock := now), NextStep(s, th, unused))
  }

  /** No deadlock, in any reachable state: a goroutine inside acquire or release can go on, or it waits for a
      mutex whose holder can. */
  lemma NeverDeadlocked(s: State, gap: int, th: nat)
    requires Inv(s, gap) && !PcOf(s, th).Outside?
    ensures CanGoOn(s, th) ||
      exists other: nat :: other != th && CanGoOn(s, other)
        && ((PcOf(s, th).Entering? && s.mutex == Some(other))
            || (PcOf(s, th).Locking? && s.cells[PcOf(s, th).slot].mutex == Some(other)))
  {
    match PcOf(s, th)
    case Entering(_) =>
      if s.mutex.None? {
        RunnerGoesOn(s, gap, th);
      } else {
        RunnerGoesOn(s, gap, s.mutex.value);
      }
    case Locking(_, slot) =>
      if s.cells[slot].mutex.None? {
        RunnerGoesOn(s, gap, th);
      } else {
        RunnerGoesOn(s, gap, s.cells[slot].mutex.value);
      }
    case _ => RunnerGoesOn(s, gap, th);
  }

  lemma RunnerGoesOn(s: State, gap: int, th: nat)
    requires Inv(s, gap) && !PcOf(s, th).Outside?
    requires PcOf(s, th).Entering? ==> s.mutex.None?
    requires PcOf(s, th).Locking? ==> s.cells[PcOf(s, th).slot].mutex.None?
    ensures CanGoOn(s, th)
  {
    var p := PcOf(s, th);
    var now := if p.Sleeping? && p.wake > s.clock then p.wake else s.clock;
    var unused := UnusedCell(s.cells.Keys);
    assert PcOf(s.(clock := now), th) == p;
    assert Enabled(s.(clock := now), NextStep(s, th, unused));
  }

  lemma UnusedCell(cells: set<nat>) returns (c: nat)
    ensures c !in cells
  {
    c := NextRowId(cells);
  }

  /** No use waits for longer than it must: having the slot, acquire returns at once if the host was never used or
      the gap has passed since its last release, and sleeps up to that moment otherwise. */
  lemma WaitsExactly(s: State, th: nat, gap: int)
    requires Inv(s, gap) && Enabled(s, Measure(th))
    ensures var p, r := PcOf(s, th), Apply(s, Measure(th), gap);
      var done := Done(s, p.host);
      PcOf(r, th) == if done == [] || done[|done| - 1].to + gap <= s.clock then Holding(p.host, p.slot, s.clock)
                     else Sleeping(p.host, p.slot, done[|done| - 1].to + gap)
  {
    LastRelease(s, th, gap);
  }

  /** The slot a goroutine holds records the last release of its host. */
  lemma LastRelease(s: State, th: nat, gap: int)
    requires Inv(s, gap) && Enabled(s, Measure(th))
    ensures LastIs(Done(s, PcOf(s, th).host), s.cells[PcOf(s, th).slot].last)
  {
    assert KnowsSlot(PcOf(s, th)) && s.slots[PcOf(s, th).host] == PcOf(s, th).slot;
  }

  lemma WakesWhenDue(s: State, th: nat, gap: int)
    requires PcOf(s, th).Sleeping?
    ensures Enabled(s, Wake(th)) <==> PcOf(s, th).wake <= s.clock
    ensures PcOf(s, th).wake <= s.clock ==>
      PcOf(Apply(s, Wake(th), gap), th) == Holding(PcOf(s, th).host, PcOf(s, th).slot, s.clock)
  {}
}
