/** A feed's fetch history, and the counters of its state row as functions of it. */
module History {
  import opened Rows
  import opened Intervals

  /** What one recorded fetch leaves behind; `at` in nanoseconds. */
  datatype Event =
    | Good(etag: string, at: int, newItems: int)
    | Bad(status: int, at: int)

  /** How many errors end the history. */
  function TrailingErrors(h: seq<Event>): nat {
    if h != [] && h[|h| - 1].Bad? then 1 + TrailingErrors(h[..|h| - 1]) else 0
  }

  /** How many good fetches without new items there were since the last one with some; errors in between
      do not matter. */
  function QuietRun(h: seq<Event>): nat {
    if h == [] then 0 else
      match h[|h| - 1]
      case Good(_, _, n) => if n > 0 then 0 else 1 + QuietRun(h[..|h| - 1])
      case Bad(_, _) => QuietRun(h[..|h| - 1])
  }

  function LastEtag(h: seq<Event>): string {
    if h == [] then "" else
      match h[|h| - 1]
      case Good(etag, _, _) => OrElse(etag, LastEtag(h[..|h| - 1]))
      case Bad(_, _) => LastEtag(h[..|h| - 1])
  }

  function LastGood(h: seq<Event>): Option<int> {
    if h == [] then None else
      match h[|h| - 1]
      case Good(_, at, _) => Some(Unix(at))
      case Bad(_, _) => LastGood(h[..|h| - 1])
  }

  /** The row's counters are what the history says. */
  ghost predicate Folds(st: FetchState, h: seq<Event>) {
    && st.failCount == TrailingErrors(h)
    && st.quietPolls == QuietRun(h)
    && st.etag == LastEtag(h)
    && st.lastOkAt == LastGood(h)
  }

  // ---- the same counters, read off the positions of the history

  /** `n` is the length of the longest all-error ending. */
  lemma {:induction false} TrailingErrorsAre(h: seq<Event>, n: nat)
    ensures n == TrailingErrors(h) <==>
      && n <= |h|
      && (forall i | |h| - n <= i < |h| :: h[i].Bad?)
      && (n < |h| ==> h[|h| - n - 1].Good?)
  {
    if h != [] && h[|h| - 1].Bad? && n > 0 {
      TrailingErrorsAre(h[..|h| - 1], n - 1);
    } else if h != [] && h[|h| - 1].Bad? {
      assert h[|h| - n - 1].Bad?;
    }
  }

  lemma TrailingErrorsAtLeast(h: seq<Event>, n: nat)
    ensures n <= TrailingErrors(h) <==> n <= |h| && forall i | |h| - n <= i < |h| :: h[i].Bad?
  {
    var t := TrailingErrors(h);
    TrailingErrorsAre(h, t);
    if t < n <= |h| {
      assert h[|h| - t - 1].Good?;
    }
  }

  function GoodSince(h: seq<Event>, from: nat): set<nat>
    requires from <= |h|
  {
    set i: nat | from <= i < |h| && h[i].Good?
  }

  predicate Brings(e: Event) { e.Good? && e.newItems > 0 }

  /** The good fetches after the last one that brought something are exactly the quiet run. */
  lemma {:induction false} QuietRunIs(h: seq<Event>, from: nat)
    requires from <= |h|
    requires from == 0 || Brings(h[from - 1])
    requires forall i | from <= i < |h| :: !Brings(h[i])
    ensures QuietRun(h) == |GoodSince(h, from)|
  {
    if from < |h| {
      QuietRunIs(h[..|h| - 1], from);
      GoodSinceStep(h, from);
    } else {
      QuietRunStops(h);
      assert GoodSince(h, from) == {};
    }
  }

  lemma GoodSinceStep(h: seq<Event>, from: nat)
    requires from < |h|
    ensures |GoodSince(h, from)| == |GoodSince(h[..|h| - 1], from)| + if h[|h| - 1].Good? then 1 else 0
  {
    var n := |h| - 1;
    var own: set<nat> := if h[n].Good? then {n} else {};
    assert GoodSince(h, from) == GoodSince(h[..n], from) + own;
  }

  lemma QuietRunStops(h: seq<Event>)
    requires h == [] || Brings(h[|h| - 1])
    ensures QuietRun(h) == 0
  {}

  /** Empty iff no good fetch ever brought one; otherwise the last one that is not empty. */
  lemma {:induction false} LastEtagIs(h: seq<Event>)
    ensures LastEtag(h) == "" <==> forall i | 0 <= i < |h| && h[i].Good? :: h[i].etag == ""
    ensures forall i | 0 <= i < |h| && h[i].Good? && h[i].etag != ""
        && (forall j | i < j < |h| && h[j].Good? :: h[j].etag == "") :: LastEtag(h) == h[i].etag
  {
    if h != [] {
      LastEtagIs(h[..|h| - 1]);
      forall i | 0 <= i < |h| && h[i].Good? && h[i].etag != ""
          && (forall j | i < j < |h| && h[j].Good? :: h[j].etag == "")
        ensures LastEtag(h) == h[i].etag
      {
        if i < |h| - 1 {
          assert h[..|h| - 1][i] == h[i];
        }
      }
      if forall i | 0 <= i < |h| && h[i].Good? :: h[i].etag == "" {
        assert forall i | 0 <= i < |h| - 1 :: h[..|h| - 1][i] == h[i];
      } else {
        assert forall i | 0 <= i < |h| - 1 :: h[..|h| - 1][i] == h[i];
      }
    }
  }

  lemma {:induction false} LastGoodIs(h: seq<Event>)
    ensures LastGood(h).None? <==> forall i | 0 <= i < |h| :: h[i].Bad?
    ensures forall i | 0 <= i < |h| && h[i].Good? && (forall j | i < j < |h| :: h[j].Bad?) :: LastGood(h) == Some(Unix(h[i].at))
  {
    if h != [] {
      LastGoodIs(h[..|h| - 1]);
      assert forall i | 0 <= i < |h| - 1 :: h[..|h| - 1][i] == h[i];
    }
  }

  // ---- how a feed is presented

  predicate Warming(st: FetchState) { st.lastOkAt.None? }

  predicate Stale(st: FetchState) { st.failCount > 0 && st.lastOkAt.Some? }

  /** A requested feed is listed as warming iff it never had a good fetch, as stale iff it had one but not
      last, and as neither iff its last fetch was good: the three exclude each other and leave nothing out. */
  lemma Presentation(st: FetchState, h: seq<Event>)
    requires Folds(st, h)
    ensures Warming(st) <==> forall i | 0 <= i < |h| :: h[i].Bad?
    ensures Stale(st) <==> h != [] && h[|h| - 1].Bad? && exists i :: 0 <= i < |h| && h[i].Good?
    ensures !Warming(st) && !Stale(st) <==> h != [] && h[|h| - 1].Good?
    ensures !(Warming(st) && Stale(st))
  {
    LastGoodIs(h);
  }

  // ---- a feed that is gone

  /** A failed fetch pins the feed to a daily poll iff it is a 404 or 410 and it and the fetches before it,
      `goneAfterFailures` of them, all failed -- in whatever way. */
  lemma PinnedIff(h: seq<Event>, status: int, c: Config)
    requires h != [] && h[|h| - 1].Bad? && h[|h| - 1].status == status && 0 <= c.goneAfterFailures
    ensures Pinned(TrailingErrors(h), status, c) <==>
      && (status == 404 || status == 410)
      && c.goneAfterFailures <= |h|
      && forall i | |h| - c.goneAfterFailures <= i < |h| :: h[i].Bad?
  {
    TrailingErrorsAtLeast(h, c.goneAfterFailures);
  }
}
