/** Collapsing the same article across feeds. */
module Dedupe {
  import opened Rows
  import opened RowIds
  import opened Ranking

  const WINDOW: int := 48 * 3600

  // ---- sort.SliceStable, as the order of positions it leaves

  function Key(it: Item, desc: bool): int { if desc then -it.publishedAt else it.publishedAt }

  /** `a` sorts before `b`: by date, and where the dates are equal by position. */
  predicate Before(items: seq<Item>, desc: bool, a: nat, b: nat)
    requires a < |items| && b < |items|
  {
    Key(items[a], desc) < Key(items[b], desc) || (Key(items[a], desc) == Key(items[b], desc) && a < b)
  }

  predicate Positions(order: seq<nat>, n: nat) { forall k | 0 <= k < |order| :: order[k] < n }

  function Insert(items: seq<Item>, desc: bool, order: seq<nat>, x: nat): (r: seq<nat>)
    requires Positions(order, |items|) && x < |items|
    ensures |r| == |order| + 1
    ensures forall y: nat :: y in r <==> y in order || y == x
    ensures Positions(r, |items|)
  {
    var last := |order| - 1;
    if order == [] || Key(items[order[last]], desc) <= Key(items[x], desc) then order + [x]
    else
      assert order == order[..last] + [order[last]];
      Insert(items, desc, order[..last], x) + [order[last]]
  }

  /** A stable sort of the first `n` items. */
  function Order(items: seq<Item>, desc: bool, n: nat): (r: seq<nat>)
    requires n <= |items|
    ensures |r| == n && Positions(r, n) && Positions(r, |items|)
    ensures forall y: nat :: y in r <==> y < n
  {
    if n == 0 then [] else
      var r := Insert(items, desc, Order(items, desc, n - 1), n - 1);
      assert forall k | 0 <= k < |r| :: r[k] in r;
      r
  }

  predicate Sorted(items: seq<Item>, desc: bool, order: seq<nat>) {
    && Positions(order, |items|)
    && (forall i, j | 0 <= i < j < |order| :: Before(items, desc, order[i], order[j]))
  }

  lemma {:induction false} InsertSorted(items: seq<Item>, desc: bool, order: seq<nat>, x: nat)
    requires Sorted(items, desc, order) && x < |items| && Positions(order, x)
    ensures Sorted(items, desc, Insert(items, desc, order, x))
  {
    var last := |order| - 1;
    if order != [] && Key(items[order[last]], desc) > Key(items[x], desc) {
      InsertSorted(items, desc, order[..last], x);
      var head := Insert(items, desc, order[..last], x);
      forall i | 0 <= i < |head| ensures Before(items, desc, head[i], order[last]) {
        if head[i] in order[..last] {
          var k :| 0 <= k < last && order[k] == head[i];
        }
      }
    }
  }

  lemma {:induction false} OrderSorted(items: seq<Item>, desc: bool, n: nat)
    requires n <= |items|
    ensures Sorted(items, desc, Order(items, desc, n))
  {
    if n > 0 {
      OrderSorted(items, desc, n - 1);
      InsertSorted(items, desc, Order(items, desc, n - 1), n - 1);
    }
  }

  function Arrange<T>(items: seq<T>, order: seq<nat>): (r: seq<T>)
    requires Positions(order, |items|)
    ensures |r| == |order|
  {
    seq(|order|, k requires 0 <= k < |order| => items[order[k]])
  }

  // ---- the two kinds of conflict

  predicate SameHash(x: Item, y: Item) { x.urlHash != "" && x.urlHash == y.urlHash }

  /** `y` repeats the headline of the earlier `x`. */
  predicate Repeats(norm: string -> string, x: Item, y: Item) {
    norm(x.title) == norm(y.title) && y.publishedAt - x.publishedAt <= WINDOW
  }

  /** In ascending order: no earlier copy of the hash, and no earlier survivor with the headline. */
  ghost predicate Survives(asc: seq<Item>, norm: string -> string, p: nat)
    requires p < |asc|
    decreases p
  {
    && !(exists q: nat | q < p :: SameHash(asc[q], asc[p]))
    && !(exists q: nat | q < p :: Survives(asc, norm, q) && Repeats(norm, asc[q], asc[p]))
  }

  /** The positions of the survivors among the first `n`. */
  ghost function Survivors(asc: seq<Item>, norm: string -> string, n: nat): (r: seq<nat>)
    requires n <= |asc|
    ensures Positions(r, n) && Positions(r, |asc|)
  {
    if n == 0 then [] else
      var rest := Survivors(asc, norm, n - 1);
      if Survives(asc, norm, n - 1) then rest + [n - 1] else rest
  }

  lemma {:induction false} SurvivorsAscend(asc: seq<Item>, norm: string -> string, n: nat)
    requires n <= |asc|
    ensures forall i, j | 0 <= i < j < |Survivors(asc, norm, n)| :: Survivors(asc, norm, n)[i] < Survivors(asc, norm, n)[j]
  {
    if n > 0 {
      SurvivorsAscend(asc, norm, n - 1);
    }
  }

  lemma {:induction false} SurvivorsExact(asc: seq<Item>, norm: string -> string, n: nat, p: nat)
    requires n <= |asc| && p < |asc|
    ensures p in Survivors(asc, norm, n) <==> p < n && Survives(asc, norm, p)
  {
    if n > 0 {
      SurvivorsExact(asc, norm, n - 1, p);
    }
  }

  /** The positions, in the input, of the items that come out, in the order they come out. */
  ghost function Chosen(items: seq<Item>, norm: string -> string): (r: seq<nat>)
    ensures Positions(r, |items|)
  {
    var order := Order(items, false, |items|);
    var asc := Arrange(items, order);
    var at := Survivors(asc, norm, |asc|);
    var back := Order(Arrange(asc, at), true, |at|);
    seq(|back|, k requires 0 <= k < |back| => order[at[back[k]]])
  }

  datatype TitleSeen = TitleSeen(title: string, at: int)

  ghost predicate HashSeen(asc: seq<Item>, n: nat, hash: string)
    requires n <= |asc|
  {
    exists q: nat :: q < n && asc[q].urlHash != "" && asc[q].urlHash == hash
  }

  ghost predicate Hashes(seen: set<string>, asc: seq<Item>, n: nat)
    requires n <= |asc|
  {
    forall h :: h in seen <==> HashSeen(asc, n, h)
  }

  lemma HashesStep(seen: set<string>, asc: seq<Item>, n: nat)
    requires n < |asc| && Hashes(seen, asc, n)
    ensures asc[n].urlHash in seen <==> HashSeen(asc, n, asc[n].urlHash)
    ensures Hashes(if asc[n].urlHash == "" then seen else seen + {asc[n].urlHash}, asc, n + 1)
  {
    forall h ensures HashSeen(asc, n + 1, h) <==> HashSeen(asc, n, h) || (h != "" && h == asc[n].urlHash) {
    }
  }

  /** The titles list records the survivors so far. */
  ghost predicate Records(titles: seq<TitleSeen>, asc: seq<Item>, norm: string -> string, at: seq<nat>)
    requires Positions(at, |asc|)
  {
    |titles| == |at| && forall k | 0 <= k < |at| :: titles[k] == TitleSeen(norm(asc[at[k]].title), asc[at[k]].publishedAt)
  }

  /** Looking only at the recorded titles and hashes decides survival. */
  lemma SurvivesByRecords(asc: seq<Item>, norm: string -> string, p: nat, titles: seq<TitleSeen>)
    requires p < |asc| && Records(titles, asc, norm, Survivors(asc, norm, p))
    ensures Survives(asc, norm, p)
       <==> !HashSeen(asc, p, asc[p].urlHash) && !HasTitle(titles, norm(asc[p].title), asc[p].publishedAt)
  {
    var at := Survivors(asc, norm, p);
    if HashSeen(asc, p, asc[p].urlHash) {
      var q: nat :| q < p && asc[q].urlHash != "" && asc[q].urlHash == asc[p].urlHash;
      assert SameHash(asc[q], asc[p]);
    }
    if HasTitle(titles, norm(asc[p].title), asc[p].publishedAt) {
      var k :| 0 <= k < |titles| && titles[k].title == norm(asc[p].title) && asc[p].publishedAt - titles[k].at <= WINDOW;
      SurvivorsExact(asc, norm, p, at[k]);
      assert Survives(asc, norm, at[k]) && Repeats(norm, asc[at[k]], asc[p]);
    } else {
      forall q: nat | q < p && Survives(asc, norm, q) ensures !Repeats(norm, asc[q], asc[p]) {
        SurvivorsExact(asc, norm, p, q);
        var m :| 0 <= m < |at| && at[m] == q;
        assert titles[m].title == norm(asc[q].title);
      }
    }
  }

  predicate HasTitle(titles: seq<TitleSeen>, title: string, at: int) {
    exists k :: 0 <= k < |titles| && titles[k].title == title && at - titles[k].at <= WINDOW
  }

  /** One step of the pass, in terms of what the loop looks at. */
  lemma PassStep(asc: seq<Item>, norm: string -> string, p: nat, seen: set<string>, titles: seq<TitleSeen>)
    requires p < |asc| && Hashes(seen, asc, p) && Records(titles, asc, norm, Survivors(asc, norm, p))
    ensures Hashes(if asc[p].urlHash == "" then seen else seen + {asc[p].urlHash}, asc, p + 1)
    ensures var it, at := asc[p], Survivors(asc, norm, p);
      && Survivors(asc, norm, p + 1) ==
           (if (it.urlHash != "" && it.urlHash in seen) || HasTitle(titles, norm(it.title), it.publishedAt) then at else at + [p])
      && Records(titles + [TitleSeen(norm(it.title), it.publishedAt)], asc, norm, at + [p])
      && Arrange(asc, at + [p]) == Arrange(asc, at) + [it]
  {
    HashesStep(seen, asc, p);
    SurvivesByRecords(asc, norm, p, titles);
  }

  method Dedupe(items: seq<Item>, norm: string -> string) returns (out: seq<Item>)
    ensures out == Arrange(items, Chosen(items, norm))
  {
    var asc := Arrange(items, Order(items, false, |items|));
    var kept := Pass(asc, norm);
    out := Arrange(kept, Order(kept, true, |kept|));
  }

  method SeenTitle(titles: seq<TitleSeen>, title: string, at: int) returns (dup: bool)
    ensures dup == HasTitle(titles, title, at)
  {
    for k := 0 to |titles|
      invariant forall m | 0 <= m < k :: !(titles[m].title == title && at - titles[m].at <= WINDOW)
    {
      if titles[k].title == title && at - titles[k].at <= WINDOW {
        return true;
      }
    }
    return false;
  }

  method Pass(asc: seq<Item>, norm: string -> string) returns (kept: seq<Item>)
    ensures kept == Arrange(asc, Survivors(asc, norm, |asc|))
  {
    var seenHash: set<string> := {};
    var titles: seq<TitleSeen> := [];
    kept := [];
    for i := 0 to |asc|
      invariant Hashes(seenHash, asc, i)
      invariant kept == Arrange(asc, Survivors(asc, norm, i))
      invariant Records(titles, asc, norm, Survivors(asc, norm, i))
    {
      var it := asc[i];
      PassStep(asc, norm, i, seenHash, titles);
      if it.urlHash != "" {
        if it.urlHash in seenHash {
          assert seenHash == seenHash + {it.urlHash};
          assert Survivors(asc, norm, i + 1) == Survivors(asc, norm, i);
          continue;
        }
        seenHash := seenHash + {it.urlHash};
      }
      var nt := norm(it.title);
      var dup := SeenTitle(titles, nt, it.publishedAt);
      if dup {
        assert Survivors(asc, norm, i + 1) == Survivors(asc, norm, i);
        continue;
      }
      assert Survivors(asc, norm, i + 1) == Survivors(asc, norm, i) + [i];
      titles := titles + [TitleSeen(nt, it.publishedAt)];
      kept := kept + [it];
    }
  }
}
