/** ORDER BY published_at DESC, id DESC, and LIMIT on top of it. */
module Ranking {
  import opened Rows
  import opened RowIds

  /** Row `a` sorts before row `b`. */
  predicate Newer(items: map<nat, Item>, a: nat, b: nat)
    requires a in items && b in items
  {
    items[a].publishedAt > items[b].publishedAt || (items[a].publishedAt == items[b].publishedAt && a > b)
  }

  ghost predicate Newest(items: map<nat, Item>, ids: set<nat>, m: nat)
    requires ids <= items.Keys
  {
    m in ids && forall x | x in ids && x != m :: Newer(items, m, x)
  }

  lemma {:induction false} NewestExists(items: map<nat, Item>, ids: set<nat>)
    requires ids <= items.Keys && ids != {}
    ensures exists m :: Newest(items, ids, m)
    decreases ids
  {
    var a :| a in ids;
    var rest := ids - {a};
    if rest == {} {
      assert forall x | x in ids :: x == a || x in rest;
      assert Newest(items, ids, a);
    } else {
      NewestExists(items, rest);
      var m :| Newest(items, rest, m);
      assert forall x | x in ids :: x == a || x in rest;
      if Newer(items, a, m) {
        assert Newest(items, ids, a);
      } else {
        assert Newest(items, ids, m);
      }
    }
  }

  /** The rows `ids` in query order. */
  ghost function Ordered(items: map<nat, Item>, ids: set<nat>): (r: seq<nat>)
    requires ids <= items.Keys
    ensures |r| == |ids|
    ensures forall x :: x in r <==> x in ids
    decreases ids
  {
    if ids == {} then [] else
      NewestExists(items, ids);
      var m :| Newest(items, ids, m);
      [m] + Ordered(items, ids - {m})
  }

  lemma {:induction false} OrderedSorted(items: map<nat, Item>, ids: set<nat>)
    requires ids <= items.Keys
    ensures forall k | 0 <= k < |Ordered(items, ids)| :: Ordered(items, ids)[k] in items
    ensures forall i, j | 0 <= i < j < |Ordered(items, ids)| :: Newer(items, Ordered(items, ids)[i], Ordered(items, ids)[j])
    decreases ids
  {
    var r := Ordered(items, ids);
    if ids != {} {
      var m := r[0];
      var rest := r[1..];
      assert rest == Ordered(items, ids - {m});
      OrderedSorted(items, ids - {m});
      forall j | 1 <= j < |r| ensures r[j] in items && Newer(items, m, r[j]) {
        assert rest[j - 1] in ids - {m};
      }
    }
  }

  /** LIMIT n keeps the first n rows; a negative n keeps all of them. */
  function Limited<T>(rows: seq<T>, n: int): seq<T> {
    if n < 0 || n >= |rows| then rows else rows[..n]
  }

  function Members<T>(rows: seq<T>): set<T> { set x | x in rows }

  ghost function Top(items: map<nat, Item>, ids: set<nat>, n: int): (r: set<nat>)
    requires ids <= items.Keys
    ensures r <= ids
  {
    Members(Limited(Ordered(items, ids), n))
  }

  /** How many of `ids` sort before `x`. */
  ghost function Ahead(items: map<nat, Item>, ids: set<nat>, x: nat): set<nat>
    requires ids <= items.Keys && x in items
  {
    set y | y in ids && Newer(items, y, x)
  }

  lemma PrefixSize(s: seq<nat>, n: nat)
    requires n <= |s|
    requires forall i, j | 0 <= i < j < |s| :: s[i] != s[j]
    ensures |Members(s[..n])| == n
  {
    if n > 0 {
      PrefixSize(s, n - 1);
      assert s[..n] == s[..n - 1] + [s[n - 1]];
      assert Members(s[..n]) == Members(s[..n - 1]) + {s[n - 1]};
      assert s[n - 1] !in s[..n - 1];
    }
  }

  lemma AheadIsPrefix(items: map<nat, Item>, ids: set<nat>, p: nat)
    requires ids <= items.Keys && p < |ids|
    ensures Ordered(items, ids)[p] in items
    ensures Ahead(items, ids, Ordered(items, ids)[p]) == Members(Ordered(items, ids)[..p])
    ensures |Ahead(items, ids, Ordered(items, ids)[p])| == p
  {
    var r := Ordered(items, ids);
    OrderedSorted(items, ids);
    forall y | y in Ahead(items, ids, r[p]) ensures y in r[..p] {
      var q :| 0 <= q < |r| && r[q] == y;
      assert q < p;
    }
    PrefixSize(r, p);
  }

  /** A row is within the limit iff fewer than `n` rows sort before it. */
  lemma TopByRank(items: map<nat, Item>, ids: set<nat>, n: int, x: nat)
    requires ids <= items.Keys && x in items
    ensures x in Top(items, ids, n) <==> x in ids && (n < 0 || |Ahead(items, ids, x)| < n)
  {
    var r := Ordered(items, ids);
    OrderedSorted(items, ids);
    if x in ids {
      var p :| 0 <= p < |r| && r[p] == x;
      AheadIsPrefix(items, ids, p);
      if x in Limited(r, n) && 0 <= n < |r| {
        var q :| 0 <= q < n && r[q] == x;
        assert q == p;
      }
      if n >= 0 && p < n && n < |r| {
        assert r[..n][p] == x;
      }
    }
  }

  /** With enough room every row is within the limit; otherwise exactly `n` are. */
  lemma TopSize(items: map<nat, Item>, ids: set<nat>, n: int)
    requires ids <= items.Keys
    ensures n < 0 || |ids| <= n ==> Top(items, ids, n) == ids
    ensures 0 <= n < |ids| ==> |Top(items, ids, n)| == n
  {
    OrderedSorted(items, ids);
    if 0 <= n < |ids| {
      PrefixSize(Ordered(items, ids), n);
    }
  }
}
