/** The query part of a canonical url. */
module Canonical {
  import opened RowIds
  import opened Query

  // ---- sort.Strings

  predicate Less(a: Text, b: Text) {
    b != [] && (a == [] || a[0] < b[0] || (a[0] == b[0] && Less(a[1..], b[1..])))
  }

  lemma {:induction false} LessTotal(a: Text, b: Text)
    ensures a == b || Less(a, b) || Less(b, a)
    ensures !(Less(a, b) && Less(b, a)) && !Less(a, a)
  {
    if a != [] && b != [] && a[0] == b[0] {
      LessTotal(a[1..], b[1..]);
      assert a == [a[0]] + a[1..] && b == [b[0]] + b[1..];
    }
    if a != [] {
      LessTotal(a[1..], a[1..]);
    }
  }

  lemma {:induction false} LessTransitive(a: Text, b: Text, c: Text)
    requires Less(a, b) && Less(b, c)
    ensures Less(a, c)
  {
    if a != [] && a[0] == b[0] == c[0] {
      LessTransitive(a[1..], b[1..], c[1..]);
    }
  }

  predicate Least(keys: set<Text>, m: Text) {
    m in keys && forall k | k in keys && k != m :: Less(m, k)
  }

  lemma {:induction false} LeastExists(keys: set<Text>)
    requires keys != {}
    ensures exists m :: Least(keys, m)
    decreases keys
  {
    var a :| a in keys;
    var rest := keys - {a};
    if rest == {} {
      assert forall k | k in keys :: k == a || k in rest;
      assert Least(keys, a);
    } else {
      LeastExists(rest);
      var m :| Least(rest, m);
      LessTotal(a, m);
      if Less(a, m) {
        forall k | k in keys && k != a ensures Less(a, k) {
          if k != m { LessTransitive(a, m, k); }
        }
        assert Least(keys, a);
      } else {
        assert Least(keys, m);
      }
    }
  }

  /** The keys in ascending byte order. */
  ghost function SortedKeys(keys: set<Text>): (r: seq<Text>)
    ensures forall k | k in r :: k in keys
    decreases keys
  {
    if keys == {} then [] else
      LeastExists(keys);
      var m :| Least(keys, m);
      [m] + SortedKeys(keys - {m})
  }

  lemma {:induction false} KeysAscend(keys: set<Text>)
    ensures forall i, j | 0 <= i < j < |SortedKeys(keys)| :: Less(SortedKeys(keys)[i], SortedKeys(keys)[j])
    ensures Distinct(SortedKeys(keys))
    ensures forall k | k in keys :: k in SortedKeys(keys)
    decreases keys
  {
    var r := SortedKeys(keys);
    if keys != {} {
      var m, rest := r[0], r[1..];
      LeastExists(keys);
      assert Least(keys, m) && rest == SortedKeys(keys - {m});
      KeysAscend(keys - {m});
      forall j | 1 <= j < |r| ensures Less(r[0], r[j]) {
        assert rest[j - 1] in keys - {m};
      }
      forall i, j | 0 <= i < j < |r| ensures r[i] != r[j] {
        LessTotal(r[i], r[j]);
      }
    }
  }

  predicate Distinct(s: seq<Text>) { forall i, j | 0 <= i < j < |s| :: s[i] != s[j] }

  // ---- printing the multimap

  function PairsOf(k: Text, vs: seq<Text>): seq<Pair> {
    if vs == [] then [] else PairsOf(k, vs[..|vs| - 1]) + [Pair(k, vs[|vs| - 1])]
  }

  function Flatten(m: Values, keys: seq<Text>): seq<Pair>
    requires forall k | k in keys :: k in m
  {
    if keys == [] then [] else Flatten(m, keys[..|keys| - 1]) + PairsOf(keys[|keys| - 1], m[keys[|keys| - 1]])
  }

  ghost function Print(m: Values): Text { PrintPairs(Flatten(m, SortedKeys(m.Keys))) }

  predicate Tracking(k: Text) {
    k in ["fbclid", "gclid", "mc_cid", "mc_eid", "ref"] || (|k| >= 4 && k[..4] == "utm_")
  }

  function DropTracking(m: Values): Values { map k | k in m && !Tracking(k) :: m[k] }

  /** The rebuilt query. */
  ghost function Canon(query: Text): Text { Print(DropTracking(Parse(query))) }

  // ---- parsing undoes printing

  lemma AddLast(ps: seq<Pair>, p: Pair)
    ensures ToValues(ps + [p]) == Add(ToValues(ps), p)
  {
    assert (ps + [p])[..|ps|] == ps;
  }

  lemma AddOne(m: Values, k: Text, vs: seq<Text>, v: Text)
    ensures k !in m ==> Add(m, Pair(k, v)) == m[k := [v]]
    ensures Add(m[k := vs], Pair(k, v)) == m[k := vs + [v]]
  {
    assert [] + [v] == [v];
  }

  lemma {:induction false} AddPairs(ps: seq<Pair>, k: Text, vs: seq<Text>)
    requires k !in ToValues(ps)
    ensures vs != [] ==> ToValues(ps + PairsOf(k, vs)) == ToValues(ps)[k := vs]
    ensures vs == [] ==> ToValues(ps + PairsOf(k, vs)) == ToValues(ps)
  {
    if vs == [] {
      assert ps + PairsOf(k, vs) == ps;
      return;
    }
    var n := |vs| - 1;
    AddPairs(ps, k, vs[..n]);
    Append(ps, PairsOf(k, vs[..n]), Pair(k, vs[n]));
    AddLast(ps + PairsOf(k, vs[..n]), Pair(k, vs[n]));
    AddOne(ToValues(ps), k, vs[..n], vs[n]);
    assert vs == vs[..n] + [vs[n]];
  }

  function Restrict(m: Values, keys: seq<Text>): Values { map k | k in m && k in keys :: m[k] }

  lemma RestrictStep(m: Values, init: seq<Text>, k: Text)
    requires k in m
    ensures Restrict(m, init + [k]) == Restrict(m, init)[k := m[k]]
  {}

  lemma {:induction false} FlattenRoundTrip(m: Values, keys: seq<Text>)
    requires NoEmptyLists(m) && Distinct(keys) && forall k | k in keys :: k in m
    ensures ToValues(Flatten(m, keys)) == Restrict(m, keys)
  {
    if keys != [] {
      var init, k := keys[..|keys| - 1], keys[|keys| - 1];
      FlattenRoundTrip(m, init);
      assert k !in init;
      AddPairs(Flatten(m, init), k, m[k]);
      RestrictStep(m, init, k);
      assert keys == init + [k];
    } else {
      assert Restrict(m, keys) == map[];
    }
  }

  lemma PrintRoundTrip(m: Values)
    requires NoEmptyLists(m)
    ensures Parse(Print(m)) == m
  {
    var keys := SortedKeys(m.Keys);
    KeysAscend(m.Keys);
    PairsRoundTrip(Flatten(m, keys));
    FlattenRoundTrip(m, keys);
    assert Restrict(m, keys) == m;
  }

  // ---- the normal form

  /** The rebuilt query means what the query meant, less its tracking keys. */
  lemma CanonMeans(query: Text)
    ensures Parse(Canon(query)) == DropTracking(Parse(query))
  {
    ParsedListsNotEmpty(ParsePairs(query));
    PrintRoundTrip(DropTracking(Parse(query)));
  }

  /** Rebuilding twice is rebuilding once, for every query, well formed or not. */
  lemma CanonIdempotent(query: Text)
    ensures Canon(Canon(query)) == Canon(query)
  {
    CanonMeans(query);
    assert DropTracking(DropTracking(Parse(query))) == DropTracking(Parse(query));
  }

  /** Two queries are rebuilt equally iff, tracking keys aside, they give every key the same values in the
      same order. */
  lemma CanonNormalForm(query: Text, other: Text)
    ensures Canon(query) == Canon(other) <==> DropTracking(Parse(query)) == DropTracking(Parse(other))
  {
    CanonMeans(query);
    CanonMeans(other);
  }

  // ---- the loops

  method SortStrings(keys: set<Text>) returns (sorted: seq<Text>)
    ensures sorted == SortedKeys(keys)
  {
    sorted := [];
    var rest := keys;
    while rest != {}
      invariant sorted + SortedKeys(rest) == SortedKeys(keys)
      decreases rest
    {
      LeastExists(rest);
      var m :| m in rest && Least(rest, m);
      FirstKey(rest, m);
      Regroup(sorted, m, SortedKeys(rest - {m}));
      sorted := sorted + [m];
      rest := rest - {m};
    }
  }

  lemma FirstKey(keys: set<Text>, m: Text)
    requires Least(keys, m)
    ensures SortedKeys(keys) == [m] + SortedKeys(keys - {m})
  {
    LeastExists(keys);
    var n := SortedKeys(keys)[0];
    assert Least(keys, n);
    LessTotal(m, n);
  }

  /** for k := range q { if tracking { q.Del(k) } }, the keys in any order. */
  method DeleteTracking(parsed: Values) returns (q: Values)
    ensures q == DropTracking(parsed)
  {
    q := parsed;
    var all := q.Keys;
    while all != {}
      invariant all <= parsed.Keys
      invariant q == map k | k in parsed && (k in all || !Tracking(k)) :: parsed[k]
      decreases all
    {
      var k :| k in all;
      if Tracking(k) {
        q := q - {k};
      }
      all := all - {k};
    }
  }

  lemma WrittenNext(pairs: seq<Pair>, k: Text, vs: seq<Text>, j: nat)
    requires j < |vs|
    ensures var written := PrintPairs(pairs + PairsOf(k, vs[..j]));
      PrintPairs(pairs + PairsOf(k, vs[..j + 1]))
        == (if |written| > 0 then written + ['&'] else written) + PrintPair(Pair(k, vs[j]))
  {
    var before := pairs + PairsOf(k, vs[..j]);
    PrintAppend(before, Pair(k, vs[j]));
    PrintsNothing(before);
    Append(pairs, PairsOf(k, vs[..j]), Pair(k, vs[j]));
    assert vs[..j + 1][..j] == vs[..j];
    if before != [] {
      Regroup3(PrintPairs(before), ['&'], PrintPair(Pair(k, vs[j])));
    }
  }

  /** Writes the values of one key; a separator goes in front of every pair but the first. */
  method WriteValues(b: Text, k: Text, vs: seq<Text>, ghost pairs: seq<Pair>) returns (r: Text)
    requires b == PrintPairs(pairs)
    ensures r == PrintPairs(pairs + PairsOf(k, vs))
  {
    r := b;
    assert pairs + PairsOf(k, vs[..0]) == pairs;
    for j := 0 to |vs|
      invariant r == PrintPairs(pairs + PairsOf(k, vs[..j]))
    {
      WrittenNext(pairs, k, vs, j);
      if |r| > 0 {
        r := r + ['&'];
      }
      r := r + PrintPair(Pair(k, vs[j]));
    }
    assert vs[..|vs|] == vs;
  }

  method CanonicalQuery(rawQuery: Text) returns (b: Text)
    ensures b == if rawQuery == [] then [] else Canon(rawQuery)
  {
    if rawQuery == [] {
      return [];
    }
    var q := DeleteTracking(Parse(rawQuery));
    var keys := SortStrings(q.Keys);
    b := [];
    for i := 0 to |keys|
      invariant b == PrintPairs(Flatten(q, keys[..i]))
    {
      assert keys[i] in keys && keys[..i + 1][..i] == keys[..i];
      b := WriteValues(b, keys[i], q[keys[i]], Flatten(q, keys[..i]));
    }
    assert keys[..|keys|] == keys;
  }

  // ---- in terms of bytes

  /** Byte order: the first difference decides, and a proper beginning comes first. */
  lemma {:induction false} LessMeans(a: Text, b: Text)
    ensures Less(a, b) <==> exists n: nat ::
      n <= |a| && n < |b| && a[..n] == b[..n] && (n == |a| || (n < |a| && a[n] < b[n]))
  {
    if a != [] && b != [] && a[0] == b[0] {
      LessMeans(a[1..], b[1..]);
      if n: nat :| n <= |a[1..]| && n < |b[1..]| && a[1..][..n] == b[1..][..n] && (n == |a[1..]| || (n < |a[1..]| && a[1..][n] < b[1..][n])) {
        assert a[..n + 1] == [a[0]] + a[1..][..n] && b[..n + 1] == [b[0]] + b[1..][..n];
        assert n + 1 <= |a| && a[..n + 1] == b[..n + 1];
      }
      if n: nat :| n <= |a| && n < |b| && a[..n] == b[..n] && (n == |a| || (n < |a| && a[n] < b[n])) {
        assert n > 0;
        assert a[1..][..n - 1] == a[..n][1..] && b[1..][..n - 1] == b[..n][1..];
        assert n - 1 <= |a[1..]| && a[1..][..n - 1] == b[1..][..n - 1];
      }
    } else if b != [] {
      if Less(a, b) {
        assert a[..0] == b[..0];
      }
      if n: nat :| n <= |a| && n < |b| && a[..n] == b[..n] && (n == |a| || (n < |a| && a[n] < b[n])) {
        assert n > 0 ==> a[..n][0] == b[..n][0];
      }
    }
  }

  /** The rebuilt query has the keys of the query but for the known tracking parameters and all that begin with
      utm_, each with its values. */
  lemma CanonDrops(query: Text, k: Text)
    ensures k in Parse(Canon(query)) <==>
      k in Parse(query) && k != "fbclid" && k != "gclid" && k != "mc_cid" && k != "mc_eid" && k != "ref"
      && !(|k| >= 4 && k[0] == 'u' && k[1] == 't' && k[2] == 'm' && k[3] == '_')
    ensures k in Parse(Canon(query)) ==> Parse(Canon(query))[k] == Parse(query)[k]
  {
    CanonMeans(query);
    if |k| >= 4 {
      assert k[..4] == [k[0], k[1], k[2], k[3]];
    }
  }

  /** It is written pair by pair, the keys in byte order. */
  lemma CanonAscends(query: Text)
    ensures Canon(query) == PrintPairs(ParsePairs(Canon(query))) && Ascend(ParsePairs(Canon(query)))
  {
    PrintAscends(DropTracking(Parse(query)));
  }

  predicate Ascend(pairs: seq<Pair>) {
    forall i, j | 0 <= i < j < |pairs| :: pairs[i].key == pairs[j].key || Less(pairs[i].key, pairs[j].key)
  }

  lemma PrintAscends(m: Values)
    ensures Print(m) == PrintPairs(ParsePairs(Print(m))) && Ascend(ParsePairs(Print(m)))
  {
    var keys := SortedKeys(m.Keys);
    KeysAscend(m.Keys);
    PairsRoundTrip(Flatten(m, keys));
    FlattenAscends(m, keys);
  }

  lemma {:induction false} FlattenAscends(m: Values, keys: seq<Text>)
    requires forall k | k in keys :: k in m
    requires forall i, j | 0 <= i < j < |keys| :: Less(keys[i], keys[j])
    ensures Ascend(Flatten(m, keys)) && forall p | p in Flatten(m, keys) :: p.key in keys
  {
    if keys == [] {
      return;
    }
    var init, k := keys[..|keys| - 1], keys[|keys| - 1];
    FlattenAscends(m, init);
    OneKey(k, m[k]);
    var front, own := Flatten(m, init), PairsOf(k, m[k]);
    var pairs := Flatten(m, keys);
    forall i, j | 0 <= i < j < |pairs| ensures pairs[i].key == pairs[j].key || Less(pairs[i].key, pairs[j].key) {
      if i < |front| <= j {
        assert front[i] in front && own[j - |front|] in own;
        var n :| 0 <= n < |init| && init[n] == front[i].key;
        assert Less(keys[n], keys[|keys| - 1]);
      } else if |front| <= i {
        assert own[i - |front|] in own && own[j - |front|] in own;
      }
    }
  }

  lemma {:induction false} OneKey(k: Text, vs: seq<Text>)
    ensures forall p | p in PairsOf(k, vs) :: p.key == k
  {
    if vs != [] {
      OneKey(k, vs[..|vs| - 1]);
    }
  }
}
