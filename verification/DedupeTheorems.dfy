/** What collapsing the same article across feeds guarantees. */
module DedupeTheorems {
  import opened Rows
  import opened RowIds
  import opened Ranking
  import opened Dedupe

  predicate Earlier(items: seq<Item>, a: nat, b: nat)
    requires a < |items| && b < |items|
  {
    Before(items, false, a, b)
  }

  predicate NewestFirst(items: seq<Item>) {
    forall i, j | 0 <= i < j < |items| :: items[i].publishedAt >= items[j].publishedAt
  }

  predicate Ascends(s: seq<nat>) { forall i, j | 0 <= i < j < |s| :: s[i] < s[j] }

  ghost function Asc(items: seq<Item>): seq<Item> { Arrange(items, Order(items, false, |items|)) }

  /** Where input position `i` lands in ascending order. */
  lemma Rank(items: seq<Item>, i: nat) returns (p: nat)
    requires i < |items|
    ensures p < |items| && Order(items, false, |items|)[p] == i && Asc(items)[p] == items[i]
  {
    assert i in Order(items, false, |items|);
    p :| p < |items| && Order(items, false, |items|)[p] == i;
  }

  lemma RanksOrder(items: seq<Item>, p: nat, q: nat)
    requires p < |items| && q < |items|
    ensures var order := Order(items, false, |items|); p < q <==> Earlier(items, order[p], order[q])
    ensures Order(items, false, |items|)[p] == Order(items, false, |items|)[q] ==> p == q
  {
    OrderSorted(items, false, |items|);
  }

  /** An input position comes out iff its place in ascending order survives. */
  lemma ChosenSurvives(items: seq<Item>, norm: string -> string, p: nat)
    requires p < |items|
    ensures Order(items, false, |items|)[p] in Chosen(items, norm) <==> Survives(Asc(items), norm, p)
  {
    var order, asc := Order(items, false, |items|), Asc(items);
    var at := Survivors(asc, norm, |asc|);
    var back := Order(Arrange(asc, at), true, |at|);
    var chosen := Chosen(items, norm);
    SurvivorsExact(asc, norm, |asc|, p);
    if Survives(asc, norm, p) {
      var m :| 0 <= m < |at| && at[m] == p;
      assert m in back;
      var k :| 0 <= k < |back| && back[k] == m;
      assert chosen[k] == order[p];
    }
    if order[p] in chosen {
      var k :| 0 <= k < |chosen| && chosen[k] == order[p];
      assert back[k] in back;
      RanksOrder(items, p, at[back[k]]);
      assert at[back[k]] in at;
    }
  }

  /** The item at `i` comes out iff no earlier item has its hash and no earlier item that comes out has
      its headline within the window. This determines the result: it is what every fact below rests on. */
  lemma ChosenIff(items: seq<Item>, norm: string -> string, i: nat)
    requires i < |items|
    ensures i in Chosen(items, norm) <==>
      && (forall j: nat | j < |items| && Earlier(items, j, i) :: !SameHash(items[j], items[i]))
      && (forall j: nat | j in Chosen(items, norm) && Earlier(items, j, i) :: !Repeats(norm, items[j], items[i]))
  {
    var order, asc := Order(items, false, |items|), Asc(items);
    var p := Rank(items, i);
    ChosenSurvives(items, norm, p);
    if i !in Chosen(items, norm) {
      if q: nat :| q < p && SameHash(asc[q], asc[p]) {
        RanksOrder(items, q, p);
      } else {
        var q: nat :| q < p && Survives(asc, norm, q) && Repeats(norm, asc[q], asc[p]);
        RanksOrder(items, q, p);
        ChosenSurvives(items, norm, q);
      }
    } else {
      forall j: nat | j < |items| && Earlier(items, j, i)
        ensures !SameHash(items[j], items[i])
        ensures j in Chosen(items, norm) ==> !Repeats(norm, items[j], items[i])
      {
        var q := Rank(items, j);
        RanksOrder(items, q, p);
        ChosenSurvives(items, norm, q);
        assert asc[q] == items[j] && asc[p] == items[i];
      }
    }
  }

  /** The same in terms of nothing but the columns: an item comes out iff no copy of its hash has an earlier
      date, or its date and an earlier place, and no such item that comes out has its headline and lies at most
      48 hours back. */
  lemma ChosenMeans(items: seq<Item>, norm: string -> string, i: nat)
    requires i < |items|
    ensures i in Chosen(items, norm) <==>
      && (forall j: nat | j < |items| && items[j].urlHash == items[i].urlHash && items[i].urlHash != "" ::
            items[i].publishedAt < items[j].publishedAt || (items[i].publishedAt == items[j].publishedAt && i <= j))
      && (forall j: nat | j in Chosen(items, norm) && norm(items[j].title) == norm(items[i].title) && j != i
            && (items[j].publishedAt < items[i].publishedAt || (items[j].publishedAt == items[i].publishedAt && j < i)) ::
            items[i].publishedAt - items[j].publishedAt > 172_800)
  {
    ChosenIff(items, norm, i);
  }

  /** Two items of one headline that both come out are more than 48 hours apart. */
  lemma FortyEightHours(items: seq<Item>, norm: string -> string, i: nat, j: nat)
    requires i in Chosen(items, norm) && j in Chosen(items, norm) && i != j
    requires norm(items[i].title) == norm(items[j].title)
    ensures items[i].publishedAt - items[j].publishedAt > 172_800 || items[j].publishedAt - items[i].publishedAt > 172_800
  {
    DedupeSound(items, norm, i, j);
  }

  /** Two items without a common hash both come out iff their headlines differ or they are more than 48 hours
      apart; at exactly 48 hours the later one goes. */
  lemma TwoItems(items: seq<Item>, norm: string -> string)
    requires |items| == 2 && (items[0].urlHash == "" || items[0].urlHash != items[1].urlHash)
    ensures (0 in Chosen(items, norm) && 1 in Chosen(items, norm)) <==>
      || norm(items[0].title) != norm(items[1].title)
      || items[0].publishedAt - items[1].publishedAt > 172_800
      || items[1].publishedAt - items[0].publishedAt > 172_800
  {
    ChosenMeans(items, norm, 0);
    ChosenMeans(items, norm, 1);
  }

  /** What comes out is newest first, and of equal date in the order of the input. */
  lemma ChosenOrder(items: seq<Item>, norm: string -> string)
    ensures var r := Chosen(items, norm);
      forall a, b | 0 <= a < b < |r| ::
        items[r[a]].publishedAt > items[r[b]].publishedAt || (items[r[a]].publishedAt == items[r[b]].publishedAt && r[a] < r[b])
  {
    var order, asc := Order(items, false, |items|), Asc(items);
    var at := Survivors(asc, norm, |asc|);
    var back := Order(Arrange(asc, at), true, |at|);
    SurvivorsAscend(asc, norm, |asc|);
    OrderSorted(Arrange(asc, at), true, |at|);
    var r := Chosen(items, norm);
    forall a, b | 0 <= a < b < |r|
      ensures items[r[a]].publishedAt > items[r[b]].publishedAt || (items[r[a]].publishedAt == items[r[b]].publishedAt && r[a] < r[b])
    {
      assert Before(Arrange(asc, at), true, back[a], back[b]);
      assert asc[at[back[a]]] == items[r[a]] && asc[at[back[b]]] == items[r[b]];
      RanksOrder(items, at[back[a]], at[back[b]]);
    }
  }

  /** The items that come out are those at these places. */
  lemma ArrangedAt<T>(items: seq<T>, order: seq<nat>, k: nat)
    requires Positions(order, |items|) && k < |order|
    ensures |Arrange(items, order)| == |order| && Arrange(items, order)[k] == items[order[k]]
  {}

  lemma EarlierTotal(items: seq<Item>, i: nat, j: nat)
    requires i < |items| && j < |items| && i != j
    ensures Earlier(items, i, j) || Earlier(items, j, i)
  {}

  predicate FarApart(norm: string -> string, x: Item, y: Item) {
    norm(x.title) == norm(y.title) ==> x.publishedAt - y.publishedAt > WINDOW || y.publishedAt - x.publishedAt > WINDOW
  }

  /** Sound: two items that come out share no hash, and no headline within the window. */
  lemma DedupeSound(items: seq<Item>, norm: string -> string, i: nat, j: nat)
    requires i in Chosen(items, norm) && j in Chosen(items, norm) && i != j
    ensures !SameHash(items[i], items[j]) && FarApart(norm, items[i], items[j])
  {
    EarlierTotal(items, i, j);
    ChosenIff(items, norm, i);
    ChosenIff(items, norm, j);
  }

  /** A hash that comes out is represented by its earliest copy. */
  lemma EarliestCopyWins(items: seq<Item>, norm: string -> string, i: nat, j: nat)
    requires i in Chosen(items, norm) && j < |items| && j != i && SameHash(items[i], items[j])
    ensures Earlier(items, i, j) && j !in Chosen(items, norm)
  {
    EarlierTotal(items, i, j);
    ChosenIff(items, norm, i);
    ChosenIff(items, norm, j);
  }

  ghost predicate TitleLink(items: seq<Item>, norm: string -> string, i: nat, k: nat)
    requires i < |items| && k < |items|
  {
    Earlier(items, k, i) && Repeats(norm, items[k], items[i])
  }

  ghost predicate HashLink(items: seq<Item>, i: nat, k: nat)
    requires i < |items| && k < |items|
  {
    Earlier(items, k, i) && SameHash(items[k], items[i])
  }

  /** Complete: an item is dropped only in favour of an earlier one that comes out, to which it is linked
      by its headline, by its hash, or by its hash and then that copy's headline. */
  lemma DedupeComplete(items: seq<Item>, norm: string -> string, i: nat) returns (j: nat, k: nat)
    requires i < |items| && i !in Chosen(items, norm)
    ensures j < |items| && k in Chosen(items, norm)
    ensures TitleLink(items, norm, i, k) || (HashLink(items, i, j) && (k == j || TitleLink(items, norm, j, k)))
  {
    ChosenIff(items, norm, i);
    j := i;
    if h: nat :| h < |items| && Earlier(items, h, i) && SameHash(items[h], items[i]) {
      j := FirstCopy(items, h);
      if j in Chosen(items, norm) {
        k := j;
      } else {
        ChosenIff(items, norm, j);
        k :| k in Chosen(items, norm) && Earlier(items, k, j) && Repeats(norm, items[k], items[j]);
      }
    } else {
      k :| k in Chosen(items, norm) && Earlier(items, k, i) && Repeats(norm, items[k], items[i]);
    }
  }

  /** The earliest item with the hash of `h`. */
  lemma FirstCopy(items: seq<Item>, h: nat) returns (j: nat)
    requires h < |items| && items[h].urlHash != ""
    ensures j < |items| && items[j].urlHash == items[h].urlHash && (j == h || Earlier(items, j, h))
    ensures forall m: nat | m < |items| && Earlier(items, m, j) :: !SameHash(items[m], items[j])
  {
    var p := Rank(items, h);
    p := FirstRank(items, items[h].urlHash, p);
    j := Order(items, false, |items|)[p];
    forall m: nat | m < |items| && Earlier(items, m, j) ensures !SameHash(items[m], items[j]) {
      var q := Rank(items, m);
      RanksOrder(items, q, p);
    }
    var r := Rank(items, h);
    RanksOrder(items, p, r);
  }

  lemma {:induction false} FirstRank(items: seq<Item>, hash: string, p: nat) returns (q: nat)
    requires p < |items| && Asc(items)[p].urlHash == hash
    ensures q <= p && Asc(items)[q].urlHash == hash
    ensures forall r: nat | r < q :: Asc(items)[r].urlHash != hash
  {
    if r: nat :| r < p && Asc(items)[r].urlHash == hash {
      q := FirstRank(items, hash, r);
    } else {
      q := p;
    }
  }

  // ---- optimality

  /** No earlier item has this one's hash. */
  ghost predicate FirstOfHash(items: seq<Item>, i: nat)
    requires i < |items|
  {
    forall j: nat | j < |items| && Earlier(items, j, i) :: !SameHash(items[j], items[i])
  }

  ghost predicate HashesDistinct(items: seq<Item>) {
    forall i: nat, j: nat | i < |items| && j < |items| && i != j :: !SameHash(items[i], items[j])
  }

  /** A collection of positions whose headlines are pairwise more than the window apart. */
  ghost predicate Spread(items: seq<Item>, norm: string -> string, c: set<nat>) {
    && (forall i | i in c :: i < |items|)
    && (forall i, j | i in c && j in c && i != j :: FarApart(norm, items[i], items[j]))
  }

  /** The item that comes out and stands for `i`. */
  ghost function Stand(items: seq<Item>, norm: string -> string, i: nat): (k: nat)
    requires i < |items| && FirstOfHash(items, i)
    ensures k in Chosen(items, norm) && (k == i || TitleLink(items, norm, i, k))
  {
    if i in Chosen(items, norm) then i else
      ChosenIff(items, norm, i);
      var k :| k in Chosen(items, norm) && TitleLink(items, norm, i, k);
      k
  }

  lemma ChosenDistinct(items: seq<Item>, norm: string -> string)
    ensures var r := Chosen(items, norm); forall i, j | 0 <= i < j < |r| :: r[i] != r[j]
  {
    var asc := Asc(items);
    var at := Survivors(asc, norm, |asc|);
    var back := Order(Arrange(asc, at), true, |at|);
    SurvivorsAscend(asc, norm, |asc|);
    OrderSorted(Arrange(asc, at), true, |at|);
    var r := Chosen(items, norm);
    forall i, j | 0 <= i < j < |r| ensures r[i] != r[j] {
      assert Before(Arrange(asc, at), true, back[i], back[j]);
      RanksOrder(items, at[back[i]], at[back[j]]);
    }
  }

  lemma {:induction false} MembersSize(s: seq<nat>)
    ensures |Members(s)| <= |s|
  {
    if s != [] {
      var init, last := s[..|s| - 1], s[|s| - 1];
      MembersSize(init);
      assert s == init + [last];
      assert Members(s) == Members(init) + {last};
    }
  }

  ghost predicate FirstCopies(items: seq<Item>, c: set<nat>) {
    forall i | i in c :: i < |items| && FirstOfHash(items, i)
  }

  /** Greedy is optimal among first copies, for every input: no collection of earliest copies of their hashes
      whose headlines are pairwise more than the window apart is larger than the one that comes out. */
  lemma DedupeOptimalAmongFirst(items: seq<Item>, norm: string -> string, c: set<nat>)
    requires FirstCopies(items, c) && Spread(items, norm, c)
    ensures |c| <= |Chosen(items, norm)|
  {
    var chosen := Members(Chosen(items, norm));
    var stand := (i: nat) requires i < |items| && FirstOfHash(items, i) => Stand(items, norm, i);
    forall i, j | i in c && j in c && i != j ensures stand(i) != stand(j) {
      assert FarApart(norm, items[i], items[j]);
    }
    InjectionSize(c, chosen, stand);
    MembersSize(Chosen(items, norm));
  }

  /** When no hash repeats, no collection of headlines pairwise more than the window apart is larger than the
      one that comes out. */
  lemma DedupeOptimal(items: seq<Item>, norm: string -> string, c: set<nat>)
    requires HashesDistinct(items) && Spread(items, norm, c)
    ensures |c| <= |Chosen(items, norm)|
  {
    DedupeOptimalAmongFirst(items, norm, c);
  }

  /** The collection that comes out is itself such a collection, of as many items as come out: with
      `DedupeOptimalAmongFirst`, it is a largest one. */
  lemma ChosenIsSpread(items: seq<Item>, norm: string -> string)
    ensures Spread(items, norm, Members(Chosen(items, norm))) && FirstCopies(items, Members(Chosen(items, norm)))
    ensures |Members(Chosen(items, norm))| == |Chosen(items, norm)|
  {
    var r := Chosen(items, norm);
    ChosenDistinct(items, norm);
    PrefixSize(r, |r|);
    assert r[..|r|] == r;
    forall i | i in r ensures FirstOfHash(items, i) {
      ChosenIff(items, norm, i);
    }
    forall i, j | i in Chosen(items, norm) && j in Chosen(items, norm) && i != j
      ensures FarApart(norm, items[i], items[j])
    {
      DedupeSound(items, norm, i, j);
    }
  }

  // ---- order

  /** The result is newest first, whatever the order of the input. */
  lemma DedupeSorts(items: seq<Item>, norm: string -> string)
    ensures NewestFirst(Arrange(items, Chosen(items, norm)))
  {
    var asc := Asc(items);
    var at := Survivors(asc, norm, |asc|);
    var back := Order(Arrange(asc, at), true, |at|);
    OrderSorted(Arrange(asc, at), true, |at|);
    var out, chosen := Arrange(items, Chosen(items, norm)), Chosen(items, norm);
    forall i, j | 0 <= i < j < |out| ensures out[i].publishedAt >= out[j].publishedAt {
      assert Before(Arrange(asc, at), true, back[i], back[j]);
      assert out[i] == asc[at[back[i]]] && out[j] == asc[at[back[j]]];
    }
  }

  /** For newest-first input the result is the input with items left out, ties in their old order. */
  lemma DedupeFilters(items: seq<Item>, norm: string -> string)
    requires NewestFirst(items)
    ensures Ascends(Chosen(items, norm))
  {
    var order, asc := Order(items, false, |items|), Asc(items);
    var at := Survivors(asc, norm, |asc|);
    var back := Order(Arrange(asc, at), true, |at|);
    SurvivorsAscend(asc, norm, |asc|);
    OrderSorted(Arrange(asc, at), true, |at|);
    var r := Chosen(items, norm);
    forall i, j | 0 <= i < j < |r| ensures r[i] < r[j] {
      assert Before(Arrange(asc, at), true, back[i], back[j]);
      assert asc[at[back[i]]] == items[r[i]] && asc[at[back[j]]] == items[r[j]];
      RanksOrder(items, at[back[i]], at[back[j]]);
    }
  }

  lemma {:induction false} AscentAtLeast(s: seq<nat>, i: nat)
    requires Ascends(s) && i < |s|
    ensures s[i] >= i
  {
    if i > 0 {
      AscentAtLeast(s, i - 1);
    }
  }

  /** An ascending sequence of all positions is the identity. */
  lemma {:induction false} AscentOfAll(s: seq<nat>, n: nat, i: nat)
    requires Positions(s, n) && Ascends(s) && (forall x: nat | x < n :: x in s) && i < n
    ensures i < |s| && forall j | 0 <= j <= i :: s[j] == j
  {
    if i > 0 {
      AscentOfAll(s, n, i - 1);
    }
    assert i in s;
    var k: nat :| k < |s| && s[k] == i;
    assert k >= i;
    AscentAtLeast(s, i);
  }

  /** Input that is newest first and has no conflicts passes through unchanged. */
  lemma NothingToDrop(items: seq<Item>, norm: string -> string)
    requires NewestFirst(items) && HashesDistinct(items)
    requires forall i: nat, j: nat | i < |items| && j < |items| && i != j :: FarApart(norm, items[i], items[j])
    ensures Arrange(items, Chosen(items, norm)) == items
  {
    var r := Chosen(items, norm);
    forall i: nat | i < |items| ensures i in r {
      ChosenIff(items, norm, i);
    }
    DedupeFilters(items, norm);
    if items != [] {
      AscentOfAll(r, |items|, |items| - 1);
      AscentAtLeast(r, |r| - 1);
    }
  }

  /** Collapsing twice is collapsing once. */
  lemma DedupeIdempotent(items: seq<Item>, norm: string -> string)
    ensures var out := Arrange(items, Chosen(items, norm)); Arrange(out, Chosen(out, norm)) == out
  {
    var r := Chosen(items, norm);
    var out := Arrange(items, r);
    DedupeSorts(items, norm);
    ChosenDistinct(items, norm);
    forall i: nat, j: nat | i < |out| && j < |out| && i != j
      ensures !SameHash(out[i], out[j]) && FarApart(norm, out[i], out[j])
    {
      assert r[i] in r && r[j] in r && r[i] != r[j];
      DedupeSound(items, norm, r[i], r[j]);
    }
    NothingToDrop(out, norm);
  }

  // ---- what the pass does not do

  /** A hash keeps a copy iff its earliest copy repeats no earlier headline that comes out. */
  lemma HashKept(items: seq<Item>, norm: string -> string, i: nat)
    requires i < |items| && items[i].urlHash != ""
    requires forall m: nat | m < |items| && Earlier(items, m, i) :: !SameHash(items[m], items[i])
    ensures (exists j :: j in Chosen(items, norm) && items[j].urlHash == items[i].urlHash)
       <==> forall k: nat | k in Chosen(items, norm) && Earlier(items, k, i) :: !Repeats(norm, items[k], items[i])
  {
    ChosenIff(items, norm, i);
    if j :| j in Chosen(items, norm) && items[j].urlHash == items[i].urlHash && j != i {
      EarlierTotal(items, i, j);
      ChosenIff(items, norm, j);
    }
  }

  function Headline(title: string, hash: string, at: int): Item {
    Item(1, title, "", "", hash, title, "", "", "", at, at, false)
  }

  /** Newest first: two copies of one hash, the older of which repeats a still older headline. */
  function LostHash(a: string, b: string, g: string, h: string): (r: seq<Item>)
    ensures |r| == 3
  {
    [Headline(b, h, 2), Headline(a, h, 1), Headline(a, g, 0)]
  }

  /** A hash is marked as seen before its first copy is tested for its headline, so every copy can be
      dropped. Then the result is not a largest conflict-free collection: here one item comes out, though
      the first and the last conflict in neither way. */
  lemma HashClassCanBeLost(norm: string -> string, a: string, b: string, g: string, h: string)
    requires norm(a) != norm(b) && g != h && h != ""
    ensures var items := LostHash(a, b, g, h);
      && 0 !in Chosen(items, norm) && 1 !in Chosen(items, norm) && 2 in Chosen(items, norm)
      && !SameHash(items[0], items[2]) && Spread(items, norm, {0, 2})
  {
    var items := LostHash(a, b, g, h);
    assert Earlier(items, 2, 1) && Earlier(items, 1, 0) && Earlier(items, 2, 0);
    ChosenIff(items, norm, 2);
    assert Repeats(norm, items[2], items[1]);
    ChosenIff(items, norm, 1);
    assert SameHash(items[1], items[0]);
    ChosenIff(items, norm, 0);
    LostHashSpreads(norm, a, b, g, h);
  }

  lemma LostHashSpreads(norm: string -> string, a: string, b: string, g: string, h: string)
    requires norm(a) != norm(b) && g != h
    ensures !SameHash(LostHash(a, b, g, h)[0], LostHash(a, b, g, h)[2]) && Spread(LostHash(a, b, g, h), norm, {0, 2})
  {}
}
