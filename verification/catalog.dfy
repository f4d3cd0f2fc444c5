/** The catalogue view of the home page: the criteria the user controls
    (search text, price range, sort key), the Reset Filters button, and the
    pipeline that turns the fetched product list into the displayed one:
    keep the products whose lower-cased name contains the lower-cased search
    text, keep those priced within the inclusive range, then sort stably by
    the chosen key. */
module Catalog {
  import opened Text

  /** A product as the list shows it. Prices are exact reals and the
      creation time an integer timestamp. */
  datatype Product = Product(id: int, name: string, price: real, image: string, createdAt: int)

  /** The criteria state of the page. The sort key is the `<select>`'s
      string value; any value other than the two price keys sorts newest
      first. */
  datatype Criteria = Criteria(search: string, lo: real, hi: real, sortBy: string)

  /** The state the page starts in. */
  const InitialCriteria := Criteria("", 0.0, 1000.0, "newest")

  /** Reset Filters: the price range and search text go back to their
      initial values; the sort key stays as it is. */
  function ResetFilters(c: Criteria): (r: Criteria)
    ensures r == InitialCriteria.(sortBy := c.sortBy)
    ensures r.sortBy == c.sortBy
  {
    c.(lo := 0.0, hi := 1000.0, search := "")
  }

  /** Resetting twice is resetting once, and the initial state is already
      reset. */
  lemma ResetIdempotent(c: Criteria)
    ensures ResetFilters(ResetFilters(c)) == ResetFilters(c)
    ensures ResetFilters(InitialCriteria) == InitialCriteria
  {
  }

  /** `p.name.toLowerCase().includes(search.toLowerCase())`. */
  predicate NameMatches(p: Product, search: string) {
    Contains(Lower(p.name), Lower(search))
  }

  /** `p.price >= priceRange[0] && p.price <= priceRange[1]`. */
  predicate InPriceRange(p: Product, lo: real, hi: real) {
    p.price >= lo && p.price <= hi
  }

  /** A product passes both tests of the criteria. */
  predicate Selected(p: Product, c: Criteria) {
    NameMatches(p, c.search) && InPriceRange(p, c.lo, c.hi)
  }

  /** An empty search text matches every product. */
  lemma EmptySearchMatchesAll(p: Product)
    ensures NameMatches(p, "")
  {
    ContainsEmpty(Lower(p.name));
  }

  /** `Array.prototype.filter`: the elements `keep` accepts, in order. */
  function Filter(ps: seq<Product>, keep: Product -> bool): (r: seq<Product>)
    ensures |r| <= |ps|
    ensures forall i | 0 <= i < |r| :: keep(r[i]) && r[i] in ps
    ensures (forall i | 0 <= i < |ps| :: keep(ps[i])) ==> r == ps
  {
    if ps == [] then []
    else (if keep(ps[0]) then [ps[0]] else []) + Filter(ps[1..], keep)
  }

  /** Filtering keeps every copy of an accepted product and no copy of a
      rejected one. */
  lemma {:induction false} FilterCount(ps: seq<Product>, keep: Product -> bool, x: Product)
    ensures multiset(Filter(ps, keep))[x] == if keep(x) then multiset(ps)[x] else 0
  {
    if ps != [] {
      FilterCount(ps[1..], keep, x);
      assert ps == [ps[0]] + ps[1..];
    }
  }

  /** The products of `ps` that pass both tests, in catalogue order: one
      filter by the conjunction, the reference the pipeline's result is
      compared with. */
  function Kept(ps: seq<Product>, c: Criteria): seq<Product> {
    Filter(ps, p => Selected(p, c))
  }

  /** `Array.prototype.filter` distributes over concatenation. */
  lemma {:induction false} FilterAppend(a: seq<Product>, b: seq<Product>, keep: Product -> bool)
    ensures Filter(a + b, keep) == Filter(a, keep) + Filter(b, keep)
  {
    if a == [] {
      assert a + b == b;
    } else {
      assert (a + b)[1..] == a[1..] + b;
      FilterAppend(a[1..], b, keep);
    }
  }

  /** The three orders the comparator's `switch` distinguishes. */
  datatype SortKey = PriceLow | PriceHigh | Newest

  /** The `switch (sortBy)`: "newest" and every unrecognised value fall to
      the default branch. */
  function KeyOf(sortBy: string): SortKey {
    if sortBy == "price-low" then PriceLow
    else if sortBy == "price-high" then PriceHigh
    else Newest
  }

  /** The sort order as a number: the comparator of each key orders
      products by this value, smallest first. */
  function Rank(key: SortKey, p: Product): real {
    match key
    case PriceLow => p.price
    case PriceHigh => -p.price
    case Newest => -(p.createdAt as real)
  }

  /** The comparator passed to `sort`: negative when `a` goes first. */
  function Compare(key: SortKey, a: Product, b: Product): (r: real)
    ensures r < 0.0 <==> Rank(key, a) < Rank(key, b)
  {
    match key
    case PriceLow => a.price - b.price
    case PriceHigh => b.price - a.price
    case Newest => (b.createdAt - a.createdAt) as real
  }

  /** Every product is ranked no lower than the ones before it. */
  ghost predicate Sorted(s: seq<Product>, key: SortKey) {
    forall i, j | 0 <= i < j < |s| :: Rank(key, s[i]) <= Rank(key, s[j])
  }

  /** The products of `s` whose rank is `v`, in order: the tie group that a
      stable sort must leave in its original order. */
  function Ties(s: seq<Product>, key: SortKey, v: real): seq<Product> {
    if s == [] then []
    else (if Rank(key, s[0]) == v then [s[0]] else []) + Ties(s[1..], key, v)
  }

  /** Puts `x` before the first product of `s` that the comparator does
      not place strictly before it. */
  function Insert(x: Product, s: seq<Product>, key: SortKey): (r: seq<Product>)
    ensures multiset(r) == multiset(s) + multiset{x}
  {
    if s == [] then [x]
    else if Compare(key, s[0], x) < 0.0 then
      assert s == [s[0]] + s[1..];
      [s[0]] + Insert(x, s[1..], key)
    else [x] + s
  }

  /** A product ranked no higher than everything in a sorted sequence can
      go in front of it. */
  lemma SortedCons(h: Product, t: seq<Product>, key: SortKey)
    requires Sorted(t, key)
    requires forall y | y in t :: Rank(key, h) <= Rank(key, y)
    ensures Sorted([h] + t, key)
  {
    var r := [h] + t;
    forall i, j | 0 <= i < j < |r| ensures Rank(key, r[i]) <= Rank(key, r[j]) {
      assert r[j] == t[j - 1];
      if i > 0 {
        assert r[i] == t[i - 1];
      }
    }
  }

  /** The first product of a sorted sequence is ranked lowest. */
  lemma SortedHead(s: seq<Product>, key: SortKey)
    requires Sorted(s, key) && s != []
    ensures forall y | y in s :: Rank(key, s[0]) <= Rank(key, y)
  {
  }

  /** Inserting into a sorted sequence keeps it sorted. */
  lemma {:induction false} InsertSorted(x: Product, s: seq<Product>, key: SortKey)
    requires Sorted(s, key)
    ensures Sorted(Insert(x, s, key), key)
  {
    if s == [] {
    } else if Compare(key, s[0], x) < 0.0 {
      var tail := s[1..];
      var rest := Insert(x, tail, key);
      InsertSorted(x, tail, key);
      SortedHead(s, key);
      forall y | y in rest ensures Rank(key, s[0]) <= Rank(key, y) {
        assert y in multiset(rest);
        assert y == x || y in multiset(tail);
      }
      SortedCons(s[0], rest, key);
    } else {
      SortedHead(s, key);
      SortedCons(x, s, key);
    }
  }

  /** The inserted product joins its tie group in front; every other tie
      group is unchanged. */
  lemma {:induction false} InsertTies(x: Product, s: seq<Product>, key: SortKey, v: real)
    ensures Ties(Insert(x, s, key), key, v) == (if Rank(key, x) == v then [x] else []) + Ties(s, key, v)
  {
    var tx := if Rank(key, x) == v then [x] else [];
    if s == [] {
      TiesCons(x, [], key, v);
    } else if Compare(key, s[0], x) < 0.0 {
      var tail := s[1..];
      var t0 := if Rank(key, s[0]) == v then [s[0]] else [];
      InsertTies(x, tail, key, v);
      TiesCons(s[0], Insert(x, tail, key), key, v);
      var rest := Ties(tail, key, v);
      assert Ties(s, key, v) == t0 + rest;
      assert t0 == [] || tx == [];
      SwapAroundEmpty(t0, tx, rest);
    } else {
      TiesCons(x, s, key, v);
    }
  }

  /** Two sequences one of which is empty can be put in either order. */
  lemma SwapAroundEmpty<T>(a: seq<T>, b: seq<T>, c: seq<T>)
    requires a == [] || b == []
    ensures a + (b + c) == b + (a + c)
  {
    if a == [] {
      assert a + (b + c) == b + c;
      assert a + c == c;
    } else {
      assert b + c == c;
      assert b + (a + c) == a + c;
    }
  }

  lemma TiesCons(h: Product, t: seq<Product>, key: SortKey, v: real)
    ensures Ties([h] + t, key, v) == (if Rank(key, h) == v then [h] else []) + Ties(t, key, v)
  {
    assert ([h] + t)[1..] == t;
  }

  /** `filtered.sort(comparator)`: a stable sort, modelled as insertion
      sort. */
  function Sort(s: seq<Product>, key: SortKey): (r: seq<Product>)
    ensures multiset(r) == multiset(s)
    ensures Sorted(r, key)
  {
    if s == [] then []
    else
      assert s == [s[0]] + s[1..];
      var rest := Sort(s[1..], key);
      InsertSorted(s[0], rest, key);
      Insert(s[0], rest, key)
  }

  /** The sort is stable: each tie group keeps its original order. */
  lemma {:induction false} SortStable(s: seq<Product>, key: SortKey, v: real)
    ensures Ties(Sort(s, key), key, v) == Ties(s, key, v)
  {
    if s != [] {
      SortStable(s[1..], key, v);
      InsertTies(s[0], Sort(s[1..], key), key, v);
    }
  }

  /** Sorting an already sorted sequence changes nothing. */
  lemma {:induction false} SortOfSorted(s: seq<Product>, key: SortKey)
    requires Sorted(s, key)
    ensures Sort(s, key) == s
  {
    if s != [] {
      SortedTail(s, key);
      SortOfSorted(s[1..], key);
      SortStep(s, key);
    }
  }

  /** Sorting leaves `s` alone when it leaves the tail alone and the head
      is ranked no higher than the next product. */
  lemma SortStep(s: seq<Product>, key: SortKey)
    requires s != [] && Sort(s[1..], key) == s[1..]
    requires |s| > 1 ==> Rank(key, s[0]) <= Rank(key, s[1])
    ensures Sort(s, key) == s
  {
    InsertFront(s[0], s[1..], key);
    assert s == [s[0]] + s[1..];
  }

  /** Dropping the head of a sorted sequence leaves it sorted, and the head
      is ranked no higher than what follows. */
  lemma SortedTail(s: seq<Product>, key: SortKey)
    requires Sorted(s, key) && s != []
    ensures Sorted(s[1..], key)
    ensures |s| > 1 ==> Rank(key, s[0]) <= Rank(key, s[1])
  {
    var t := s[1..];
    forall i, j | 0 <= i < j < |t| ensures Rank(key, t[i]) <= Rank(key, t[j]) {
      assert t[i] == s[i + 1] && t[j] == s[j + 1];
    }
  }

  /** A product ranked no higher than the head goes in front. */
  lemma InsertFront(x: Product, s: seq<Product>, key: SortKey)
    requires s != [] ==> Rank(key, x) <= Rank(key, s[0])
    ensures Insert(x, s, key) == [x] + s
  {
  }

  /** The effect that recomputes the displayed list. */
  function Pipeline(ps: seq<Product>, c: Criteria): (r: seq<Product>)
    ensures forall i | 0 <= i < |r| :: NameMatches(r[i], c.search) && InPriceRange(r[i], c.lo, c.hi)
    ensures Sorted(r, KeyOf(c.sortBy))
  {
    var byName := Filter(ps, p => NameMatches(p, c.search));
    var byPrice := Filter(byName, p => InPriceRange(p, c.lo, c.hi));
    assert forall i | 0 <= i < |byPrice| :: Selected(byPrice[i], c);
    var r := Sort(byPrice, KeyOf(c.sortBy));
    PermutationKeepsSelected(byPrice, r, c);
    r
  }

  /** Reordering a list of selected products leaves only selected
      products. */
  lemma PermutationKeepsSelected(s: seq<Product>, r: seq<Product>, c: Criteria)
    requires multiset(r) == multiset(s)
    requires forall i | 0 <= i < |s| :: Selected(s[i], c)
    ensures forall i | 0 <= i < |r| :: Selected(r[i], c)
  {
    forall i | 0 <= i < |r| ensures Selected(r[i], c) {
      assert r[i] in multiset(s);
    }
  }

  /** The displayed list holds every copy of each product that passes both
      tests and nothing else. */
  lemma PipelineCount(ps: seq<Product>, c: Criteria, x: Product)
    ensures multiset(Pipeline(ps, c))[x] == if Selected(x, c) then multiset(ps)[x] else 0
  {
    var nameTest := p => NameMatches(p, c.search);
    var priceTest := p => InPriceRange(p, c.lo, c.hi);
    FilterCount(ps, nameTest, x);
    FilterCount(Filter(ps, nameTest), priceTest, x);
  }

  /** Filtering by name and then by price is one filter by both tests. */
  lemma {:induction false} FilterTwiceIsKept(ps: seq<Product>, c: Criteria)
    ensures Filter(Filter(ps, p => NameMatches(p, c.search)), p => InPriceRange(p, c.lo, c.hi)) == Kept(ps, c)
  {
    var nameTest := p => NameMatches(p, c.search);
    var priceTest := p => InPriceRange(p, c.lo, c.hi);
    if ps != [] {
      FilterTwiceIsKept(ps[1..], c);
      var head := if nameTest(ps[0]) then [ps[0]] else [];
      assert Filter(ps, nameTest) == head + Filter(ps[1..], nameTest);
      FilterAppend(head, Filter(ps[1..], nameTest), priceTest);
      assert Kept(ps, c) == (if Selected(ps[0], c) then [ps[0]] else []) + Kept(ps[1..], c);
    }
  }

  /** Products that tie under the sort key appear in catalogue order. */
  lemma PipelineStable(ps: seq<Product>, c: Criteria, v: real)
    ensures Ties(Pipeline(ps, c), KeyOf(c.sortBy), v) == Ties(Kept(ps, c), KeyOf(c.sortBy), v)
  {
    FilterTwiceIsKept(ps, c);
    SortStable(Kept(ps, c), KeyOf(c.sortBy), v);
  }

  /** "price-low" lists prices in non-decreasing order. */
  lemma PriceLowAscending(ps: seq<Product>, c: Criteria)
    requires c.sortBy == "price-low"
    ensures var r := Pipeline(ps, c);
      forall i, j | 0 <= i < j < |r| :: r[i].price <= r[j].price
  {
  }

  /** "price-high" lists prices in non-increasing order. */
  lemma PriceHighDescending(ps: seq<Product>, c: Criteria)
    requires c.sortBy == "price-high"
    ensures var r := Pipeline(ps, c);
      forall i, j | 0 <= i < j < |r| :: r[i].price >= r[j].price
  {
    var r := Pipeline(ps, c);
    forall i, j | 0 <= i < j < |r| ensures r[i].price >= r[j].price {
      assert Rank(KeyOf(c.sortBy), r[i]) <= Rank(KeyOf(c.sortBy), r[j]);
    }
  }

  /** "newest", and every key that is not a price key, lists creation times
      in non-increasing order. */
  lemma NewestFirst(ps: seq<Product>, c: Criteria)
    requires c.sortBy != "price-low" && c.sortBy != "price-high"
    ensures var r := Pipeline(ps, c);
      forall i, j | 0 <= i < j < |r| :: r[i].createdAt >= r[j].createdAt
  {
    var r := Pipeline(ps, c);
    forall i, j | 0 <= i < j < |r| ensures r[i].createdAt >= r[j].createdAt {
      assert Rank(KeyOf(c.sortBy), r[i]) <= Rank(KeyOf(c.sortBy), r[j]);
    }
  }

  /** Running the pipeline on its own output with the same criteria gives
      the same list. */
  lemma Idempotent(ps: seq<Product>, c: Criteria)
    ensures Pipeline(Pipeline(ps, c), c) == Pipeline(ps, c)
  {
    var r := Pipeline(ps, c);
    var nameTest := p => NameMatches(p, c.search);
    var priceTest := p => InPriceRange(p, c.lo, c.hi);
    assert Filter(r, nameTest) == r;
    assert Filter(r, priceTest) == r;
    SortOfSorted(r, KeyOf(c.sortBy));
  }

  /** A matching product priced exactly at either end of the range is
      shown. */
  lemma BoundsAreInclusive(ps: seq<Product>, c: Criteria, p: Product)
    requires p in ps && NameMatches(p, c.search)
    requires p.price == c.lo <= c.hi || c.lo <= c.hi == p.price
    ensures p in Pipeline(ps, c)
  {
    PipelineCount(ps, c, p);
    assert multiset(ps)[p] > 0;
    assert multiset(Pipeline(ps, c))[p] > 0;
  }

  const Lamp := Product(1, "Lamp", 20.0, "", 1)
  const Chair := Product(2, "Chair", 50.0, "", 2)
  const Shade := Product(3, "Lamp Shade", 15.0, "", 3)
  const LampSearch := Criteria("lamp", 0.0, 100.0, "price-low")

  lemma LampMatches()
    ensures Selected(Lamp, LampSearch) && Selected(Shade, LampSearch)
  {
    assert Lower("lamp") == "lamp";
    assert Lower("Lamp") == "lamp";
    assert Lower("Lamp Shade") == "lamp shade";
    assert OccursAt("lamp", "lamp", 0);
    assert OccursAt("lamp shade", "lamp", 0);
  }

  lemma ChairDoesNotMatch()
    ensures !Selected(Chair, LampSearch)
  {
    assert Lower("lamp") == "lamp";
    assert Lower("Chair") == "chair";
    forall i | 0 <= i <= 1 ensures !OccursAt("chair", "lamp", i) {
      assert "chair"[i..i + 4][0] != 'l';
    }
  }

  /** Two distinct products sorted cheapest first can only be in one order. */
  lemma CheaperFirst(r: seq<Product>, a: Product, b: Product)
    requires multiset(r) == multiset{a, b}
    requires a.price < b.price
    requires Sorted(r, PriceLow)
    ensures r == [a, b]
  {
    assert |r| == |multiset(r)| == 2;
    assert r[0] in multiset(r) && r[1] in multiset(r);
    assert multiset(r) == multiset{r[0], r[1]} by { assert r == [r[0], r[1]]; }
    assert Rank(PriceLow, r[0]) <= Rank(PriceLow, r[1]);
    assert r == [r[0], r[1]];
  }

  lemma LampCount(x: Product)
    ensures multiset(Pipeline([Lamp, Chair, Shade], LampSearch))[x] == multiset{Shade, Lamp}[x]
  {
    LampMatches();
    ChairDoesNotMatch();
    PipelineCount([Lamp, Chair, Shade], LampSearch, x);
    if x != Lamp && x != Chair && x != Shade {
      assert multiset([Lamp, Chair, Shade])[x] == 0;
    }
  }

  /** Searching "lamp" between 0 and 100, cheapest first, over a lamp at
      20, a chair at 50 and a lamp shade at 15 shows the shade, then the
      lamp. */
  lemma LampScenario()
    ensures Pipeline([Lamp, Chair, Shade], LampSearch) == [Shade, Lamp]
  {
    var r := Pipeline([Lamp, Chair, Shade], LampSearch);
    forall x ensures multiset(r)[x] == multiset{Shade, Lamp}[x] {
      LampCount(x);
    }
    assert KeyOf(LampSearch.sortBy) == PriceLow;
    CheaperFirst(r, Shade, Lamp);
  }
}
