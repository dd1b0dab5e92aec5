/**
 * The product listing pipeline `applyFiltersAndSort`: keep the selected
 * category (unless "all" is selected), keep the products whose lowercased
 * title or description contains the search term (when there is one), then
 * sort by the selected key (when there is one). The sort is the stable
 * `Array.prototype.sort` with the source's comparators, written here as a
 * stable insertion sort.
 */
module ProductFilter {
  import opened Wrappers
  import opened Seqs
  import opened Catalog
  import opened Text

  /** The category option that switches the category filter off. */
  const AllCategories: string := "all"

  function InCategory(category: string): Product -> bool
  {
    (p: Product) => p.category == category
  }

  /** The search filter: the lowercased title or the lowercased description contains the term. */
  predicate MatchesTerm(p: Product, term: string)
  {
    Includes(Lower(p.title), term) || Includes(Lower(p.description), term)
  }

  /**
   * A product matches when the term occurs at some position of its
   * lowercased title or of its lowercased description; the empty term matches
   * every product.
   */
  lemma MatchesTermIff(p: Product, term: string)
    ensures MatchesTerm(p, term) <==>
              || (exists i :: 0 <= i <= |Lower(p.title)| && term <= Lower(p.title)[i..])
              || (exists i :: 0 <= i <= |Lower(p.description)| && term <= Lower(p.description)[i..])
    ensures term == [] ==> MatchesTerm(p, term)
  {
    IncludesIff(Lower(p.title), term);
    IncludesIff(Lower(p.description), term);
  }

  function Matching(term: string): Product -> bool
  {
    (p: Product) => MatchesTerm(p, term)
  }

  /** Whether a product is listed for the selected category and the (normalised) search term. */
  predicate Listed(p: Product, category: string, term: string)
  {
    && (category == AllCategories || p.category == category)
    && (term == [] || MatchesTerm(p, term))
  }

  function ListedBy(category: string, term: string): Product -> bool
  {
    (p: Product) => Listed(p, category, term)
  }

  /** The sort options that reorder the list; any other option value leaves the order alone. */
  datatype SortKey = PriceAsc | PriceDesc | NameAsc | NameDesc

  /** The value of the sort drop-down that selects each key. */
  function OptionValue(key: SortKey): string
  {
    match key
    case PriceAsc => "price-asc"
    case PriceDesc => "price-desc"
    case NameAsc => "name-asc"
    case NameDesc => "name-desc"
  }

  /** The `switch` on the sort drop-down's value. */
  function ParseSortKey(sortValue: string): Option<SortKey>
  {
    if sortValue == "price-asc" then Some(PriceAsc)
    else if sortValue == "price-desc" then Some(PriceDesc)
    else if sortValue == "name-asc" then Some(NameAsc)
    else if sortValue == "name-desc" then Some(NameDesc)
    else None
  }

  /**
   * Each key is selected by its own option value and only by it; every other
   * value selects no sort.
   */
  lemma ParseSortKeyInverse(sortValue: string, key: SortKey)
    ensures ParseSortKey(OptionValue(key)) == Some(key)
    ensures ParseSortKey(sortValue) == Some(key) <==> sortValue == OptionValue(key)
    ensures ParseSortKey(sortValue).None? <==> forall k: SortKey :: sortValue != OptionValue(k)
  {
    assert OptionValue(PriceAsc) == "price-asc";
    assert OptionValue(PriceDesc) == "price-desc";
    assert OptionValue(NameAsc) == "name-asc";
    assert OptionValue(NameDesc) == "name-desc";
  }

  /** Lexicographic order of titles by code point, standing in for `localeCompare`. */
  predicate TitleLe(a: string, b: string)
  {
    if a == [] then true
    else if b == [] then false
    else if a[0] != b[0] then a[0] < b[0]
    else TitleLe(a[1..], b[1..])
  }

  lemma {:induction false} TitleLeReflexive(a: string)
    ensures TitleLe(a, a)
  {
    if a != [] {
      TitleLeReflexive(a[1..]);
    }
  }

  lemma {:induction false} TitleLeTotal(a: string, b: string)
    ensures TitleLe(a, b) || TitleLe(b, a)
  {
    if a != [] && b != [] && a[0] == b[0] {
      TitleLeTotal(a[1..], b[1..]);
    }
  }

  lemma {:induction false} TitleLeTransitive(a: string, b: string, c: string)
    requires TitleLe(a, b) && TitleLe(b, c)
    ensures TitleLe(a, c)
  {
    if a != [] && a[0] == b[0] && b[0] == c[0] {
      TitleLeTransitive(a[1..], b[1..], c[1..]);
    }
  }

  lemma {:induction false} TitleLeAntisymmetric(a: string, b: string)
    requires TitleLe(a, b) && TitleLe(b, a)
    ensures a == b
  {
    if a != [] {
      TitleLeAntisymmetric(a[1..], b[1..]);
      assert a == [a[0]] + a[1..] && b == [b[0]] + b[1..];
    }
  }

  /**
   * `a` may come before `b` under the comparator of `key`: the comparator
   * does not return a positive number for (a, b).
   */
  predicate Precedes(a: Product, b: Product, key: SortKey)
  {
    match key
    case PriceAsc => a.price <= b.price
    case PriceDesc => b.price <= a.price
    case NameAsc => TitleLe(a.title, b.title)
    case NameDesc => TitleLe(b.title, a.title)
  }

  lemma PrecedesTotal(a: Product, b: Product, key: SortKey)
    ensures Precedes(a, b, key) || Precedes(b, a, key)
  {
    TitleLeTotal(a.title, b.title);
  }

  lemma PrecedesTransitive(a: Product, b: Product, c: Product, key: SortKey)
    requires Precedes(a, b, key) && Precedes(b, c, key)
    ensures Precedes(a, c, key)
  {
    match key
    case NameAsc => TitleLeTransitive(a.title, b.title, c.title);
    case NameDesc => TitleLeTransitive(c.title, b.title, a.title);
    case _ =>
  }

  /** The comparator of `key` returns 0: equal prices for a price sort, equal titles for a name sort. */
  predicate Tied(a: Product, b: Product, key: SortKey)
  {
    Precedes(a, b, key) && Precedes(b, a, key)
  }

  lemma TiedMeansEqualKey(a: Product, b: Product, key: SortKey)
    ensures Tied(a, b, key) <==> if key.PriceAsc? || key.PriceDesc? then a.price == b.price else a.title == b.title
  {
    if a.title == b.title {
      TitleLeReflexive(a.title);
    }
    if TitleLe(a.title, b.title) && TitleLe(b.title, a.title) {
      TitleLeAntisymmetric(a.title, b.title);
    }
  }

  function TiedWith(z: Product, key: SortKey): Product -> bool
  {
    (y: Product) => Tied(y, z, key)
  }

  /** Every earlier product may come before every later one. */
  predicate Sorted(s: seq<Product>, key: SortKey)
  {
    forall i, j :: 0 <= i < j < |s| ==> Precedes(s[i], s[j], key)
  }

  /** Insert `x` before the first element it may precede. */
  function Insert(x: Product, t: seq<Product>, key: SortKey): (r: seq<Product>)
    ensures multiset(r) == multiset(t) + multiset{x}
  {
    if t == [] then [x]
    else if Precedes(x, t[0], key) then [x] + t
    else
      assert t == [t[0]] + t[1..];
      [t[0]] + Insert(x, t[1..], key)
  }

  /** The stable sort by `key`: insert the head into the sorted tail. */
  function SortBy(s: seq<Product>, key: SortKey): (r: seq<Product>)
    ensures multiset(r) == multiset(s)
  {
    if s == [] then []
    else
      assert s == [s[0]] + s[1..];
      Insert(s[0], SortBy(s[1..], key), key)
  }

  /** A sorted list stays sorted when a product that may precede all of it is put in front. */
  lemma SortedCons(x: Product, t: seq<Product>, key: SortKey)
    requires Sorted(t, key)
    requires forall k :: 0 <= k < |t| ==> Precedes(x, t[k], key)
    ensures Sorted([x] + t, key)
  {
    var r := [x] + t;
    forall i, j | 0 <= i < j < |r|
      ensures Precedes(r[i], r[j], key)
    {
      assert r[j] == t[j - 1];
      if i > 0 {
        assert r[i] == t[i - 1];
      }
    }
  }

  lemma {:induction false} InsertSorted(x: Product, t: seq<Product>, key: SortKey)
    requires Sorted(t, key)
    ensures Sorted(Insert(x, t, key), key)
  {
    if t == [] {
    } else if Precedes(x, t[0], key) {
      forall k | 0 <= k < |t|
        ensures Precedes(x, t[k], key)
      {
        if k > 0 {
          PrecedesTransitive(x, t[0], t[k], key);
        }
      }
      SortedCons(x, t, key);
    } else {
      PrecedesTotal(x, t[0], key);
      var tail := t[1..];
      assert Sorted(tail, key) by {
        assert forall i :: 0 <= i < |tail| ==> tail[i] == t[i + 1];
      }
      InsertSorted(x, tail, key);
      var ins := Insert(x, tail, key);
      forall k | 0 <= k < |ins|
        ensures Precedes(t[0], ins[k], key)
      {
        assert ins[k] in multiset(ins);
        if ins[k] != x {
          assert ins[k] in multiset(tail);
          var m :| 0 <= m < |tail| && tail[m] == ins[k];
          assert t[m + 1] == ins[k];
        }
      }
      SortedCons(t[0], ins, key);
    }
  }

  /** SortBy yields a list sorted by `key`. */
  lemma {:induction false} SortBySorted(s: seq<Product>, key: SortKey)
    ensures Sorted(SortBy(s, key), key)
  {
    if s != [] {
      SortBySorted(s[1..], key);
      InsertSorted(s[0], SortBy(s[1..], key), key);
    }
  }

  lemma {:induction false} InsertStable(x: Product, t: seq<Product>, key: SortKey, z: Product)
    ensures Filter(Insert(x, t, key), TiedWith(z, key))
            == (if Tied(x, z, key) then [x] else []) + Filter(t, TiedWith(z, key))
  {
    if t == [] {
      assert Insert(x, t, key) == [x];
      assert [x][1..] == [];
    } else if Precedes(x, t[0], key) {
      var r := [x] + t;
      assert r[0] == x && r[1..] == t;
    } else {
      var ins := Insert(x, t[1..], key);
      InsertStable(x, t[1..], key, z);
      var r := [t[0]] + ins;
      assert r[0] == t[0] && r[1..] == ins;
      if Tied(x, z, key) && Tied(t[0], z, key) {
        PrecedesTransitive(x, z, t[0], key);
        assert false;
      }
    }
  }

  /**
   * The sort is stable: for any product `z`, the products tied with `z`
   * appear in the sorted list in the same order as in the input.
   */
  lemma {:induction false} SortByStable(s: seq<Product>, key: SortKey, z: Product)
    ensures Filter(SortBy(s, key), TiedWith(z, key)) == Filter(s, TiedWith(z, key))
  {
    if s != [] {
      SortByStable(s[1..], key, z);
      InsertStable(s[0], SortBy(s[1..], key), key, z);
    }
  }

  /** Prices 30, 10, 20 come out as 10, 20, 30 under "price-asc" and as 30, 20, 10 under "price-desc". */
  lemma PriceSortExample(a: Product, b: Product, c: Product)
    requires a.price == 30 && b.price == 10 && c.price == 20
    ensures SortBy([a, b, c], PriceAsc) == [b, c, a]
    ensures SortBy([a, b, c], PriceDesc) == [a, c, b]
  {
    assert [a, b, c][1..] == [b, c] && [b, c][1..] == [c] && [c][1..] == [];
    assert SortBy([c], PriceAsc) == [c] && SortBy([c], PriceDesc) == [c];
    assert Insert(b, [c], PriceAsc) == [b, c];
    assert Insert(a, [c], PriceAsc) == [c, a];
    assert Insert(a, [b, c], PriceAsc) == [b, c, a];
    assert Insert(b, [c], PriceDesc) == [c, b];
    assert Insert(a, [c, b], PriceDesc) == [a, c, b];
  }

  /** The staged filters of the pipeline select what `Listed` selects. */
  lemma StagedFilters(allProducts: seq<Product>, category: string, term: string)
    ensures var afterCategory := if category != AllCategories then Filter(allProducts, InCategory(category)) else allProducts;
            var afterSearch := if term != [] then Filter(afterCategory, Matching(term)) else afterCategory;
            afterSearch == Filter(allProducts, ListedBy(category, term))
  {
    if category != AllCategories && term != [] {
      FilterFilter(allProducts, InCategory(category), Matching(term), ListedBy(category, term));
    } else if category != AllCategories {
      FilterExtensional(allProducts, InCategory(category), ListedBy(category, term));
    } else if term != [] {
      FilterExtensional(allProducts, Matching(term), ListedBy(category, term));
    } else {
      FilterKeepsAll(allProducts, ListedBy(category, term));
    }
  }

  /**
   * `applyFiltersAndSort`: the listed products are the catalog's products
   * of the selected category that match the search term, as an
   * order-preserving subsequence of the catalog, then stably sorted when a
   * sort option is selected. With "all", an empty term and no sort option
   * the catalog is listed unchanged.
   */
  method ApplyFiltersAndSort(allProducts: seq<Product>, selectedCategory: string, searchInput: string, sortValue: string)
    returns (filteredProducts: seq<Product>)
    ensures var listed := Filter(allProducts, ListedBy(selectedCategory, SearchTerm(searchInput)));
            && IsSubseq(listed, allProducts)
            && multiset(filteredProducts) == multiset(listed)
            && (ParseSortKey(sortValue).None? ==> filteredProducts == listed)
            && (ParseSortKey(sortValue).Some? ==> filteredProducts == SortBy(listed, ParseSortKey(sortValue).value))
    ensures forall p :: p in filteredProducts <==> p in allProducts && Listed(p, selectedCategory, SearchTerm(searchInput))
    ensures ParseSortKey(sortValue).Some? ==> Sorted(filteredProducts, ParseSortKey(sortValue).value)
    ensures (selectedCategory == AllCategories && SearchTerm(searchInput) == [] && ParseSortKey(sortValue).None?)
              ==> filteredProducts == allProducts
  {
    var searchTerm := SearchTerm(searchInput);
    StagedFilters(allProducts, selectedCategory, searchTerm);
    filteredProducts := allProducts;
    if selectedCategory != AllCategories {
      filteredProducts := Filter(filteredProducts, InCategory(selectedCategory));
    }
    if searchTerm != [] {
      filteredProducts := Filter(filteredProducts, Matching(searchTerm));
    }
    ghost var listed := filteredProducts;
    assert forall p :: p in listed <==> p in allProducts && Listed(p, selectedCategory, searchTerm);
    var sortKey := ParseSortKey(sortValue);
    if sortKey.Some? {
      SortBySorted(filteredProducts, sortKey.value);
      filteredProducts := SortBy(filteredProducts, sortKey.value);
      assert forall p :: p in filteredProducts <==> p in multiset(listed);
    }
    if selectedCategory == AllCategories && searchTerm == [] {
      assert listed == allProducts;
    }
  }
}
