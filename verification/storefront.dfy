/** The derived views of the storefront pages: the home page's featured
    products, the product list's category options, and its quick price
    presets. */
module Storefront {
  import opened Outcomes
  import opened Seqs
  import opened Paging
  import opened Catalog

  // ---------------------------------------------------------------------
  // Featured products
  // ---------------------------------------------------------------------

  /** Rated at least 4.0 by at least 100 reviewers. */
  predicate Qualifies(p: Product)
  {
    p.rating.rate >= 4.0 && p.rating.count >= 100
  }

  function QualifiesKeep(): Product -> bool
  {
    (p: Product) => Qualifies(p)
  }

  /** Sorting by the negated rate with a stable ascending sort is the
      descending comparator `(a, b) => b.rating.rate - a.rating.rate`. */
  function NegRate(): Product -> real
  {
    (p: Product) => -p.rating.rate
  }

  /** The home page's featured list: the qualifying products, best rated
      first, at most eight of them. With no products loaded the list it
      already shows is kept. */
  function Featured(products: seq<Product>, previous: seq<Product>): (r: seq<Product>)
    ensures |products| == 0 ==> r == previous
    ensures |products| > 0 ==> |r| == Min(8, |Filter(products, QualifiesKeep())|)
    ensures |products| > 0 ==> forall i :: 0 <= i < |r| ==> Qualifies(r[i])
    ensures |products| > 0 ==> forall i, j :: 0 <= i < j < |r| ==> r[i].rating.rate >= r[j].rating.rate
    ensures |products| > 0 ==> multiset(r) <= multiset(products)
  {
    if |products| == 0 then previous
    else
      var qualifying := Filter(products, QualifiesKeep());
      var sorted := SortBy(qualifying, NegRate());
      RankedAllQualify(products, sorted);
      var r := sorted[..Min(8, |sorted|)];
      RankedPrefix(sorted, Min(8, |sorted|));
      r
  }

  /** Whatever order the qualifying products are put in, each of them
      qualifies and they are among the products. */
  lemma RankedAllQualify(products: seq<Product>, sorted: seq<Product>)
    requires multiset(sorted) == multiset(Filter(products, QualifiesKeep()))
    ensures forall i :: 0 <= i < |sorted| ==> Qualifies(sorted[i])
    ensures multiset(sorted) <= multiset(products)
  {
    forall i | 0 <= i < |sorted|
      ensures Qualifies(sorted[i])
    {
      assert sorted[i] in multiset(sorted);
    }
  }

  /** A prefix of a list ordered best rated first is itself ordered, and
      takes nothing the list does not hold. */
  lemma RankedPrefix(sorted: seq<Product>, k: nat)
    requires k <= |sorted| && SortedBy(sorted, NegRate())
    ensures forall i, j :: 0 <= i < j < k ==> sorted[..k][i].rating.rate >= sorted[..k][j].rating.rate
    ensures multiset(sorted[..k]) <= multiset(sorted)
  {
    assert sorted == sorted[..k] + sorted[k..];
    assert multiset(sorted) == multiset(sorted[..k]) + multiset(sorted[k..]);
    forall i, j | 0 <= i < j < k
      ensures sorted[..k][i].rating.rate >= sorted[..k][j].rating.rate
    {
      assert NegRate()(sorted[i]) <= NegRate()(sorted[j]);
    }
  }

  /** The featured list holds the best-rated qualifying products: any
      qualifying product left out (or included fewer times than it occurs)
      is rated no higher than every featured one. */
  lemma FeaturedIsTopRated(products: seq<Product>, previous: seq<Product>, p: Product)
    requires |products| > 0 && Qualifies(p)
    requires multiset(Featured(products, previous))[p] < multiset(products)[p]
    ensures forall i :: 0 <= i < |Featured(products, previous)| ==> p.rating.rate <= Featured(products, previous)[i].rating.rate
  {
    var qualifying := Filter(products, QualifiesKeep());
    var sorted := SortBy(qualifying, NegRate());
    var k := Min(8, |sorted|);
    assert sorted[..k] == Featured(products, previous);
    assert multiset(sorted)[p] == multiset(products)[p];
    SortedPrefixSmallest(sorted, k, NegRate(), p);
    forall i | 0 <= i < k
      ensures p.rating.rate <= sorted[i].rating.rate
    {
      assert NegRate()(sorted[i]) <= NegRate()(p);
    }
  }

  // ---------------------------------------------------------------------
  // Category options
  // ---------------------------------------------------------------------

  function Categories(products: seq<Product>): (r: seq<string>)
    ensures |r| == |products|
    ensures forall i :: 0 <= i < |products| ==> r[i] == products[i].category
  {
    seq(|products|, i requires 0 <= i < |products| => products[i].category)
  }

  /** `Array.from(new Set(filteredProducts.map(p => p.category)))`: each
      category of the filtered products once, in order of first
      appearance. */
  function CategoryOptions(filtered: seq<Product>): (r: seq<string>)
    ensures forall c :: c in r <==> exists i :: 0 <= i < |filtered| && filtered[i].category == c
    ensures NoDuplicates(r)
    ensures IsSubseq(r, Categories(filtered))
    ensures FirstAppearanceOrder(r, Categories(filtered))
  {
    var cats := Categories(filtered);
    assert forall c :: c in cats <==> exists i :: 0 <= i < |filtered| && filtered[i].category == c by {
      forall c | c in cats
        ensures exists i :: 0 <= i < |filtered| && filtered[i].category == c
      {
        var i :| 0 <= i < |cats| && cats[i] == c;
        assert filtered[i].category == c;
      }
    }
    Distinct(cats)
  }

  // ---------------------------------------------------------------------
  // Quick price presets
  // ---------------------------------------------------------------------

  /** The four quick filter buttons. */
  datatype Preset = Under25 | From25To50 | From50To100 | Over100

  /** The `setPriceRange(min, max)` each button issues. */
  function PresetRange(preset: Preset): (Option<real>, Option<real>)
  {
    match preset
    case Under25 => (None, Some(25.0))
    case From25To50 => (Some(25.0), Some(50.0))
    case From50To100 => (Some(50.0), Some(100.0))
    case Over100 => (Some(100.0), None)
  }

  /** Pressing a preset: the catalog's `setPriceRange` with its bounds. */
  function ApplyPreset(s: State, preset: Preset): (r: State)
    ensures r.filters.search == s.filters.search && r.filters.category == s.filters.category
    ensures r.filters.minPrice == PresetRange(preset).0 && r.filters.maxPrice == PresetRange(preset).1
    ensures r.pagination.currentPage == 1
  {
    SetPriceRange(s, PresetRange(preset).0, PresetRange(preset).1)
  }

  /** The price band a preset stands for, read with inclusive bounds. */
  predicate InBand(price: real, preset: Preset)
  {
    match preset
    case Under25 => price <= 25.0
    case From25To50 => 25.0 <= price <= 50.0
    case From50To100 => 50.0 <= price <= 100.0
    case Over100 => price >= 100.0
  }

  /** A preset keeps exactly the products the other criteria keep whose
      price is in its band. */
  lemma PresetKeepsBand(f: Filters, preset: Preset, p: Product)
    ensures Matches(f.(minPrice := PresetRange(preset).0, maxPrice := PresetRange(preset).1), p)
        <==> Matches(f.(minPrice := None, maxPrice := None), p) && InBand(p.price, preset)
  {
  }

  /** Every price lies in some band, and two different bands share only
      their common boundary: 25, 50 or 100 each fall into two presets, every
      other price into one. */
  lemma PresetBands(price: real, a: Preset, b: Preset)
    ensures InBand(price, Under25) || InBand(price, From25To50) || InBand(price, From50To100) || InBand(price, Over100)
    ensures a != b && InBand(price, a) && InBand(price, b) ==> price == 25.0 || price == 50.0 || price == 100.0
    ensures price == 25.0 ==> InBand(price, Under25) && InBand(price, From25To50)
    ensures price == 50.0 ==> InBand(price, From25To50) && InBand(price, From50To100)
    ensures price == 100.0 ==> InBand(price, From50To100) && InBand(price, Over100)
  {
  }

}
