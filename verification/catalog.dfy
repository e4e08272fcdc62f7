/** The catalog store (`useProductsStore`): the fetched product list, the
    filter criteria, the filtered view, the pagination record, and the
    create / update / optimistic-delete actions. Each action is a function
    from the store state before it to the state once its API call has
    settled; the settled call is an argument. */
module Catalog {
  import opened Outcomes
  import opened Seqs
  import opened Paging
  import Text

  datatype Rating = Rating(rate: real, count: int)

  datatype Product = Product(
    id: int,
    title: string,
    price: real,
    description: string,
    category: string,
    image: string,
    rating: Rating)

  /** A `null` price bound is `None`. */
  datatype Filters = Filters(search: string, category: string, minPrice: Option<real>, maxPrice: Option<real>)

  const InitialFilters: Filters := Filters("", "all", None, None)

  datatype State = State(
    products: seq<Product>,
    originalProducts: seq<Product>,
    filteredProducts: seq<Product>,
    loading: bool,
    error: Option<string>,
    filters: Filters,
    pagination: Pagination)

  const Initial: State := State([], [], [], false, None, InitialFilters, Paging.Initial)

  // ---------------------------------------------------------------------
  // Filter engine
  // ---------------------------------------------------------------------

  /** The search term occurs, ignoring case, in the title, the description or
      the category. */
  predicate SearchHit(term: string, p: Product)
  {
    || Text.ContainsIgnoringCase(p.title, term)
    || Text.ContainsIgnoringCase(p.description, term)
    || Text.ContainsIgnoringCase(p.category, term)
  }

  /** `"all"` and `""` switch the category filter off. */
  predicate CategoryActive(category: string)
  {
    category != "all" && category != ""
  }

  /** The reference meaning of the criteria: a product passes when every
      active predicate holds of it. Price bounds are inclusive. */
  predicate Matches(f: Filters, p: Product)
  {
    && (f.search == "" || SearchHit(f.search, p))
    && (!CategoryActive(f.category) || p.category == f.category)
    && (f.minPrice.None? || p.price >= f.minPrice.value)
    && (f.maxPrice.None? || p.price <= f.maxPrice.value)
  }

  function SearchKeep(term: string): Product -> bool
  {
    (p: Product) => SearchHit(term, p)
  }

  function CategoryKeep(category: string): Product -> bool
  {
    (p: Product) => p.category == category
  }

  function MinPriceKeep(min: real): Product -> bool
  {
    (p: Product) => p.price >= min
  }

  function MaxPriceKeep(max: real): Product -> bool
  {
    (p: Product) => p.price <= max
  }

  /** The filter pipeline of `applyFilters` as written: search, then
      category, then minimum price, then maximum price, each narrowing the
      previous result. The outcome is the order-preserving subsequence of
      `all` holding exactly the products that pass every active predicate,
      each as often as in `all`. */
  function FilterProducts(all: seq<Product>, f: Filters): (r: seq<Product>)
    ensures IsSubseq(r, all)
    ensures forall p :: multiset(r)[p] == if Matches(f, p) then multiset(all)[p] else 0
  {
    var afterSearch := if f.search != "" then Filter(all, SearchKeep(f.search)) else all;
    var afterCategory := if CategoryActive(f.category) then Filter(afterSearch, CategoryKeep(f.category)) else afterSearch;
    var afterMin := if f.minPrice.Some? then Filter(afterCategory, MinPriceKeep(f.minPrice.value)) else afterCategory;
    var afterMax := if f.maxPrice.Some? then Filter(afterMin, MaxPriceKeep(f.maxPrice.value)) else afterMin;
    PipelineCounts(all, f, afterSearch, afterCategory, afterMin, afterMax);
    PipelineSubseq(all, f, afterSearch, afterCategory, afterMin, afterMax);
    afterMax
  }

  /** The counting half of the pipeline's contract, stage by stage. */
  lemma PipelineCounts(all: seq<Product>, f: Filters, afterSearch: seq<Product>, afterCategory: seq<Product>,
                       afterMin: seq<Product>, afterMax: seq<Product>)
    requires afterSearch == if f.search != "" then Filter(all, SearchKeep(f.search)) else all
    requires afterCategory == if CategoryActive(f.category) then Filter(afterSearch, CategoryKeep(f.category)) else afterSearch
    requires afterMin == if f.minPrice.Some? then Filter(afterCategory, MinPriceKeep(f.minPrice.value)) else afterCategory
    requires afterMax == if f.maxPrice.Some? then Filter(afterMin, MaxPriceKeep(f.maxPrice.value)) else afterMin
    ensures forall p :: multiset(afterMax)[p] == if Matches(f, p) then multiset(all)[p] else 0
  {
    forall p
      ensures multiset(afterMax)[p] == if Matches(f, p) then multiset(all)[p] else 0
    {
      var hit := f.search == "" || SearchHit(f.search, p);
      var cat := !CategoryActive(f.category) || p.category == f.category;
      var lo := f.minPrice.None? || p.price >= f.minPrice.value;
      var hi := f.maxPrice.None? || p.price <= f.maxPrice.value;
      assert multiset(afterSearch)[p] == if hit then multiset(all)[p] else 0;
      assert multiset(afterCategory)[p] == if hit && cat then multiset(all)[p] else 0;
      assert multiset(afterMin)[p] == if hit && cat && lo then multiset(all)[p] else 0;
      assert multiset(afterMax)[p] == if hit && cat && lo && hi then multiset(all)[p] else 0;
    }
  }

  /** The ordering half of the pipeline's contract. */
  lemma PipelineSubseq(all: seq<Product>, f: Filters, afterSearch: seq<Product>, afterCategory: seq<Product>,
                       afterMin: seq<Product>, afterMax: seq<Product>)
    requires afterSearch == if f.search != "" then Filter(all, SearchKeep(f.search)) else all
    requires afterCategory == if CategoryActive(f.category) then Filter(afterSearch, CategoryKeep(f.category)) else afterSearch
    requires afterMin == if f.minPrice.Some? then Filter(afterCategory, MinPriceKeep(f.minPrice.value)) else afterCategory
    requires afterMax == if f.maxPrice.Some? then Filter(afterMin, MaxPriceKeep(f.maxPrice.value)) else afterMin
    ensures IsSubseq(afterMax, all)
  {
    IsSubseqRefl(all);
    IsSubseqRefl(afterSearch);
    IsSubseqRefl(afterCategory);
    IsSubseqRefl(afterMin);
    assert IsSubseq(afterSearch, all);
    assert IsSubseq(afterCategory, afterSearch);
    IsSubseqTrans(afterCategory, afterSearch, all);
    assert IsSubseq(afterMin, afterCategory);
    IsSubseqTrans(afterMin, afterCategory, all);
    assert IsSubseq(afterMax, afterMin);
    IsSubseqTrans(afterMax, afterMin, all);
  }

  function MatchesKeep(f: Filters): Product -> bool
  {
    (p: Product) => Matches(f, p)
  }

  /** The four narrowing steps are one filter by the whole criterion: the
      view is exactly `all.filter(p => Matches(f, p))`, order included, so
      the order in which the steps run does not matter. */
  lemma FilterProductsIsOneFilter(all: seq<Product>, f: Filters)
    ensures FilterProducts(all, f) == Filter(all, MatchesKeep(f))
  {
    var lo := if f.minPrice.Some? then f.minPrice.value else 0.0;
    var hi := if f.maxPrice.Some? then f.maxPrice.value else 0.0;
    var k0 := Always<Product>();
    var k1 := Both(k0, When(f.search != "", SearchKeep(f.search)));
    var k2 := Both(k1, When(CategoryActive(f.category), CategoryKeep(f.category)));
    var k3 := Both(k2, When(f.minPrice.Some?, MinPriceKeep(lo)));
    var k4 := Both(k3, When(f.maxPrice.Some?, MaxPriceKeep(hi)));
    var s1 := if f.search != "" then Filter(all, SearchKeep(f.search)) else all;
    var s2 := if CategoryActive(f.category) then Filter(s1, CategoryKeep(f.category)) else s1;
    var s3 := if f.minPrice.Some? then Filter(s2, MinPriceKeep(lo)) else s2;
    var s4 := if f.maxPrice.Some? then Filter(s3, MaxPriceKeep(hi)) else s3;
    assert FilterProducts(all, f) == s4;
    FilterKeepsAll(all, k0);
    StageFuse(all, k0, f.search != "", SearchKeep(f.search));
    assert s1 == Filter(all, k1);
    StageFuse(all, k1, CategoryActive(f.category), CategoryKeep(f.category));
    assert s2 == Filter(all, k2);
    StageFuse(all, k2, f.minPrice.Some?, MinPriceKeep(lo));
    assert s3 == Filter(all, k3);
    StageFuse(all, k3, f.maxPrice.Some?, MaxPriceKeep(hi));
    assert s4 == Filter(all, k4);
    StagesAreMatches(f, k4);
    FilterExt(all, k4, MatchesKeep(f));
  }

  /** The conjunction of the four optional steps is `Matches`. */
  lemma StagesAreMatches(f: Filters, k4: Product -> bool)
    requires k4 == Both(Both(Both(Both(Always(),
                 When(f.search != "", SearchKeep(f.search))),
                 When(CategoryActive(f.category), CategoryKeep(f.category))),
                 When(f.minPrice.Some?, MinPriceKeep(if f.minPrice.Some? then f.minPrice.value else 0.0))),
                 When(f.maxPrice.Some?, MaxPriceKeep(if f.maxPrice.Some? then f.maxPrice.value else 0.0)))
    ensures forall p :: k4(p) == MatchesKeep(f)(p)
  {
  }

  /** The stores skip the search step for an empty term; running it would
      keep every product anyway, since every string includes "". */
  lemma EmptySearchKeepsAll(all: seq<Product>)
    ensures Filter(all, SearchKeep("")) == all
  {
    forall i | 0 <= i < |all|
      ensures SearchHit("", all[i])
    {
      Text.IncludesEmpty(Text.Lower(all[i].title));
    }
    FilterKeepsAll(all, SearchKeep(""));
  }

  /** Membership form of the pipeline's contract: a product is in the view
      exactly when it is in the list and passes the criteria, so every
      dropped product fails some active predicate. */
  lemma FilterProductsMembership(all: seq<Product>, f: Filters, p: Product)
    ensures p in FilterProducts(all, f) <==> p in all && Matches(f, p)
  {
    assert p in FilterProducts(all, f) <==> p in multiset(FilterProducts(all, f));
    assert p in all <==> p in multiset(all);
  }

  /** A list whose every product passes the criteria comes through the
      pipeline unchanged. */
  lemma FilterProductsKeepsMatching(s: seq<Product>, f: Filters)
    requires forall i :: 0 <= i < |s| ==> Matches(f, s[i])
    ensures FilterProducts(s, f) == s
  {
    var r := FilterProducts(s, f);
    forall p
      ensures multiset(r)[p] == multiset(s)[p]
    {
      if p in multiset(s) {
        var i :| 0 <= i < |s| && s[i] == p;
        assert Matches(f, p);
      }
    }
    assert multiset(r) == multiset(s);
    assert |r| == |multiset(r)|;
    SubseqOfSameLength(r, s);
  }

  /** Filter idempotence: running the pipeline over its own output with the
      same criteria changes nothing. */
  lemma FilterProductsIdempotent(all: seq<Product>, f: Filters)
    ensures FilterProducts(FilterProducts(all, f), f) == FilterProducts(all, f)
  {
    var r := FilterProducts(all, f);
    forall i | 0 <= i < |r|
      ensures Matches(f, r[i])
    {
      assert r[i] in multiset(r);
    }
    FilterProductsKeepsMatching(r, f);
  }

  /** The pipeline distributes over concatenation: the view of `a + b` is the
      view of `a` followed by the view of `b`. */
  lemma FilterProductsAppend(a: seq<Product>, b: seq<Product>, f: Filters)
    ensures FilterProducts(a + b, f) == FilterProducts(a, f) + FilterProducts(b, f)
  {
    if f.search != "" {
      FilterAppend(a, b, SearchKeep(f.search));
    }
    var a1 := if f.search != "" then Filter(a, SearchKeep(f.search)) else a;
    var b1 := if f.search != "" then Filter(b, SearchKeep(f.search)) else b;
    if CategoryActive(f.category) {
      FilterAppend(a1, b1, CategoryKeep(f.category));
    }
    var a2 := if CategoryActive(f.category) then Filter(a1, CategoryKeep(f.category)) else a1;
    var b2 := if CategoryActive(f.category) then Filter(b1, CategoryKeep(f.category)) else b1;
    if f.minPrice.Some? {
      FilterAppend(a2, b2, MinPriceKeep(f.minPrice.value));
    }
    var a3 := if f.minPrice.Some? then Filter(a2, MinPriceKeep(f.minPrice.value)) else a2;
    var b3 := if f.minPrice.Some? then Filter(b2, MinPriceKeep(f.minPrice.value)) else b2;
    if f.maxPrice.Some? {
      FilterAppend(a3, b3, MaxPriceKeep(f.maxPrice.value));
    }
  }

  /** The view of a single product: itself when it passes, nothing
      otherwise. */
  lemma FilterProductsSingle(p: Product, f: Filters)
    ensures FilterProducts([p], f) == if Matches(f, p) then [p] else []
  {
    var r := FilterProducts([p], f);
    if Matches(f, p) {
      FilterProductsKeepsMatching([p], f);
    } else {
      assert multiset(r) == multiset{};
    }
  }

  /** The product of the search examples below. */
  function SmartphoneCase(): Product
  {
    Product(1, "Smartphone case", 12.5, "Fits most phones", "electronics", "", Rating(4.0, 10))
  }

  /** Search ignores case and looks inside words: "phone" finds a product
      titled "Smartphone case". */
  lemma SearchFindsInsideWord()
    ensures SearchHit("phone", SmartphoneCase())
  {
    var title := Text.Lower("Smartphone case");
    assert title == "smartphone case";
    assert Text.Lower("phone") == "phone";
    assert title[5..10] == "phone";
    Text.IncludesAt(title, "phone", 5);
  }

  lemma AbsentTermField(field: string)
    requires field in {"Smartphone case", "Fits most phones", "electronics"}
    ensures !Text.ContainsIgnoringCase(field, "xyz123")
  {
    var term := Text.Lower("xyz123");
    assert term[0] == 'x';
    assert Text.Lower("Smartphone case") == "smartphone case";
    assert Text.Lower("Fits most phones") == "fits most phones";
    assert Text.Lower("electronics") == "electronics";
    Text.ExcludesWithoutFirstChar(Text.Lower(field), term);
  }

  /** A term that occurs in none of the three searched fields finds
      nothing. */
  lemma SearchMissesAbsentTerm()
    ensures !SearchHit("xyz123", SmartphoneCase())
  {
    AbsentTermField("Smartphone case");
    AbsentTermField("Fits most phones");
    AbsentTermField("electronics");
  }

  /** Price bounds are inclusive: with the range 25 to 50, prices 25.00 and
      50.00 pass while 24.99 and 50.01 do not. */
  lemma PriceBoundsExample()
    ensures var f := Filters("", "all", Some(25.0), Some(50.0));
      var at := (price: real) => Product(1, "T", price, "", "c", "", Rating(0.0, 0));
      && Matches(f, at(25.0)) && Matches(f, at(50.0))
      && !Matches(f, at(24.99)) && !Matches(f, at(50.01))
  {
  }

  // ---------------------------------------------------------------------
  // Store state and derived-view recomputation
  // ---------------------------------------------------------------------

  /** The store's derived state agrees with its authoritative state: the two
      product lists are the same list, the view is the pipeline's output, and
      the counts describe the view. Every action keeps it. */
  ghost predicate Consistent(s: State)
  {
    && s.products == s.originalProducts
    && s.filteredProducts == FilterProducts(s.originalProducts, s.filters)
    && s.pagination.totalItems == |s.filteredProducts|
    && s.pagination.totalPages == CeilDiv(s.pagination.totalItems, s.pagination.itemsPerPage)
  }

  lemma InitialConsistent()
    ensures Consistent(Initial)
  {
    assert FilterProducts([], InitialFilters) == [] by {
      SubseqShorter(FilterProducts([], InitialFilters), []);
    }
  }

  /** `applyFilters`: recomputes the view from `originalProducts`, then the
      count, the page count, and the current page clamped to `totalPages ||
      1`. Nothing else changes. */
  function ApplyFilters(s: State): (r: State)
    ensures r == s.(filteredProducts := r.filteredProducts, pagination := r.pagination)
    ensures IsSubseq(r.filteredProducts, s.originalProducts)
    ensures forall p :: multiset(r.filteredProducts)[p] == if Matches(s.filters, p) then multiset(s.originalProducts)[p] else 0
    ensures r.pagination.itemsPerPage == s.pagination.itemsPerPage
    ensures r.pagination.totalItems == |r.filteredProducts|
    ensures (r.pagination.totalPages - 1) * r.pagination.itemsPerPage < |r.filteredProducts| <= r.pagination.totalPages * r.pagination.itemsPerPage
    ensures s.pagination.currentPage >= 1 ==> 1 <= r.pagination.currentPage <= LastPage(r.pagination.totalPages)
    ensures r.pagination.currentPage <= s.pagination.currentPage
    ensures r.pagination == Recount(s.pagination, |r.filteredProducts|)
    ensures s.products == s.originalProducts ==> Consistent(r)
  {
    var filtered := FilterProducts(s.originalProducts, s.filters);
    s.(filteredProducts := filtered, pagination := Recount(s.pagination, |filtered|))
  }

  // ---------------------------------------------------------------------
  // Filter and pagination setters
  // ---------------------------------------------------------------------

  /** `setSearch`: stores the term, goes back to page 1 and refilters; page 1
      survives the clamp whatever the new count. */
  function SetSearch(s: State, search: string): (r: State)
    ensures r.filters == s.filters.(search := search)
    ensures r.pagination.currentPage == 1 && r.pagination.itemsPerPage == s.pagination.itemsPerPage
    ensures r.filteredProducts == FilterProducts(s.originalProducts, r.filters)
    ensures r == s.(filters := r.filters, filteredProducts := r.filteredProducts, pagination := r.pagination)
    ensures Consistent(s) ==> Consistent(r)
  {
    ApplyFilters(s.(filters := s.filters.(search := search), pagination := s.pagination.(currentPage := 1)))
  }

  /** `setCategory`: as `setSearch`, for the category criterion. */
  function SetCategory(s: State, category: string): (r: State)
    ensures r.filters == s.filters.(category := category)
    ensures r.pagination.currentPage == 1 && r.pagination.itemsPerPage == s.pagination.itemsPerPage
    ensures r.filteredProducts == FilterProducts(s.originalProducts, r.filters)
    ensures r == s.(filters := r.filters, filteredProducts := r.filteredProducts, pagination := r.pagination)
    ensures Consistent(s) ==> Consistent(r)
  {
    ApplyFilters(s.(filters := s.filters.(category := category), pagination := s.pagination.(currentPage := 1)))
  }

  /** `setPriceRange`: as `setSearch`, for both price bounds at once. */
  function SetPriceRange(s: State, minPrice: Option<real>, maxPrice: Option<real>): (r: State)
    ensures r.filters == s.filters.(minPrice := minPrice, maxPrice := maxPrice)
    ensures r.pagination.currentPage == 1 && r.pagination.itemsPerPage == s.pagination.itemsPerPage
    ensures r.filteredProducts == FilterProducts(s.originalProducts, r.filters)
    ensures r == s.(filters := r.filters, filteredProducts := r.filteredProducts, pagination := r.pagination)
    ensures Consistent(s) ==> Consistent(r)
  {
    ApplyFilters(s.(filters := s.filters.(minPrice := minPrice, maxPrice := maxPrice), pagination := s.pagination.(currentPage := 1)))
  }

  /** An empty price range: with a minimum above the maximum no product
      passes, whatever the other criteria. */
  lemma CrossedPriceBoundsEmpty(all: seq<Product>, f: Filters)
    requires f.minPrice.Some? && f.maxPrice.Some? && f.minPrice.value > f.maxPrice.value
    ensures FilterProducts(all, f) == []
  {
    assert multiset(FilterProducts(all, f)) == multiset{};
  }

  /** `setPage`: stores the page as given, without clamping it and without
      refiltering. */
  function SetPage(s: State, page: int): (r: State)
    ensures r.pagination.currentPage == page
    ensures r.pagination.totalPages == s.pagination.totalPages && r.pagination.totalItems == s.pagination.totalItems
    ensures r.pagination.itemsPerPage == s.pagination.itemsPerPage
    ensures r == s.(pagination := r.pagination)
    ensures Consistent(s) ==> Consistent(r)
  {
    s.(pagination := s.pagination.(currentPage := page))
  }

  /** `setItemsPerPage`: page 1 and a page count recomputed from the count
      already held, without refiltering. */
  function SetItemsPerPage(s: State, itemsPerPage: Pos): (r: State)
    ensures r.pagination.itemsPerPage == itemsPerPage && r.pagination.currentPage == 1
    ensures r.pagination.totalItems == s.pagination.totalItems
    ensures (r.pagination.totalPages - 1) * itemsPerPage < s.pagination.totalItems <= r.pagination.totalPages * itemsPerPage
    ensures r == s.(pagination := r.pagination)
    ensures Consistent(s) ==> Consistent(r)
  {
    s.(pagination := Resize(s.pagination, itemsPerPage))
  }

  /** `resetFilters`: the initial criteria and the initial pagination (page
      1, 10 per page), then a refilter, which with no active criterion shows
      the whole list. */
  function ResetFilters(s: State): (r: State)
    ensures r.filters == InitialFilters
    ensures r.filteredProducts == s.originalProducts
    ensures r.pagination.currentPage == 1 && r.pagination.itemsPerPage == 10
    ensures r.pagination.totalItems == |s.originalProducts|
    ensures r.pagination.totalPages == CeilDiv(|s.originalProducts|, 10)
    ensures r == s.(filters := r.filters, filteredProducts := r.filteredProducts, pagination := r.pagination)
    ensures Consistent(s) ==> Consistent(r)
  {
    FilterProductsKeepsMatching(s.originalProducts, InitialFilters);
    ApplyFilters(s.(filters := InitialFilters, pagination := Paging.Initial))
  }

  // ---------------------------------------------------------------------
  // Fetch, create and update
  // ---------------------------------------------------------------------

  /** `fetchProducts` once the request has settled: a loaded list becomes
      both product lists and is refiltered; a failure only records the
      message. */
  function FetchProducts(s: State, response: ApiResult<seq<Product>>): (r: State)
    ensures !r.loading
    ensures response.Ok? ==>
      && r.products == response.value && r.originalProducts == response.value
      && r.filteredProducts == FilterProducts(response.value, s.filters)
      && r.error == None && Consistent(r)
      && r.filters == s.filters
      && r.pagination == Recount(s.pagination, |r.filteredProducts|)
    ensures response.Failed? ==> r == s.(loading := false, error := Some(response.message))
  {
    match response
    case Ok(list) => ApplyFilters(s.(products := list, originalProducts := list, loading := false, error := None))
    case Failed(message) => s.(loading := false, error := Some(message))
  }

  /** `addProduct` once the create call has settled: on success the server's
      record is appended to both lists and shows up at the end of the view
      exactly when it passes the criteria; on failure nothing but the error
      changes. */
  function AddProduct(s: State, created: ApiResult<Product>): (r: State)
    ensures !r.loading
    ensures created.Ok? ==>
      && r.products == s.products + [created.value]
      && r.originalProducts == s.originalProducts + [created.value]
      && r.error == None
      && r.filters == s.filters
      && r.filteredProducts == FilterProducts(r.originalProducts, r.filters)
      && r.pagination == Recount(s.pagination, |r.filteredProducts|)
      && (Consistent(s) ==>
            && Consistent(r)
            && r.filteredProducts == s.filteredProducts + (if Matches(s.filters, created.value) then [created.value] else []))
    ensures created.Failed? ==> r == s.(loading := false, error := Some(created.message))
  {
    match created
    case Ok(p) =>
      FilterProductsAppend(s.originalProducts, [p], s.filters);
      FilterProductsSingle(p, s.filters);
      ApplyFilters(s.(products := s.products + [p], originalProducts := s.originalProducts + [p], loading := false, error := None))
    case Failed(message) => s.(loading := false, error := Some(message))
  }

  /** Every product with the given id replaced by `updated`, in place. */
  function ReplaceById(list: seq<Product>, id: int, updated: Product): (r: seq<Product>)
    ensures |r| == |list|
    ensures forall i :: 0 <= i < |list| ==> r[i] == if list[i].id == id then updated else list[i]
  {
    seq(|list|, i requires 0 <= i < |list| => if list[i].id == id then updated else list[i])
  }

  /** `updateProduct` once the update call has settled: on success the
      products carrying that id are replaced in place by the server's record
      and every other product keeps its value and position; on failure
      nothing but the error changes. */
  function UpdateProduct(s: State, id: int, updated: ApiResult<Product>): (r: State)
    ensures !r.loading
    ensures updated.Ok? ==>
      && |r.products| == |s.products| && |r.originalProducts| == |s.originalProducts|
      && (forall i :: 0 <= i < |s.products| && s.products[i].id != id ==> r.products[i] == s.products[i])
      && (forall i :: 0 <= i < |s.products| && s.products[i].id == id ==> r.products[i] == updated.value)
      && (forall i :: 0 <= i < |s.originalProducts| && s.originalProducts[i].id != id ==> r.originalProducts[i] == s.originalProducts[i])
      && (forall i :: 0 <= i < |s.originalProducts| && s.originalProducts[i].id == id ==> r.originalProducts[i] == updated.value)
      && r.error == None
      && r.filters == s.filters
      && r.filteredProducts == FilterProducts(r.originalProducts, r.filters)
      && r.pagination == Recount(s.pagination, |r.filteredProducts|)
      && (Consistent(s) ==> Consistent(r))
    ensures updated.Failed? ==> r == s.(loading := false, error := Some(updated.message))
  {
    match updated
    case Ok(p) =>
      ApplyFilters(s.(products := ReplaceById(s.products, id, p),
                      originalProducts := ReplaceById(s.originalProducts, id, p),
                      loading := false, error := None))
    case Failed(message) => s.(loading := false, error := Some(message))
  }

  // ---------------------------------------------------------------------
  // Optimistic delete
  // ---------------------------------------------------------------------

  /** `products.find(p => p.id === id)`: the first product with that id. */
  function FindById(list: seq<Product>, id: int): (r: Option<Product>)
    ensures r.None? <==> forall i :: 0 <= i < |list| ==> list[i].id != id
    ensures r.Some? ==> exists i :: 0 <= i < |list| && list[i] == r.value && r.value.id == id
                          && forall j :: 0 <= j < i ==> list[j].id != id
    decreases |list|
  {
    if |list| == 0 then None
    else if list[0].id == id then Some(list[0])
    else
      var r := FindById(list[1..], id);
      if r.Some? then
        var i :| 0 <= i < |list[1..]| && list[1..][i] == r.value && r.value.id == id
                 && forall j :: 0 <= j < i ==> list[1..][j].id != id;
        assert list[i + 1] == r.value;
        r
      else r
  }

  function IdIsNot(id: int): Product -> bool
  {
    (p: Product) => p.id != id
  }

  /** `list.filter(p => p.id !== id)`. */
  function WithoutId(list: seq<Product>, id: int): (r: seq<Product>)
    ensures forall i :: 0 <= i < |r| ==> r[i].id != id
    ensures IsSubseq(r, list)
    ensures forall p :: multiset(r)[p] == if p.id != id then multiset(list)[p] else 0
  {
    var r := Filter(list, IdIsNot(id));
    assert forall i :: 0 <= i < |r| ==> r[i] in multiset(r);
    r
  }

  /** The sort key of the rollback's `sort((a, b) => a.id - b.id)`. */
  function IdKey(p: Product): real
  {
    p.id as real
  }

  /** Ids strictly increase along the list, so no id occurs twice. */
  predicate StrictlyById(list: seq<Product>)
  {
    forall i, j :: 0 <= i < j < |list| ==> list[i].id < list[j].id
  }

  /** Phase one of `deleteProduct`: every product with the id leaves both
      lists, the error is cleared, and the view is recomputed at once. */
  function RemoveOptimistically(s: State, id: int): (r: State)
    ensures r.products == WithoutId(s.products, id) && r.originalProducts == WithoutId(s.originalProducts, id)
    ensures r.error == None
    ensures r.filters == s.filters && r.loading == s.loading
    ensures r.filteredProducts == FilterProducts(r.originalProducts, r.filters)
    ensures r.pagination == Recount(s.pagination, |r.filteredProducts|)
    ensures Consistent(s) ==> Consistent(r)
  {
    ApplyFilters(s.(products := WithoutId(s.products, id), originalProducts := WithoutId(s.originalProducts, id), error := None))
  }

  /** The compensation of a failed delete: the removed product is appended
      to both lists, both are sorted by ascending id, and the view is
      recomputed. */
  function RollBack(s: State, removed: Product, message: string): (r: State)
    ensures multiset(r.products) == multiset(s.products) + multiset{removed}
    ensures multiset(r.originalProducts) == multiset(s.originalProducts) + multiset{removed}
    ensures SortedBy(r.products, IdKey) && SortedBy(r.originalProducts, IdKey)
    ensures r.error == Some(message)
    ensures r.filters == s.filters && r.loading == s.loading
    ensures r.filteredProducts == FilterProducts(r.originalProducts, r.filters)
    ensures r.pagination == Recount(s.pagination, |r.filteredProducts|)
    ensures Consistent(s) ==> Consistent(r)
  {
    ApplyFilters(s.(products := SortBy(s.products + [removed], IdKey),
                    originalProducts := SortBy(s.originalProducts + [removed], IdKey),
                    error := Some(message)))
  }

  /** `deleteProduct`: an id no product carries changes nothing; otherwise
      the product is removed optimistically, and a failed delete call puts it
      back. */
  function DeleteProduct(s: State, id: int, response: ApiResult<()>): (r: State)
    ensures FindById(s.products, id).None? ==> r == s
    ensures FindById(s.products, id).Some? && response.Ok? ==>
      && r.products == WithoutId(s.products, id)
      && r.originalProducts == WithoutId(s.originalProducts, id)
      && r.error == None
      && r.filteredProducts == FilterProducts(r.originalProducts, r.filters)
      && r.pagination == Recount(s.pagination, |r.filteredProducts|)
    ensures FindById(s.products, id).Some? && response.Failed? ==>
      && multiset(r.products) == multiset(WithoutId(s.products, id)) + multiset{FindById(s.products, id).value}
      && multiset(r.originalProducts) == multiset(WithoutId(s.originalProducts, id)) + multiset{FindById(s.products, id).value}
      && SortedBy(r.products, IdKey) && SortedBy(r.originalProducts, IdKey)
      && r.error == Some(response.message)
      && r.filteredProducts == FilterProducts(r.originalProducts, r.filters)
      && r.pagination == Recount(RemoveOptimistically(s, id).pagination, |r.filteredProducts|)
    ensures r.filters == s.filters && r.loading == s.loading
    ensures r.pagination.itemsPerPage == s.pagination.itemsPerPage
    ensures Consistent(s) ==> Consistent(r)
  {
    match FindById(s.products, id)
    case None => s
    case Some(removed) =>
      var optimistic := RemoveOptimistically(s, id);
      match response
      case Ok(_) => optimistic
      case Failed(message) => RollBack(optimistic, removed, message)
  }

  // ---------------------------------------------------------------------
  // Rollback
  // ---------------------------------------------------------------------

  lemma StrictlyByIdCount(list: seq<Product>, k: int)
    requires StrictlyById(list) && 0 <= k < |list|
    ensures multiset(list)[list[k]] == 1
  {
    assert list == list[..k] + [list[k]] + list[k + 1..];
    assert list[k] !in list[..k];
    assert list[k] !in list[k + 1..];
  }

  lemma HeadsAgree(a: seq<Product>, b: seq<Product>)
    requires SortedBy(a, IdKey) && StrictlyById(b) && multiset(a) == multiset(b)
    requires |a| > 0 && |b| > 0
    ensures a[0] == b[0]
  {
    assert a[0] in multiset(b);
    var j :| 0 <= j < |b| && b[j] == a[0];
    assert b[0] in multiset(a);
    var i :| 0 <= i < |a| && a[i] == b[0];
    assert i == 0 || IdKey(a[0]) <= IdKey(a[i]);
    assert a[0].id <= b[0].id;
  }

  lemma MultisetTail(a: seq<Product>, b: seq<Product>)
    requires |a| > 0 && |b| > 0 && a[0] == b[0] && multiset(a) == multiset(b)
    ensures multiset(a[1..]) == multiset(b[1..])
  {
    assert a == [a[0]] + a[1..];
    assert b == [b[0]] + b[1..];
    assert multiset(a[1..]) == multiset(a) - multiset{a[0]};
    assert multiset(b[1..]) == multiset(b) - multiset{b[0]};
  }

  /** Two lists with the same products, one sorted by id and the other
      strictly increasing in id, are the same list. */
  lemma {:induction false} SortedByIdUnique(a: seq<Product>, b: seq<Product>)
    requires SortedBy(a, IdKey) && StrictlyById(b) && multiset(a) == multiset(b)
    ensures a == b
    decreases |b|
  {
    assert |a| == |multiset(a)| == |multiset(b)| == |b|;
    if |b| > 0 {
      HeadsAgree(a, b);
      MultisetTail(a, b);
      SortedByIdUnique(a[1..], b[1..]);
      assert a == [a[0]] + a[1..];
      assert b == [b[0]] + b[1..];
    }
  }

  lemma OnlyIndexWithId(list: seq<Product>, k: int, p: Product)
    requires StrictlyById(list) && 0 <= k < |list|
    requires p.id == list[k].id && p != list[k]
    ensures multiset(list)[p] == 0
  {
    assert forall i :: 0 <= i < |list| ==> list[i] != p;
    assert p !in list;
  }

  /** Removing the one product with a given id and adding it back gives the
      same products. */
  lemma RemoveThenAddBack(list: seq<Product>, k: int)
    requires StrictlyById(list) && 0 <= k < |list|
    ensures multiset(WithoutId(list, list[k].id) + [list[k]]) == multiset(list)
  {
    var removed := list[k];
    var rest := WithoutId(list, removed.id);
    forall p
      ensures multiset(rest + [removed])[p] == multiset(list)[p]
    {
      if p == removed {
        StrictlyByIdCount(list, k);
      } else if p.id == removed.id {
        OnlyIndexWithId(list, k, p);
      }
    }
  }

  /** Reinserting the removed product and sorting by id gives back a list
      that was strictly increasing in id. */
  lemma RollbackRestoresList(list: seq<Product>, id: int)
    requires StrictlyById(list) && FindById(list, id).Some?
    ensures SortBy(WithoutId(list, id) + [FindById(list, id).value], IdKey) == list
  {
    var removed := FindById(list, id).value;
    var k :| 0 <= k < |list| && list[k] == removed && removed.id == id;
    RemoveThenAddBack(list, k);
    SortedByIdUnique(SortBy(WithoutId(list, id) + [removed], IdKey), list);
  }

  /** A failed delete on a consistent store whose list is strictly
      increasing in id gives back both lists, the view, the criteria and the
      counts, and records the error; the current page can only have moved
      down, because the optimistic recompute may have clamped it. */
  lemma DeleteRollbackRestores(s: State, id: int, message: string)
    requires Consistent(s) && StrictlyById(s.products) && FindById(s.products, id).Some?
    ensures var r := DeleteProduct(s, id, Failed(message));
      && r.products == s.products && r.originalProducts == s.originalProducts
      && r.filteredProducts == s.filteredProducts && r.filters == s.filters
      && r.loading == s.loading && r.error == Some(message)
      && r.pagination.itemsPerPage == s.pagination.itemsPerPage
      && r.pagination.totalItems == s.pagination.totalItems
      && r.pagination.totalPages == s.pagination.totalPages
      && r.pagination.currentPage <= s.pagination.currentPage
  {
    RollbackRestoresList(s.products, id);
  }

  /** Two products shown one per page, with the second page open. */
  const PageTwoOfTwo: State :=
    var a := Product(1, "A", 10.0, "", "c", "", Rating(4.0, 100));
    var b := Product(2, "B", 20.0, "", "c", "", Rating(4.0, 100));
    State([a, b], [a, b], [a, b], false, None, InitialFilters, Pagination(2, 1, 2, 2))

  lemma PageTwoOfTwoConsistent()
    ensures Consistent(PageTwoOfTwo)
    ensures StrictlyById(PageTwoOfTwo.products)
    ensures FindById(PageTwoOfTwo.products, 2).Some?
  {
    var s := PageTwoOfTwo;
    FilterProductsKeepsMatching(s.products, InitialFilters);
    assert FindById(s.products, 2) == Some(s.products[1]);
  }

  /** The optimistic step leaves one product, one page, and page 1 open. */
  lemma PageTwoOfTwoOptimistic()
    ensures RemoveOptimistically(PageTwoOfTwo, 2).pagination.currentPage == 1
  {
    var s := PageTwoOfTwo;
    var a := s.products[0];
    assert WithoutId(s.products, 2) == [a] by {
      assert WithoutId(s.products, 2) == Filter(s.products, IdIsNot(2));
      assert s.products[1..] == [s.products[1]];
    }
    FilterProductsKeepsMatching([a], InitialFilters);
    assert RemoveOptimistically(s, 2).pagination == Recount(Pagination(2, 1, 2, 2), 1);
  }

  /** `deleteProduct` as written, on `PageTwoOfTwo`: the delete of the second
      product fails, both products are back, and the store now shows page
      1. */
  lemma DeleteRollbackMovesPage()
    ensures Consistent(PageTwoOfTwo) && PageTwoOfTwo.pagination.currentPage == 2
    ensures DeleteProduct(PageTwoOfTwo, 2, Failed("Delete failed")).products == PageTwoOfTwo.products
    ensures DeleteProduct(PageTwoOfTwo, 2, Failed("Delete failed")).pagination.currentPage == 1
  {
    var s := PageTwoOfTwo;
    PageTwoOfTwoConsistent();
    PageTwoOfTwoOptimistic();
    DeleteRollbackRestores(s, 2, "Delete failed");
    var t := RemoveOptimistically(s, 2);
    var removed := FindById(s.products, 2).value;
    assert DeleteProduct(s, 2, Failed("Delete failed")) == RollBack(t, removed, "Delete failed");
  }

  /** `deleteProduct` with the compensation also putting back the page the
      user was on before the optimistic step (the recompute that follows
      still clamps it): a failed delete recounts from the pagination held
      before the delete, not from the optimistic one. */
  function DeleteProductRestoringPage(s: State, id: int, response: ApiResult<()>): (r: State)
    ensures FindById(s.products, id).None? ==> r == s
    ensures FindById(s.products, id).Some? && response.Ok? ==>
      && r.products == WithoutId(s.products, id)
      && r.originalProducts == WithoutId(s.originalProducts, id)
      && r.error == None
      && r.filteredProducts == FilterProducts(r.originalProducts, r.filters)
      && r.pagination == Recount(s.pagination, |r.filteredProducts|)
    ensures FindById(s.products, id).Some? && response.Failed? ==>
      && multiset(r.products) == multiset(WithoutId(s.products, id)) + multiset{FindById(s.products, id).value}
      && multiset(r.originalProducts) == multiset(WithoutId(s.originalProducts, id)) + multiset{FindById(s.products, id).value}
      && SortedBy(r.products, IdKey) && SortedBy(r.originalProducts, IdKey)
      && r.error == Some(response.message)
      && r.filteredProducts == FilterProducts(r.originalProducts, r.filters)
      && r.pagination == Recount(s.pagination, |r.filteredProducts|)
    ensures r.filters == s.filters && r.loading == s.loading
    ensures r.pagination.itemsPerPage == s.pagination.itemsPerPage
    ensures Consistent(s) ==> Consistent(r)
  {
    match FindById(s.products, id)
    case None => s
    case Some(removed) =>
      var optimistic := RemoveOptimistically(s, id);
      match response
      case Ok(_) => optimistic
      case Failed(message) =>
        RollBack(optimistic.(pagination := optimistic.pagination.(currentPage := s.pagination.currentPage)), removed, message)
  }

  /** With the page put back, a failed delete on a consistent, id-sorted
      store whose page is in range is a no-op apart from the error
      message. */
  lemma DeleteRestoringPageRollbackIsNoOp(s: State, id: int, message: string)
    requires Consistent(s) && StrictlyById(s.products) && FindById(s.products, id).Some?
    requires s.pagination.currentPage <= LastPage(s.pagination.totalPages)
    ensures DeleteProductRestoringPage(s, id, Failed(message)) == s.(error := Some(message))
  {
    RollbackRestoresList(s.products, id);
    var r := DeleteProductRestoringPage(s, id, Failed(message));
    assert r.pagination == s.pagination;
  }

  /** `clearError`: drops the recorded error and nothing else. */
  function ClearError(s: State): (r: State)
    ensures r.error == None
    ensures r.(error := s.error) == s
    ensures Consistent(s) ==> Consistent(r)
  {
    s.(error := None)
  }

}
