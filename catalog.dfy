/**
  The product side: the product document, the field overwrite of `updateProduct`, the
  construction of `createProduct`, and the listing pipeline of `getProduct` (category filter,
  price sort, page window, and the `averageRating` added to every item).
 */
module Catalog {
  import opened Wrappers
  import opened Errors
  import opened JsNumber
  import opened Query

  datatype Product = Product(
    name: string,
    description: string,
    price: int,
    category: string,
    stock: int,
    images: seq<string>,
    reviews: seq<Id>)

  /** The fields a request body may set; `None` for a field the body does not mention. */
  datatype ProductPatch = ProductPatch(
    name: Option<string>,
    description: Option<string>,
    price: Option<int>,
    category: Option<string>,
    stock: Option<int>,
    images: Option<seq<string>>,
    reviews: Option<seq<Id>>)

  /** The product after `findByIdAndUpdate(id, body)`: the given fields overwritten, the rest kept. */
  function Patched(p: Product, patch: ProductPatch): (r: Product)
    ensures patch == ProductPatch(None, None, None, None, None, None, None) ==> r == p
    ensures r.name == (if patch.name.Some? then patch.name.value else p.name)
    ensures r.description == (if patch.description.Some? then patch.description.value else p.description)
    ensures r.price == (if patch.price.Some? then patch.price.value else p.price)
    ensures r.category == (if patch.category.Some? then patch.category.value else p.category)
    ensures r.stock == (if patch.stock.Some? then patch.stock.value else p.stock)
    ensures r.images == (if patch.images.Some? then patch.images.value else p.images)
    ensures r.reviews == (if patch.reviews.Some? then patch.reviews.value else p.reviews)
  {
    Product(
      if patch.name.Some? then patch.name.value else p.name,
      if patch.description.Some? then patch.description.value else p.description,
      if patch.price.Some? then patch.price.value else p.price,
      if patch.category.Some? then patch.category.value else p.category,
      if patch.stock.Some? then patch.stock.value else p.stock,
      if patch.images.Some? then patch.images.value else p.images,
      if patch.reviews.Some? then patch.reviews.value else p.reviews)
  }

  /** Applying the same patch twice is applying it once. */
  lemma PatchIdempotent(p: Product, patch: ProductPatch)
    ensures Patched(Patched(p, patch), patch) == Patched(p, patch)
  {
  }

  /** What the upload middleware hands the controller for one image file. */
  datatype UploadedFile = UploadedFile(originalName: string, filename: string)

  function Filenames(files: seq<UploadedFile>): (r: seq<string>)
    ensures |r| == |files|
    ensures forall i :: 0 <= i < |files| ==> r[i] == files[i].filename
  {
    if files == [] then [] else [files[0].filename] + Filenames(files[1..])
  }

  /**
    `createProduct`: `stock` is `parseInt` of the body field (an absent field is `undefined`),
    the images are the uploaded files' names in upload order, and the product has no reviews.
    A NaN stock cannot be cast to a Number, so Mongoose refuses the document.
   */
  function NewProduct(name: string, description: string, price: int, category: string,
                      stock: Option<string>, files: seq<UploadedFile>): (r: Result<Product, Error>)
    ensures r.Ok? <==> stock.Some? && ParseInt(stock.value).Some?
    ensures r.Err? ==> r.error == ValidationFailed
    ensures r.Ok? ==> && Some(r.value.stock) == ParseInt(stock.value)
                      && |r.value.images| == |files|
                      && (forall i :: 0 <= i < |files| ==> r.value.images[i] == files[i].filename)
                      && r.value.reviews == []
                      && r.value.name == name && r.value.description == description
                      && r.value.price == price && r.value.category == category
  {
    var parsed := if stock.Some? then ParseInt(stock.value) else None;
    match parsed
    case None => Err(ValidationFailed)
    case Some(n) => Ok(Product(name, description, price, category, n, Filenames(files), []))
  }

  /** A stock field written as a decimal number is stored as that number. */
  lemma NewProductDecimalStock(name: string, description: string, price: int, category: string,
                               n: int, files: seq<UploadedFile>)
    ensures NewProduct(name, description, price, category, Some(Decimal(n)), files).Ok?
    ensures NewProduct(name, description, price, category, Some(Decimal(n)), files).value.stock == n
  {
    DecimalRoundTrip(n);
  }

  type Entry = (Id, Product)

  /** `true` when `a` may come before `b`: ascending or descending by price. */
  predicate Before(a: Product, b: Product, ascending: bool) {
    if ascending then a.price <= b.price else a.price >= b.price
  }

  predicate SortedByPrice(s: seq<Entry>, ascending: bool) {
    forall i, j :: 0 <= i < j < |s| ==> Before(s[i].1, s[j].1, ascending)
  }

  /** In a sorted listing the first entry may come before every later one. */
  lemma HeadBeforeRest(s: seq<Entry>, ascending: bool)
    requires s != [] && SortedByPrice(s, ascending)
    ensures SortedByPrice(s[1..], ascending)
    ensures forall y :: y in multiset(s[1..]) ==> Before(s[0].1, y.1, ascending)
  {
    forall i, j | 0 <= i < j < |s[1..]| ensures Before(s[1..][i].1, s[1..][j].1, ascending) {
      assert s[1..][i] == s[i + 1] && s[1..][j] == s[j + 1];
    }
    forall y | y in multiset(s[1..]) ensures Before(s[0].1, y.1, ascending) {
      var j :| 0 <= j < |s[1..]| && s[1..][j] == y;
      assert s[1 + j] == y;
    }
  }

  lemma ConsSorted(x: Entry, s: seq<Entry>, ascending: bool)
    requires SortedByPrice(s, ascending)
    requires forall y :: y in multiset(s) ==> Before(x.1, y.1, ascending)
    ensures SortedByPrice([x] + s, ascending)
  {
    var r := [x] + s;
    forall i, j | 0 <= i < j < |r| ensures Before(r[i].1, r[j].1, ascending) {
      assert r[j] == s[j - 1];
      if i == 0 { assert s[j - 1] in multiset(s); } else { assert r[i] == s[i - 1]; }
    }
  }

  function Insert(x: Entry, s: seq<Entry>, ascending: bool): (r: seq<Entry>)
    requires SortedByPrice(s, ascending)
    ensures SortedByPrice(r, ascending)
    ensures multiset(r) == multiset(s) + multiset{x}
  {
    if s == [] then [x]
    else if Before(x.1, s[0].1, ascending) then
      HeadBeforeRest(s, ascending);
      assert s == [s[0]] + s[1..];
      ConsSorted(x, s, ascending);
      [x] + s
    else
      HeadBeforeRest(s, ascending);
      var rest := Insert(x, s[1..], ascending);
      assert s == [s[0]] + s[1..];
      ConsSorted(s[0], rest, ascending);
      [s[0]] + rest
  }

  /**
    The order `sort("price")` or `sort("-price")` gives. MongoDB leaves the order of equal
    prices open; this sort keeps them in the order of the input (a stable insertion sort).
   */
  function SortByPrice(s: seq<Entry>, ascending: bool): (r: seq<Entry>)
    ensures SortedByPrice(r, ascending)
    ensures multiset(r) == multiset(s)
  {
    if s == [] then [] else
      assert s == [s[0]] + s[1..];
      Insert(s[0], SortByPrice(s[1..], ascending), ascending)
  }

  /** The `{ category }` filter of `getProduct`; `None` keeps every product. */
  predicate InCategory(filter: Option<string>, e: Entry) {
    filter.None? || e.1.category == filter.value
  }

  /**
    The products `find(filter)` returns for the `category` parameter, in the table's order:
    those of that category when the parameter is non-empty, and every product otherwise.
   */
  function ProductsInCategory(table: seq<Entry>, category: Option<string>): (r: seq<Entry>)
    ensures forall i :: 0 <= i < |r| ==> Truthy(category).Some? ==> r[i].1.category == category.value
    ensures forall e :: multiset(r)[e] == if InCategory(Truthy(category), e) then multiset(table)[e] else 0
    ensures Truthy(category).None? ==> r == table
  {
    var filter := Truthy(category);
    var r := Matching(table, e => InCategory(filter, e));
    assert forall e :: multiset(r)[e] == if InCategory(filter, e) then multiset(table)[e] else 0 by {
      forall e ensures multiset(r)[e] == if InCategory(filter, e) then multiset(table)[e] else 0 {
        MatchingCount(table, e => InCategory(filter, e), e);
      }
    }
    assert filter.None? ==> r == table by {
      if filter.None? { MatchingAll(table, e => InCategory(filter, e)); }
    }
    r
  }

  /** The query string of `getProduct`; each value is `None` when the parameter is absent. */
  datatype ProductQuery = ProductQuery(
    category: Option<string>,
    sort: Option<string>,
    page: Option<string>,
    limit: Option<string>)

  /** One item of the listing: the product document with its `averageRating` added. */
  datatype ProductView = ProductView(id: Id, product: Product, averageRating: real)

  datatype ProductListing = ProductListing(results: nat, data: seq<ProductView>)

  function Views(s: seq<Entry>, averageRating: Product -> real): (r: seq<ProductView>)
    ensures |r| == |s|
    ensures forall i :: 0 <= i < |s| ==> r[i] == ProductView(s[i].0, s[i].1, averageRating(s[i].1))
  {
    if s == [] then [] else [ProductView(s[0].0, s[0].1, averageRating(s[0].1))] + Views(s[1..], averageRating)
  }

  /** Rating the products of a window gives the same window of the rated listing. */
  lemma ViewsWindow(w: seq<Entry>, s: seq<Entry>, skip: int, limit: int, averageRating: Product -> real)
    requires IsWindow(w, s, skip, limit)
    ensures IsWindow(Views(w, averageRating), Views(s, averageRating), skip, limit)
  {
  }

  /** Ascending exactly when the `sort` parameter is the string "price". */
  function Ascending(q: ProductQuery): bool {
    q.sort == Some("price")
  }

  /**
    The products of the category in the order the query asks for, before the page window:
    sorted by price, and holding each matching product exactly as often as the table does.
   */
  function Catalogue(table: seq<Entry>, q: ProductQuery): (r: seq<Entry>)
    ensures SortedByPrice(r, Ascending(q))
    ensures multiset(r) == multiset(ProductsInCategory(table, q.category))
    ensures Truthy(q.category).None? ==> multiset(r) == multiset(table)
  {
    SortByPrice(ProductsInCategory(table, q.category), Ascending(q))
  }

  /** A window of the catalogue holds products of the table in the category, sorted by price. */
  lemma CataloguePage(table: seq<Entry>, q: ProductQuery, w: seq<Entry>, skip: int, limit: int)
    requires IsWindow(w, Catalogue(table, q), skip, limit)
    ensures forall i :: 0 <= i < |w| ==> w[i] in table && InCategory(Truthy(q.category), w[i])
    ensures SortedByPrice(w, Ascending(q))
  {
    var c := Catalogue(table, q);
    forall i | 0 <= i < |w| ensures w[i] in table && InCategory(Truthy(q.category), w[i]) {
      assert w[i] in multiset(c);
      assert multiset(ProductsInCategory(table, q.category))[w[i]] > 0;
    }
    forall i, j | 0 <= i < j < |w| ensures Before(w[i].1, w[j].1, Ascending(q)) {
      assert w[i] == c[skip + i] && w[j] == c[skip + j];
    }
  }

  /**
    The listing `getProduct` answers for the products `table` (in natural order): filter by
    category when the parameter is non-empty, sort by price, take the page window, and add
    each product's `averageRating` (a virtual field of the product model, given here).
   */
  function ListProducts(table: seq<Entry>, q: ProductQuery, averageRating: Product -> real)
    : (r: Result<ProductListing, Error>)
    ensures r.Ok? <==> SkipOf(q.page, q.limit) >= 0
    ensures r.Err? ==> r.error == QueryRejected
    ensures r.Ok? ==> r.value.results == |r.value.data|
    ensures r.Ok? ==> IsWindow(r.value.data, Views(Catalogue(table, q), averageRating), SkipOf(q.page, q.limit), IntOrDefault(q.limit, 10))
    ensures r.Ok? ==> r.value.results <= Abs(IntOrDefault(q.limit, 10))
    ensures r.Ok? ==> forall i :: 0 <= i < |r.value.data| ==>
      && (r.value.data[i].id, r.value.data[i].product) in table
      && r.value.data[i].averageRating == averageRating(r.value.data[i].product)
      && (Truthy(q.category).Some? ==> r.value.data[i].product.category == q.category.value)
    ensures r.Ok? ==> forall i, j :: 0 <= i < j < |r.value.data| ==>
      Before(r.value.data[i].product, r.value.data[j].product, Ascending(q))
  {
    var sorted := Catalogue(table, q);
    match PageWindow(sorted, q.page, q.limit)
    case Err(e) => Err(e)
    case Ok(w) =>
      CataloguePage(table, q, w, SkipOf(q.page, q.limit), IntOrDefault(q.limit, 10));
      ViewsWindow(w, sorted, SkipOf(q.page, q.limit), IntOrDefault(q.limit, 10), averageRating);
      Ok(ProductListing(|w|, Views(w, averageRating)))
  }
}
