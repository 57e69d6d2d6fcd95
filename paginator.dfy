/** `paginator_page` (yatube/posts/views.py) and the behaviour of the web
    framework's `Paginator(objects, per_page).get_page(number)` it relies on,
    with that framework's defaults: no orphans and an empty first page
    allowed. The paginator trusts its input order and never re-sorts. */
module Paginator {

  /** Page size used by every feed of the posts app. */
  const PostsPerPage: nat := 10

  /** The `page` query parameter as the paginator sees it: absent, not an
      integer, or an integer (possibly out of range). */
  datatype PageRequest = Missing | NotAnInteger | Number(n: int)

  /** One page of a listing: its items, its 1-based number and the total
      number of pages. */
  datatype Page<T> = Page(items: seq<T>, number: nat, numPages: nat) {
    predicate HasNext() { number < numPages }
    predicate HasPrevious() { number > 1 }
  }

  /** The two failures of the paginator's number validation. */
  datatype InvalidPage = PageNotAnInteger | EmptyPage

  datatype Validated = Valid(number: nat) | Invalid(reason: InvalidPage)

  /** `Paginator.num_pages`: at least one page, and just enough pages of
      `perPage` items to hold `count` items. */
  function NumPages(count: nat, perPage: nat): (n: nat)
    requires perPage > 0
    ensures n >= 1
    ensures count <= n * perPage
    ensures count == 0 || (n - 1) * perPage < count
    ensures count == 0 ==> n == 1
  {
    var hits := if count < 1 then 1 else count;
    var n := (hits + perPage - 1) / perPage;
    assert n * perPage <= hits + perPage - 1 < (n + 1) * perPage;
    n
  }

  /** `Paginator.validate_number`: a non-integer is rejected as such; an
      integer below 1 or above the page count is an empty page. */
  function ValidateNumber(req: PageRequest, numPages: nat): (r: Validated)
    requires numPages >= 1
    ensures r.Valid? <==> req.Number? && 1 <= req.n <= numPages
    ensures r.Valid? ==> r.number == req.n
    ensures r == Invalid(PageNotAnInteger) <==> !req.Number?
  {
    match req
    case Missing => Invalid(PageNotAnInteger)
    case NotAnInteger => Invalid(PageNotAnInteger)
    case Number(n) =>
      if n < 1 then Invalid(EmptyPage)
      else if n > numPages then Invalid(EmptyPage)
      else Valid(n)
  }

  /** `Paginator.get_page`'s choice of page: a valid number is kept, a
      non-integer falls back to the first page and an out-of-range number
      to the last one. */
  function ResolveNumber(req: PageRequest, numPages: nat): (k: nat)
    requires numPages >= 1
    ensures 1 <= k <= numPages
    ensures req.Number? && 1 <= req.n <= numPages ==> k == req.n
    ensures !req.Number? ==> k == 1
    ensures req.Number? && (req.n < 1 || req.n > numPages) ==> k == numPages
  {
    match ValidateNumber(req, numPages)
    case Valid(n) => n
    case Invalid(PageNotAnInteger) => 1
    case Invalid(EmptyPage) => numPages
  }

  /** `Paginator.page(k)`: the `k`-th block of `perPage` items; every page
      but the last is full, and the last holds what remains. */
  function PageSlice<T>(items: seq<T>, perPage: nat, k: nat): (r: seq<T>)
    requires perPage > 0
    requires 1 <= k <= NumPages(|items|, perPage)
    ensures |r| <= perPage
    ensures k < NumPages(|items|, perPage) ==> |r| == perPage
    ensures k == NumPages(|items|, perPage) ==> |r| == |items| - (k - 1) * perPage
    ensures |items| > 0 ==> |r| > 0
    ensures (k - 1) * perPage + |r| <= |items|
    ensures r == items[(k - 1) * perPage..(k - 1) * perPage + |r|]
  {
    var n := NumPages(|items|, perPage);
    var bottom := (k - 1) * perPage;
    var top := bottom + perPage;
    MulMonotone(k - 1, n - 1, perPage);
    MulSucc(k - 1, perPage);
    MulSucc(n - 1, perPage);
    assert k < n ==> top <= |items| by {
      if k < n { MulMonotone(k, n - 1, perPage); }
    }
    if top >= |items| then items[bottom..] else items[bottom..top]
  }

  /** `paginator_page`: the page that `get_page` returns for the request. */
  function GetPage<T>(items: seq<T>, perPage: nat, req: PageRequest): (r: Page<T>)
    requires perPage > 0
    ensures r.numPages == NumPages(|items|, perPage)
    ensures 1 <= r.number <= r.numPages
    ensures r.items == PageSlice(items, perPage, r.number)
    ensures |r.items| <= perPage
    ensures req.Number? && 1 <= req.n <= r.numPages ==> r.number == req.n
    ensures !req.Number? ==> r.number == 1
    ensures req.Number? && (req.n < 1 || req.n > r.numPages) ==> r.number == r.numPages
  {
    var n := NumPages(|items|, perPage);
    var k := ResolveNumber(req, n);
    Page(PageSlice(items, perPage, k), k, n)
  }

  /** `page.has_next()` holds exactly when items remain after the page
      served, and `page.has_previous()` exactly when items come before it. */
  lemma HasNextIffItemsRemain<T>(items: seq<T>, perPage: nat, req: PageRequest)
    requires perPage > 0
    ensures var r := GetPage(items, perPage, req);
      r.HasNext() <==> (r.number - 1) * perPage + |r.items| < |items|
    ensures var r := GetPage(items, perPage, req);
      r.HasPrevious() <==> (r.number - 1) * perPage > 0
  {
    var r := GetPage(items, perPage, req);
    var k, n := r.number, r.numPages;
    var bottom := (k - 1) * perPage;
    if k < n {
      assert |r.items| == perPage;
      MulSucc(k - 1, perPage);
      MulMonotone(k, n - 1, perPage);
      assert bottom + |r.items| <= (n - 1) * perPage < |items|;
    } else {
      assert bottom + |r.items| == |items|;
    }
    if k > 1 {
      MulMonotone(1, k - 1, perPage);
    } else {
      assert bottom == 0;
    }
  }

  /** The pages from the `k`-th to the last, laid end to end. */
  ghost function PagesFrom<T>(items: seq<T>, perPage: nat, k: nat): seq<T>
    requires perPage > 0
    requires 1 <= k <= NumPages(|items|, perPage)
    decreases NumPages(|items|, perPage) - k
  {
    if k == NumPages(|items|, perPage) then PageSlice(items, perPage, k)
    else PageSlice(items, perPage, k) + PagesFrom(items, perPage, k + 1)
  }

  lemma MulMonotone(a: nat, b: nat, c: nat)
    requires a <= b
    ensures a * c <= b * c
  {
  }

  lemma MulSucc(a: nat, c: nat)
    ensures (a + 1) * c == a * c + c
  {
  }

  /** The `k`-th page is the block of items from `(k - 1) * perPage` up
      to `k * perPage`, or to the end of the listing on the last page. */
  lemma PageSliceIsBlock<T>(items: seq<T>, perPage: nat, k: nat, bottom: nat)
    requires perPage > 0
    requires 1 <= k <= NumPages(|items|, perPage)
    requires bottom == (k - 1) * perPage
    ensures bottom <= |items|
    ensures k < NumPages(|items|, perPage) ==>
      bottom + perPage <= |items| && PageSlice(items, perPage, k) == items[bottom..bottom + perPage]
    ensures k == NumPages(|items|, perPage) ==> PageSlice(items, perPage, k) == items[bottom..]
  {
    var r := PageSlice(items, perPage, k);
    if k == NumPages(|items|, perPage) {
      assert bottom + |r| == |items|;
    }
  }

  /** The pages from the `k`-th on are exactly the items after the first
      `k - 1` pages: no item is dropped, repeated or reordered. */
  lemma {:induction false} PagesFromAreSuffix<T>(items: seq<T>, perPage: nat, k: nat, bottom: nat)
    requires perPage > 0
    requires 1 <= k <= NumPages(|items|, perPage)
    requires bottom == (k - 1) * perPage
    ensures bottom <= |items|
    ensures PagesFrom(items, perPage, k) == items[bottom..]
    decreases NumPages(|items|, perPage) - k
  {
    PageSliceIsBlock(items, perPage, k, bottom);
    if k < NumPages(|items|, perPage) {
      var top := bottom + perPage;
      MulSucc(k - 1, perPage);
      PagesFromAreSuffix(items, perPage, k + 1, top);
      assert items[bottom..] == items[bottom..top] + items[top..];
    }
  }

  /** Taken in order, the pages reproduce the whole listing. */
  lemma PagesReassemble<T>(items: seq<T>, perPage: nat)
    requires perPage > 0
    ensures PagesFrom(items, perPage, 1) == items
  {
    PagesFromAreSuffix(items, perPage, 1, 0);
  }

  /** Thirteen items in pages of ten: the first page is full and has a
      successor, the second holds the remaining three and is the last, and
      any page number past the end, or below 1, yields that last page. */
  lemma ThirteenItems<T>(items: seq<T>)
    requires |items| == 13
    ensures |GetPage(items, PostsPerPage, Missing).items| == 10
    ensures GetPage(items, PostsPerPage, Missing).HasNext()
    ensures |GetPage(items, PostsPerPage, Number(2)).items| == 3
    ensures GetPage(items, PostsPerPage, Number(2)).items == items[10..]
    ensures !GetPage(items, PostsPerPage, Number(2)).HasNext()
    ensures GetPage(items, PostsPerPage, Number(99)) == GetPage(items, PostsPerPage, Number(2))
    ensures GetPage(items, PostsPerPage, Number(0)) == GetPage(items, PostsPerPage, Number(2))
  {
    assert NumPages(13, PostsPerPage) == 2;
  }
}
