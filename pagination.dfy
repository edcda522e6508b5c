/**
 * The pagination helper of the posts app (yatube/posts/utils.py): every
 * listing is cut into pages of `PostsCount` posts by Django's `Paginator`
 * and one page is returned by `get_page`. The page-number handling of
 * `get_page` belongs to the framework; it is written out here as an
 * explicit assumption (see README.md).
 */
module Pagination {

  /** A page size: a positive number of items. */
  type PageSize = n: nat | n > 0 witness 1

  /** POSTS_COUNT, the page size shared by every listing. Its value lives
      in posts/constants.py, which is not part of this model, so it is left
      unspecified: everything proved holds for any positive page size. */
  const PostsCount: PageSize

  /** The `page` query parameter as the handlers read it: absent, present
      but not an integer, or an integer. */
  datatype PageRequest = NoPage | NotANumber | Number(n: int)

  /** One page of a listing: its 1-based number, the number of pages of
      the whole listing, and the items shown on it. */
  datatype Page<T> = Page(number: nat, numPages: nat, items: seq<T>)

  /** Multiplication by a natural number is monotonic. */
  lemma MulLe(a: int, b: int, c: nat)
    requires a <= b
    ensures a * c <= b * c
  {
  }

  /** One more factor adds one more `c`. */
  lemma MulSucc(a: int, c: int)
    ensures (a + 1) * c == a * c + c
  {
  }

  /** A strict inequality between multiples of a natural number holds
      between the multipliers. */
  lemma MulLt(a: int, b: int, c: nat)
    requires a * c < b * c
    ensures a < b
  {
    if a >= b { MulLe(b, a, c); }
  }

  /** The number of pages of a listing of `count` items: there is always
      at least one page (an empty listing shows one empty page), and the
      last page starts before the end of a non-empty listing. */
  function NumPages(count: nat, size: nat): (r: nat)
    requires size > 0
    ensures r >= 1
    ensures count == 0 ==> r == 1
    ensures count > 0 ==> (r - 1) * size < count <= r * size
  {
    if count == 0 then 1
    else
      var q := (count + size - 1) / size;
      MulSucc(q - 1, size);
      assert q > 0 by {
        if q <= 0 { MulLe(q, 0, size); }
      }
      q
  }

  /** The page `get_page` chooses: page 1 when no integer is given, the
      requested page when it exists, and the last page for any other
      integer (zero, negative, or past the end). */
  function ResolvePage(count: nat, size: nat, req: PageRequest): (k: nat)
    requires size > 0
    ensures 1 <= k <= NumPages(count, size)
    ensures req.Number? && 1 <= req.n <= NumPages(count, size) ==> k == req.n
    ensures req.Number? && !(1 <= req.n <= NumPages(count, size)) ==> k == NumPages(count, size)
    ensures !req.Number? ==> k == 1
  {
    match req
    case NoPage => 1
    case NotANumber => 1
    case Number(n) =>
      var last := NumPages(count, size);
      if 1 <= n <= last then n else last
  }

  /** The offset of the first item of page `k`. */
  function Bottom(size: nat, k: nat): nat
    requires k >= 1
  {
    (k - 1) * size
  }

  /** Every page of a listing starts inside it (or at 0 when it is
      empty), and every page before the last ends before its end. */
  lemma BottomBounds(count: nat, size: nat, k: nat)
    requires size > 0 && 1 <= k <= NumPages(count, size)
    ensures Bottom(size, k) <= count
    ensures k < NumPages(count, size) ==> Bottom(size, k) + size < count
    ensures k == NumPages(count, size) ==> count <= Bottom(size, k) + size
  {
    var r := NumPages(count, size);
    MulLe(k - 1, r - 1, size);
    MulSucc(k - 1, size);
    if k < r {
      MulLe(k, r - 1, size);
    }
  }

  /** The items of page `k`: the slice that starts at `Bottom(size, k)`
      and holds `size` items, or fewer on the last page. Every page but
      the last is full, and no page of a non-empty listing is empty. */
  function PageItems<T>(items: seq<T>, size: nat, k: nat): (r: seq<T>)
    requires size > 0 && 1 <= k <= NumPages(|items|, size)
    ensures Bottom(size, k) + |r| <= |items|
    ensures r == items[Bottom(size, k)..Bottom(size, k) + |r|]
    ensures |r| <= size
    ensures k < NumPages(|items|, size) ==> |r| == size
    ensures k == NumPages(|items|, size) ==> Bottom(size, k) + |r| == |items|
    ensures |items| > 0 ==> |r| > 0
  {
    BottomBounds(|items|, size, k);
    var bottom := Bottom(size, k);
    var top := if bottom + size >= |items| then |items| else bottom + size;
    items[bottom..top]
  }

  /** `paginator_create`: the page of `items` that the request selects,
      with `size` items per page. */
  function Paginate<T>(items: seq<T>, size: nat, req: PageRequest): (p: Page<T>)
    requires size > 0
    ensures p.numPages == NumPages(|items|, size)
    ensures p.number == ResolvePage(|items|, size, req)
    ensures p.items == PageItems(items, size, p.number)
  {
    var k := ResolvePage(|items|, size, req);
    Page(k, NumPages(|items|, size), PageItems(items, size, k))
  }

  /** With no page number the first page is shown; it holds the first
      `size` items in their order, or all of them when there are fewer. */
  lemma FirstPage<T>(items: seq<T>, size: nat, req: PageRequest)
    requires size > 0 && !req.Number?
    ensures Paginate(items, size, req).number == 1
    ensures |items| >= size ==> Paginate(items, size, req).items == items[..size]
    ensures |items| < size ==> Paginate(items, size, req).items == items
    ensures |items| > 0 ==> Paginate(items, size, req).items[0] == items[0]
  {
    var r := NumPages(|items|, size);
    assert Bottom(size, 1) == 0;
    if |items| < size && r > 1 {
      MulLe(1, r - 1, size);
    }
  }

  /** The second page of a listing of more than one and at most two
      pages' worth of items holds the remaining items. */
  lemma SecondPage<T>(items: seq<T>, size: nat)
    requires size > 0 && size < |items| <= 2 * size
    ensures Paginate(items, size, Number(2)).number == 2
    ensures Paginate(items, size, Number(2)).items == items[size..]
    ensures |Paginate(items, size, Number(2)).items| == |items| - size
  {
    var r := NumPages(|items|, size);
    MulLt(r - 1, 2, size);
    MulLt(1, r, size);
    assert Bottom(size, 2) == size;
  }

  /** The last page of a non-empty listing holds `count % size` items, or
      a full page when `size` divides `count`. */
  lemma LastPage<T>(items: seq<T>, size: nat)
    requires size > 0 && |items| > 0
    ensures var last := NumPages(|items|, size);
      |PageItems(items, size, last)| == if |items| % size == 0 then size else |items| % size
  {
    var n, r := |items|, NumPages(|items|, size);
    var q, m := n / size, n % size;
    assert n == q * size + m;
    MulSucc(r - 1, size);
    if m == 0 {
      MulLt(r - 1, q, size);
      if q > r {
        MulLe(r + 1, q, size);
        MulSucc(r, size);
      }
    } else {
      if r - 1 > q {
        MulLe(q + 1, r - 1, size);
        MulSucc(q, size);
      } else if r - 1 < q {
        MulLe(r, q, size);
      }
    }
  }

  /** The items of pages `k`, `k + 1`, ..., up to the last, in order. */
  function PagesFrom<T>(items: seq<T>, size: nat, k: nat): seq<T>
    requires size > 0 && k >= 1
    decreases NumPages(|items|, size) + 1 - k
  {
    if k > NumPages(|items|, size) then []
    else PageItems(items, size, k) + PagesFrom(items, size, k + 1)
  }

  /** Pages `k` onwards, laid end to end, are exactly the items from the
      start of page `k` on. */
  lemma {:induction false} PagesFromSuffix<T>(items: seq<T>, size: nat, k: nat)
    requires size > 0 && 1 <= k <= NumPages(|items|, size)
    ensures Bottom(size, k) <= |items|
    ensures PagesFrom(items, size, k) == items[Bottom(size, k)..]
    decreases NumPages(|items|, size) - k
  {
    var r := NumPages(|items|, size);
    var page := PageItems(items, size, k);
    if k == r {
      assert PagesFrom(items, size, k) == page + [];
    } else {
      PagesFromSuffix(items, size, k + 1);
      MulSucc(k - 1, size);
      var b := Bottom(size, k);
      assert Bottom(size, k + 1) == b + size;
      assert items[b..] == items[b..b + size] + items[b + size..];
    }
  }

  /** Pagination splits a listing into contiguous, order-preserving
      pages: read one after the other, the pages give back the listing
      exactly, with nothing lost, repeated or reordered. */
  lemma PagesPartition<T>(items: seq<T>, size: nat)
    requires size > 0
    ensures PagesFrom(items, size, 1) == items
  {
    PagesFromSuffix(items, size, 1);
    assert Bottom(size, 1) == 0;
  }
}
