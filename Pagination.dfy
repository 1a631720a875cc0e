/** The pagination both services compute (src/services/postService.ts and
    src/services/userService.ts each declare the same `Pagination` shape):
    skip `(page - 1) * limit` documents, take at most `limit`, and report the
    total with `totalPage = Math.ceil(total / limit)`. */
module Pagination {

  datatype PageInfo = PageInfo(total: nat, page: int, limit: int, totalPage: int)

  /** One page of a listing: `{posts | users, pagination}`. */
  datatype Listing<T> = Listing(items: seq<T>, pagination: PageInfo)

  function Min(a: int, b: int): int {
    if a <= b then a else b
  }

  lemma MulMonotone(a: int, b: int, c: nat)
    requires a <= b
    ensures a * c <= b * c
  {
    assert b * c - a * c == (b - a) * c;
  }

  /** `Math.ceil(total / limit)` for a positive limit: the least number of
      pages of `limit` items that holds `total` items. */
  function CeilDiv(total: nat, limit: nat): (q: nat)
    requires limit >= 1
    ensures total <= q * limit
    ensures (q - 1) * limit < total
  {
    var q := (total + limit - 1) / limit;
    var m := (total + limit - 1) % limit;
    assert q * limit + m == total + limit - 1;
    assert (q - 1) * limit == q * limit - limit;
    q
  }

  /** `.skip(skip).limit(limit)` over documents in store order. */
  function Window<T>(items: seq<T>, skip: nat, limit: nat): (w: seq<T>)
    ensures |w| == if skip >= |items| then 0 else Min(limit, |items| - skip)
    ensures forall k :: 0 <= k < |w| ==> w[k] == items[skip + k]
  {
    if skip >= |items| then [] else items[skip..Min(|items|, skip + limit)]
  }

  function Skip(page: int, limit: int): (skip: nat)
    requires page >= 1 && limit >= 1
    ensures skip == (page - 1) * limit
  {
    MulMonotone(0, page - 1, limit);
    (page - 1) * limit
  }

  /** Page `page` of `all`, `limit` per page, with its pagination record. */
  function Paginate<T>(all: seq<T>, page: int, limit: int): (r: Listing<T>)
    requires page >= 1 && limit >= 1
    ensures |r.items| <= limit
    ensures |r.items| == if (page - 1) * limit >= |all| then 0 else Min(limit, |all| - (page - 1) * limit)
    ensures forall k :: 0 <= k < |r.items| ==> r.items[k] == all[(page - 1) * limit + k]
    ensures r.pagination == PageInfo(|all|, page, limit, CeilDiv(|all|, limit))
  {
    Listing(Window(all, Skip(page, limit), limit), PageInfo(|all|, page, limit, CeilDiv(|all|, limit)))
  }

  /** A page has items exactly when its number is at most `totalPage`. */
  lemma PageNonEmptyIff<T>(all: seq<T>, page: int, limit: int)
    requires page >= 1 && limit >= 1
    ensures |Paginate(all, page, limit).items| > 0 <==> page <= Paginate(all, page, limit).pagination.totalPage
  {
    var q := CeilDiv(|all|, limit);
    if page <= q {
      MulMonotone(page - 1, q - 1, limit);
    } else {
      MulMonotone(q, page - 1, limit);
    }
  }

  /** Every item is on exactly one page: item i is entry `i % limit` of page
      `i / limit + 1`. */
  lemma ItemOnItsPage<T>(all: seq<T>, limit: int, i: nat)
    requires limit >= 1 && i < |all|
    ensures var p := Paginate(all, i / limit + 1, limit);
      i % limit < |p.items| && p.items[i % limit] == all[i]
  {
    var page := i / limit + 1;
    assert (page - 1) * limit + i % limit == i;
  }
}
