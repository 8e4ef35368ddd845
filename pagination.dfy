/** The page arithmetic shared by the event and registration listings. */
module Pagination {
  import opened Wrappers
  import opened Text

  /** The `pagination` block of a listing; `skip` is what the query skips. */
  datatype Page = Page(total: nat, page: int, limit: int, skip: int, totalPages: int)

  /** `Math.ceil(a / b)` on integers. */
  function CeilDiv(a: int, b: int): (q: int)
    requires b != 0
    ensures b > 0 ==> (q - 1) * b < a <= q * b
    ensures b < 0 ==> (q - 1) * -b < -a <= q * -b
  {
    if b > 0 then (a + b - 1) / b else (-a - b - 1) / -b
  }

  /** `page || 1`, `limit || defaultLimit`, `skip = (page - 1) * limit` and
      `totalPages = Math.ceil(total / limit)`. */
  function Paginate(total: nat, page: Option<int>, limit: Option<int>, defaultLimit: int): (p: Page)
    requires defaultLimit > 0
    ensures p.total == total
    ensures p.page == (if TruthyNumber(page) then page.value else 1)
    ensures p.limit == (if TruthyNumber(limit) then limit.value else defaultLimit)
    ensures p.limit != 0
    ensures p.skip == (p.page - 1) * p.limit
    ensures p.limit > 0 ==> (p.totalPages - 1) * p.limit < total <= p.totalPages * p.limit
  {
    var page := if TruthyNumber(page) then page.value else 1;
    var limit := if TruthyNumber(limit) then limit.value else defaultLimit;
    Page(total, page, limit, (page - 1) * limit, CeilDiv(total, limit))
  }

  /** With a positive page size, item `k` of `total` sits on page `k / limit + 1`: that page's
      window holds it and the page number does not exceed `totalPages`. */
  lemma PageOfItem(total: nat, limit: int, defaultLimit: int, k: nat)
    requires defaultLimit > 0 && limit > 0 && k < total
    ensures var p := Paginate(total, Some(k / limit + 1), Some(limit), defaultLimit);
            && p.skip <= k < p.skip + p.limit
            && 1 <= p.page <= p.totalPages
  {
    var q := k / limit;
    DivisionBounds(k, limit);
    var p := Paginate(total, Some(q + 1), Some(limit), defaultLimit);
    assert p.skip == q * limit;
    LastPageBound(q, p.totalPages, limit, k, total);
  }

  lemma DivisionBounds(k: nat, limit: int)
    requires limit > 0
    ensures (k / limit) * limit <= k < (k / limit) * limit + limit
  {
  }

  lemma LastPageBound(q: int, t: int, limit: int, k: int, total: int)
    requires limit > 0 && q * limit <= k < total <= t * limit
    ensures q + 1 <= t
  {
    if q + 1 > t {
      MultiplyMonotone(t, q, limit);
    }
  }

  lemma MultiplyMonotone(a: int, b: int, c: int)
    requires a <= b && c > 0
    ensures a * c <= b * c
  {
  }
}
