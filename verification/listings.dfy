/** The read queries that return lists of rows: the paginated listing of all
    invoices and the listings filtered by contractor email or company key, all
    `ORDER BY created_at DESC`. */
module Listings {
  import opened Wrappers
  import opened Invoices
  import opened InvoiceStore
  import opened Ordering

  /** The key `ORDER BY created_at` sorts on. */
  function CreatedAt(x: Invoice): int {
    Instant(x.createdAt)
  }

  /** Newest first: `created_at` never increases along the list. */
  predicate NewestFirst(xs: seq<Invoice>) {
    Descending(CreatedAt, xs)
  }

  /** `ORDER BY created_at DESC`. Rows with equal `created_at` keep their table
      order here; SQLite leaves their order open, and no contract below relies on it. */
  function SortNewestFirst(xs: seq<Invoice>): seq<Invoice> {
    SortDescending(CreatedAt, xs)
  }

  /** The default `limit` and `offset` of `getAllInvoices`. */
  const DefaultLimit := 100
  const DefaultOffset := 0

  /** Where `LIMIT limit OFFSET offset` starts in a result of `n` rows:
      a negative offset counts as 0. */
  function WindowStart(n: nat, offset: int): (k: nat)
    ensures k <= n
    ensures offset <= 0 ==> k == 0
    ensures 0 <= offset <= n ==> k == offset
    ensures n <= offset ==> k == n
  {
    if offset <= 0 then 0 else if offset < n then offset else n
  }

  /** Where `LIMIT limit OFFSET offset` stops: a negative limit means no bound. */
  function WindowEnd(n: nat, limit: int, offset: int): (k: nat)
    ensures WindowStart(n, offset) <= k <= n
    ensures limit >= 0 ==> k - WindowStart(n, offset) <= limit
    ensures limit < 0 ==> k == n
    ensures 0 <= limit <= n - WindowStart(n, offset) ==> k == WindowStart(n, offset) + limit
    ensures n - WindowStart(n, offset) <= limit ==> k == n
  {
    var start := WindowStart(n, offset);
    if limit < 0 || n - start <= limit then n else start + limit
  }

  /** `getAllInvoices(limit, offset)`: every row, newest first, cut to the window. */
  function AllInvoices(s: Store, limit: int, offset: int): (r: seq<Invoice>)
    ensures limit >= 0 ==> |r| <= limit
    ensures |r| == WindowEnd(|s.rows|, limit, offset) - WindowStart(|s.rows|, offset)
    ensures NewestFirst(r)
    ensures forall x :: x in r ==> x in s.rows
    ensures multiset(r) <= multiset(s.rows)
  {
    var sorted := SortNewestFirst(s.rows);
    var n := |s.rows|;
    var page := sorted[WindowStart(n, offset)..WindowEnd(n, limit, offset)];
    WindowOfDescending(CreatedAt, sorted, WindowStart(n, offset), WindowEnd(n, limit, offset));
    WindowMultiset(sorted, WindowStart(n, offset), WindowEnd(n, limit, offset));
    assert forall x :: x in sorted ==> x in multiset(s.rows);
    page
  }

  /** With no limit and no offset the listing is the whole table, newest first:
      every row, each exactly as often as it is stored. */
  lemma WholeListing(s: Store)
    ensures multiset(AllInvoices(s, -1, 0)) == multiset(s.rows)
    ensures NewestFirst(AllInvoices(s, -1, 0))
  {
    var sorted := SortNewestFirst(s.rows);
    assert sorted[0..|sorted|] == sorted;
  }

  /** Every page is the stretch of the whole newest-first listing that
      `LIMIT limit OFFSET offset` selects. */
  lemma PageOfWholeListing(s: Store, limit: int, offset: int)
    ensures var n := |s.rows|;
      AllInvoices(s, limit, offset) == AllInvoices(s, -1, 0)[WindowStart(n, offset)..WindowEnd(n, limit, offset)]
  {
    var sorted := SortNewestFirst(s.rows);
    assert sorted[0..|sorted|] == sorted;
  }

  /** `getAllInvoices()` with its default arguments: the newest 100 rows, or
      all of them when there are fewer. */
  lemma DefaultPage(s: Store)
    ensures |AllInvoices(s, DefaultLimit, DefaultOffset)| == if |s.rows| < 100 then |s.rows| else 100
    ensures AllInvoices(s, DefaultLimit, DefaultOffset) == AllInvoices(s, -1, 0)[..|AllInvoices(s, DefaultLimit, DefaultOffset)|]
  {
    PageOfWholeListing(s, DefaultLimit, DefaultOffset);
  }

  /** A first page of `limit` rows holds the newest rows: any row left off it is
      no newer than every row on it. */
  lemma FirstPageHoldsNewest(s: Store, limit: int)
    ensures forall x, y :: x in AllInvoices(s, limit, 0) && y in s.rows && y !in AllInvoices(s, limit, 0) ==>
      Instant(x.createdAt) >= Instant(y.createdAt)
  {
    var sorted := SortNewestFirst(s.rows);
    var n := |s.rows|;
    forall x, y | x in AllInvoices(s, limit, 0) && y in s.rows && y !in AllInvoices(s, limit, 0)
      ensures Instant(x.createdAt) >= Instant(y.createdAt)
    {
      assert y in multiset(sorted);
      CutIsOrdered(CreatedAt, sorted, WindowEnd(n, limit, 0), x, y);
    }
  }

  /** Pagination is positional: a page of `a` rows followed by the page of `b`
      rows starting where it ended is the page of `a + b` rows. */
  lemma {:induction false} ConsecutivePages(s: Store, a: nat, b: nat, offset: nat)
    ensures AllInvoices(s, a, offset) + AllInvoices(s, b, offset + a) == AllInvoices(s, a + b, offset)
  {
    var sorted := SortNewestFirst(s.rows);
    var n := |s.rows|;
    var i, j, k := WindowStart(n, offset), WindowEnd(n, a, offset), WindowEnd(n, b, offset + a);
    assert WindowStart(n, offset + a) == j;
    assert WindowEnd(n, a + b, offset) == k;
    assert sorted[i..j] + sorted[j..k] == sorted[i..k];
  }

  /** `getInvoicesByContractor(email)`: the rows whose `contractor_email` equals `email`, newest first. */
  function ByContractor(s: Store, email: string): (r: seq<Invoice>)
    ensures forall x :: x in r <==> x in s.rows && x.contractorEmail == email
    ensures multiset(r) == multiset(Where(s.rows, (x: Invoice) => x.contractorEmail == email))
    ensures NewestFirst(r)
  {
    var hits := Where(s.rows, (x: Invoice) => x.contractorEmail == email);
    var r := SortNewestFirst(hits);
    assert forall x :: x in r <==> x in multiset(hits);
    r
  }

  /** `getInvoicesByCompany(key)`: the rows whose `company_key` equals `key`, newest
      first. A NULL `company_key` equals nothing, so such rows never appear. */
  function ByCompany(s: Store, key: string): (r: seq<Invoice>)
    ensures forall x :: x in r <==> x in s.rows && x.companyKey == Some(key)
    ensures multiset(r) == multiset(Where(s.rows, (x: Invoice) => x.companyKey == Some(key)))
    ensures NewestFirst(r)
  {
    var hits := Where(s.rows, (x: Invoice) => x.companyKey == Some(key));
    var r := SortNewestFirst(hits);
    assert forall x :: x in r <==> x in multiset(hits);
    r
  }

  /** The save path stores an empty company key as NULL, so in a valid table
      the listing for the empty key is always empty. */
  lemma EmptyCompanyKeyListsNothing(s: Store)
    requires Valid(s)
    ensures ByCompany(s, "") == []
  {
    forall x | x in s.rows ensures x.companyKey != Some("") {
      var i :| 0 <= i < |s.rows| && s.rows[i] == x;
      assert NullsNormalized(s.rows[i]);
    }
  }
}
