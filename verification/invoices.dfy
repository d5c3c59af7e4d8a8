/** The one entity of the system: an invoice row of the `invoices` table, the
    record a caller hands to the store, and the aggregates taken over rows. */
module Invoices {
  import opened Wrappers

  type Year = y: nat | y <= 9999
  type Month = m: nat | 1 <= m <= 12 witness 1
  type Day = d: nat | 1 <= d <= 31 witness 1
  type Hour = h: nat | h <= 23
  type Minute = m: nat | m <= 59
  type Second = s: nat | s <= 59

  /** A `created_at` value as SQLite's CURRENT_TIMESTAMP writes it:
      the text `YYYY-MM-DD HH:MM:SS` (UTC), kept here field by field. */
  datatype Timestamp = Timestamp(year: Year, month: Month, day: Day, hour: Hour, minute: Minute, second: Second)

  /** The timestamp read as the number YYYYMMDDhhmmss. Every field has a fixed
      width in the text, so comparing these numbers orders timestamps exactly as
      comparing the texts does (which is what `ORDER BY created_at` does). */
  function Instant(t: Timestamp): nat {
    ((((t.year * 100 + t.month) * 100 + t.day) * 100 + t.hour) * 100 + t.minute) * 100 + t.second
  }

  /** A stored row. Optional columns are `None` where the row holds NULL;
      `total` is in cents; `lineItems` is JSON text the store never looks into. */
  datatype Invoice = Invoice(
    id: nat,
    invoiceNumber: string,
    contractorName: string,
    contractorEmail: string,
    contractorPhone: Option<string>,
    contractorAddress: Option<string>,
    companyKey: Option<string>,
    companyName: string,
    companyAddress: Option<string>,
    companyEmail: Option<string>,
    invoiceDate: string,
    dueDate: Option<string>,
    notes: Option<string>,
    total: int,
    lineItems: string,
    createdAt: Timestamp,
    status: string)

  /** What a caller passes to the save operation. `id` and `createdAt` may be
      present on the caller's object but the insert never reads them. */
  datatype Submission = Submission(
    id: Option<int>,
    invoiceNumber: string,
    contractorName: string,
    contractorEmail: string,
    contractorPhone: Option<string>,
    contractorAddress: Option<string>,
    companyKey: Option<string>,
    companyName: string,
    companyAddress: Option<string>,
    companyEmail: Option<string>,
    invoiceDate: string,
    dueDate: Option<string>,
    notes: Option<string>,
    total: int,
    lineItems: string,
    createdAt: Option<string>,
    status: Option<string>)

  /** A stored optional column never holds the empty string: the insert turns
      an empty value into NULL. */
  predicate NullsNormalized(x: Invoice) {
    && x.contractorPhone != Some("")
    && x.contractorAddress != Some("")
    && x.companyKey != Some("")
    && x.companyAddress != Some("")
    && x.companyEmail != Some("")
    && x.dueDate != Some("")
    && x.notes != Some("")
  }

  /** SQL `SUM(total)` over the rows, with an empty set of rows summing to 0
      (the `|| 0` the code applies to SQL's NULL). */
  function TotalOf(xs: seq<Invoice>): int {
    if |xs| == 0 then 0 else TotalOf(xs[..|xs| - 1]) + xs[|xs| - 1].total
  }

  /** The rows satisfying a `WHERE` condition, in their original order. */
  function Where(xs: seq<Invoice>, p: Invoice -> bool): (r: seq<Invoice>)
    ensures |r| <= |xs|
    ensures forall x :: x in r <==> x in xs && p(x)
  {
    if |xs| == 0 then []
    else
      var rest := Where(xs[..|xs| - 1], p);
      var last := xs[|xs| - 1];
      assert xs == xs[..|xs| - 1] + [last];
      if p(last) then rest + [last] else rest
  }

  /** Summing a concatenation sums the parts. */
  lemma {:induction false} TotalOfConcat(a: seq<Invoice>, b: seq<Invoice>)
    ensures TotalOf(a + b) == TotalOf(a) + TotalOf(b)
  {
    if |b| > 0 {
      TotalOfConcat(a, b[..|b| - 1]);
      assert (a + b)[..|a + b| - 1] == a + b[..|b| - 1];
    } else {
      assert a + b == a;
    }
  }

  /** Taking one row out of a list takes its total out of the sum. */
  lemma TotalOfRemove(b: seq<Invoice>, k: nat)
    requires k < |b|
    ensures TotalOf(b) == TotalOf(b[..k] + b[k + 1..]) + b[k].total
  {
    var front := b[..k + 1];
    assert front[..k] == b[..k];
    assert TotalOf(front) == TotalOf(b[..k]) + b[k].total;
    assert b == front + b[k + 1..];
    TotalOfConcat(front, b[k + 1..]);
    TotalOfConcat(b[..k], b[k + 1..]);
  }

  /** Removing the same row from two permutations of each other leaves permutations. */
  lemma RemoveFromPermutation(a: seq<Invoice>, b: seq<Invoice>, k: nat)
    requires 0 < |a| && k < |b|
    requires multiset(a) == multiset(b)
    requires b[k] == a[|a| - 1]
    ensures multiset(a[..|a| - 1]) == multiset(b[..k] + b[k + 1..])
  {
    var x := a[|a| - 1];
    assert a == a[..|a| - 1] + [x];
    assert b == b[..k] + [x] + b[k + 1..];
    var a', b' := multiset(a[..|a| - 1]), multiset(b[..k] + b[k + 1..]);
    assert a' + multiset{x} == b' + multiset{x};
    assert a' == a' + multiset{x} - multiset{x};
    assert b' == b' + multiset{x} - multiset{x};
  }

  /** The sum does not depend on the order of the rows. */
  lemma {:induction false} TotalOfPermutation(a: seq<Invoice>, b: seq<Invoice>)
    requires multiset(a) == multiset(b)
    ensures TotalOf(a) == TotalOf(b)
  {
    if |a| > 0 {
      var x := a[|a| - 1];
      assert x in multiset(b);
      var k :| 0 <= k < |b| && b[k] == x;
      RemoveFromPermutation(a, b, k);
      TotalOfPermutation(a[..|a| - 1], b[..k] + b[k + 1..]);
      TotalOfRemove(b, k);
    } else {
      assert b == [];
    }
  }

  /** A condition every row satisfies keeps all of them. */
  lemma {:induction false} WhereAll(xs: seq<Invoice>, p: Invoice -> bool)
    requires forall x :: x in xs ==> p(x)
    ensures Where(xs, p) == xs
  {
    if |xs| > 0 {
      var earlier := xs[..|xs| - 1];
      assert forall x :: x in earlier ==> x in xs;
      WhereAll(earlier, p);
      assert xs == earlier + [xs[|xs| - 1]];
    }
  }

  /** Filtering keeps every row that satisfies the condition as many times as
      the table holds it, and no other row. */
  lemma {:induction false} WhereCounts(xs: seq<Invoice>, p: Invoice -> bool)
    ensures forall x :: multiset(Where(xs, p))[x] == if p(x) then multiset(xs)[x] else 0
  {
    if |xs| > 0 {
      var earlier, last := xs[..|xs| - 1], xs[|xs| - 1];
      WhereCounts(earlier, p);
      assert xs == earlier + [last];
      assert multiset(xs) == multiset(earlier) + multiset{last};
      WhereAppend(earlier, last, p);
    }
  }

  /** Filtering after appending a row filters the old rows and then keeps or
      drops the new one. */
  lemma WhereAppend(xs: seq<Invoice>, x: Invoice, p: Invoice -> bool)
    ensures Where(xs + [x], p) == if p(x) then Where(xs, p) + [x] else Where(xs, p)
  {
    assert (xs + [x])[..|xs|] == xs;
  }
}
