/** `getInvoiceStats`: the invoice count and total amount over the whole table
    and over the rows created in the current calendar month. */
module InvoiceStats {
  import opened Invoices
  import opened InvoiceStore

  /** The four figures the operation returns; amounts in cents. */
  datatype Stats = Stats(totalInvoices: nat, totalAmount: int, thisMonthCount: nat, thisMonthAmount: int)

  /** `strftime('%Y-%m', created_at) = strftime('%Y-%m', 'now')`, with the
      current year and month given. */
  predicate InMonth(x: Invoice, year: nat, month: nat) {
    x.createdAt.year == year && x.createdAt.month == month
  }

  /** The rows created in the given month. */
  function ThisMonth(rows: seq<Invoice>, year: nat, month: nat): seq<Invoice> {
    Where(rows, (x: Invoice) => InMonth(x, year, month))
  }

  /** `getInvoiceStats` with the current year and month as parameters. Both
      sums read 0, not NULL, when no row contributes. */
  function GetInvoiceStats(s: Store, year: nat, month: nat): (st: Stats)
    ensures st.totalInvoices == |s.rows|
    ensures st.thisMonthCount <= st.totalInvoices
    ensures |s.rows| == 0 ==> st == Stats(0, 0, 0, 0)
  {
    var recent := ThisMonth(s.rows, year, month);
    Stats(|s.rows|, TotalOf(s.rows), |recent|, TotalOf(recent))
  }

  /** When every invoice was created in the given month, the month's figures
      are the overall figures. */
  lemma AllInMonth(s: Store, year: nat, month: nat)
    requires forall x :: x in s.rows ==> InMonth(x, year, month)
    ensures var st := GetInvoiceStats(s, year, month);
      st.thisMonthCount == st.totalInvoices && st.thisMonthAmount == st.totalAmount
  {
    WhereAll(s.rows, (x: Invoice) => InMonth(x, year, month));
  }

  /** A successful save adds one invoice and its total to the overall figures,
      and to the month's figures exactly when `now` falls in that month. */
  lemma StatsAfterSave(s: Store, inv: Submission, now: Timestamp, year: nat, month: nat)
    requires Save(s, inv, now).Success?
    ensures var before := GetInvoiceStats(s, year, month);
      var inMonth := now.year == year && now.month == month;
      GetInvoiceStats(Save(s, inv, now).value.store, year, month) == Stats(
        before.totalInvoices + 1,
        before.totalAmount + inv.total,
        before.thisMonthCount + (if inMonth then 1 else 0),
        before.thisMonthAmount + (if inMonth then inv.total else 0))
  {
    var saved := Save(s, inv, now).value;
    var row := ToRow(inv, saved.id, now);
    assert saved.store.rows == s.rows + [row];
    var before, after := GetInvoiceStats(s, year, month), GetInvoiceStats(saved.store, year, month);
    var inMonth := now.year == year && now.month == month;
    assert InMonth(row, year, month) == inMonth;
    AppendRow(s.rows, row, year, month);
    assert after.totalAmount == before.totalAmount + inv.total;
    assert after.thisMonthCount == before.thisMonthCount + (if inMonth then 1 else 0);
    assert after.thisMonthAmount == before.thisMonthAmount + (if inMonth then inv.total else 0);
  }

  /** The figures' two sums and the month's rows after one more row. */
  lemma AppendRow(rows: seq<Invoice>, row: Invoice, year: nat, month: nat)
    ensures TotalOf(rows + [row]) == TotalOf(rows) + row.total
    ensures ThisMonth(rows + [row], year, month)
      == ThisMonth(rows, year, month) + (if InMonth(row, year, month) then [row] else [])
    ensures TotalOf(ThisMonth(rows + [row], year, month))
      == TotalOf(ThisMonth(rows, year, month)) + (if InMonth(row, year, month) then row.total else 0)
  {
    var p := (x: Invoice) => InMonth(x, year, month);
    WhereAppend(rows, row, p);
    TotalOfConcat(rows, [row]);
    TotalOfConcat(Where(rows, p), [row]);
    assert TotalOf([row]) == row.total by {
      assert [row][..0] == [];
    }
  }

  /** Two row lists that agree position by position on total and creation
      time: all the figures can see of a row. */
  predicate SameAmountsAndTimes(a: seq<Invoice>, b: seq<Invoice>) {
    && |a| == |b|
    && forall i :: 0 <= i < |a| ==> a[i].total == b[i].total && a[i].createdAt == b[i].createdAt
  }

  /** The sum reads only the totals. */
  lemma {:induction false} TotalsAgree(a: seq<Invoice>, b: seq<Invoice>)
    requires SameAmountsAndTimes(a, b)
    ensures TotalOf(a) == TotalOf(b)
  {
    if |a| > 0 {
      TotalsAgree(a[..|a| - 1], b[..|b| - 1]);
    }
  }

  /** Whether a row counts for the month depends only on its creation time. */
  lemma {:induction false} MonthRowsAgree(a: seq<Invoice>, b: seq<Invoice>, year: nat, month: nat)
    requires SameAmountsAndTimes(a, b)
    ensures SameAmountsAndTimes(ThisMonth(a, year, month), ThisMonth(b, year, month))
  {
    if |a| > 0 {
      var n := |a| - 1;
      MonthRowsAgree(a[..n], b[..n], year, month);
      assert a == a[..n] + [a[n]];
      assert b == b[..n] + [b[n]];
      AppendRow(a[..n], a[n], year, month);
      AppendRow(b[..n], b[n], year, month);
      AgreeAppend(ThisMonth(a[..n], year, month), ThisMonth(b[..n], year, month),
        a[n], b[n], InMonth(a[n], year, month));
    }
  }

  /** Agreement survives appending two rows that agree, or appending nothing. */
  lemma AgreeAppend(a: seq<Invoice>, b: seq<Invoice>, x: Invoice, y: Invoice, keep: bool)
    requires SameAmountsAndTimes(a, b)
    requires x.total == y.total && x.createdAt == y.createdAt
    ensures SameAmountsAndTimes(a + (if keep then [x] else []), b + (if keep then [y] else []))
  {
    if !keep {
      assert a + [] == a && b + [] == b;
    }
  }

  /** A status update leaves every figure as it was. */
  lemma StatsIgnoreStatusUpdate(s: Store, n: string, status: string, year: nat, month: nat)
    ensures GetInvoiceStats(UpdateStatus(s, n, status), year, month) == GetInvoiceStats(s, year, month)
  {
    var rows := UpdateStatus(s, n, status).rows;
    assert SameAmountsAndTimes(rows, s.rows);
    TotalsAgree(rows, s.rows);
    MonthRowsAgree(rows, s.rows, year, month);
    TotalsAgree(ThisMonth(rows, year, month), ThisMonth(s.rows, year, month));
  }

  /** Two invoices of 100.00 and 250.50 saved this month into an empty table:
      2 invoices, 350.50 in all, both in this month. */
  lemma TwoSavesThisMonth(a: Submission, b: Submission, now: Timestamp)
    requires a.total == 10000 && b.total == 25050
    requires a.invoiceNumber != b.invoiceNumber
    ensures Save(EmptyStore(), a, now).Success?
    ensures var s1 := Save(EmptyStore(), a, now).value.store;
      && Save(s1, b, now).Success?
      && GetInvoiceStats(Save(s1, b, now).value.store, now.year, now.month) == Stats(2, 35050, 2, 35050)
  {
    var s1 := Save(EmptyStore(), a, now).value.store;
    assert s1.rows == [ToRow(a, 1, now)];
    StatsAfterSave(EmptyStore(), a, now, now.year, now.month);
    StatsAfterSave(s1, b, now, now.year, now.month);
  }
}
