/** The `GET /api/invoices/by-company?company=<key>` handler: reject a missing
    key, otherwise list the company's invoices with their count and total. */
module ByCompanyApi {
  import opened Wrappers
  import opened Invoices
  import opened InvoiceStore
  import opened Listings

  /** The JSON body with its HTTP status: an error (400), or the company's
      invoices with `count` and `totalAmount` (200). */
  datatype Response =
    | BadRequest(error: string)
    | CompanyInvoices(company: string, count: nat, totalAmount: int, invoices: seq<Invoice>)
  {
    function Status(): nat {
      if BadRequest? then 400 else 200
    }
  }

  const MissingKeyMessage := "Company key is required"

  /** `xs.reduce((sum, inv) => sum + inv.total, acc)`: the running sum from the left. */
  function SumTotals(xs: seq<Invoice>, acc: int): (r: int)
    ensures r == acc + TotalOf(xs)
  {
    if |xs| == 0 then acc
    else
      assert xs == [xs[0]] + xs[1..];
      TotalOfConcat([xs[0]], xs[1..]);
      assert [xs[0]][..0] == [];
      SumTotals(xs[1..], acc + xs[0].total)
  }

  /** The handler. `company` is `url.searchParams.get('company')`: `None` when
      the parameter is absent. Both an absent and an empty key are refused
      without reading the table. */
  function GetByCompany(s: Store, company: Option<string>): (r: Response)
    ensures r.BadRequest? <==> company.None? || company == Some("")
    ensures r.BadRequest? ==> r.Status() == 400 && r.error == MissingKeyMessage
    ensures r.CompanyInvoices? ==>
      && r.Status() == 200
      && r.company == company.value
      && r.invoices == ByCompany(s, company.value)
      && r.count == |r.invoices|
      && r.totalAmount == TotalOf(r.invoices)
    ensures r.CompanyInvoices? ==> forall x :: x in r.invoices <==> x in s.rows && x.companyKey == company
  {
    if company.None? || company.value == "" then
      BadRequest(MissingKeyMessage)
    else
      var key := company.value;
      var invoices := ByCompany(s, key);
      CompanyInvoices(key, |invoices|, SumTotals(invoices, 0), invoices)
  }

  /** A refused request does not depend on the table at all. */
  lemma MissingKeyIgnoresStore(s1: Store, s2: Store, company: Option<string>)
    requires company.None? || company == Some("")
    ensures GetByCompany(s1, company) == GetByCompany(s2, company) == BadRequest(MissingKeyMessage)
  {
  }

  /** The reported count and amount are those of the company's rows taken in
      table order: the newest-first ordering changes neither. */
  lemma ReportMatchesTable(s: Store, key: string)
    requires key != ""
    ensures var r := GetByCompany(s, Some(key));
      var rows := Where(s.rows, (x: Invoice) => x.companyKey == Some(key));
      r.count == |rows| && r.totalAmount == TotalOf(rows)
  {
    var rows := Where(s.rows, (x: Invoice) => x.companyKey == Some(key));
    var listed := ByCompany(s, key);
    assert |multiset(listed)| == |multiset(rows)|;
    TotalOfPermutation(listed, rows);
  }

  /** Saving an invoice under a company key adds one invoice and its total to
      that company's report; the reports of other keys are unchanged. */
  lemma ReportAfterSave(s: Store, inv: Submission, now: Timestamp, key: string)
    requires key != ""
    requires Save(s, inv, now).Success?
    ensures var before := GetByCompany(s, Some(key));
      var after := GetByCompany(Save(s, inv, now).value.store, Some(key));
      if inv.companyKey == Some(key) then
        after.count == before.count + 1 && after.totalAmount == before.totalAmount + inv.total
      else
        after.count == before.count && after.totalAmount == before.totalAmount
  {
    var saved := Save(s, inv, now).value;
    var row := ToRow(inv, saved.id, now);
    assert saved.store.rows == s.rows + [row];
    var p := (x: Invoice) => x.companyKey == Some(key);
    WhereAppend(s.rows, row, p);
    ReportMatchesTable(s, key);
    ReportMatchesTable(saved.store, key);
    TotalOfConcat(Where(s.rows, p), [row]);
    assert [row][..0] == [];
    assert p(row) <==> inv.companyKey == Some(key);
  }
}
