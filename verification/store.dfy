/** The `invoices` table and the writes and point lookups on it: insert with a
    UNIQUE invoice number, AUTOINCREMENT ids and column defaults; lookup by
    invoice number; status update. */
module InvoiceStore {
  import opened Wrappers
  import opened Invoices

  /** The table: its rows in rowid order, and the id the next insert receives.
      With AUTOINCREMENT an id is never handed out twice, so `nextId` only grows. */
  datatype Store = Store(rows: seq<Invoice>, nextId: nat)

  /** The table as first created: no rows, and AUTOINCREMENT starts at 1. */
  function EmptyStore(): Store {
    Store([], 1)
  }

  /** The column default of `status`, also applied by the insert to an empty status. */
  const DefaultStatus := "submitted"

  /** Why an insert is rejected. */
  datatype StoreError = DuplicateInvoiceNumber(invoiceNumber: string)

  /** A successful insert: the new table and `lastInsertRowid`. */
  datatype Saved = Saved(store: Store, id: nat)

  /** What the table's constraints and the insert path keep true of every
      reachable table: ids increase with rowid order, lie below `nextId` and
      start at 1, invoice numbers are UNIQUE, and no optional column holds "". */
  predicate Valid(s: Store) {
    && 1 <= s.nextId
    && (forall i, j :: 0 <= i < j < |s.rows| ==> s.rows[i].id < s.rows[j].id)
    && (forall i :: 0 <= i < |s.rows| ==> 1 <= s.rows[i].id < s.nextId)
    && (forall i, j :: 0 <= i < j < |s.rows| ==> s.rows[i].invoiceNumber != s.rows[j].invoiceNumber)
    && (forall i :: 0 <= i < |s.rows| ==> NullsNormalized(s.rows[i]))
  }

  /** Ids are distinct in a valid table, so an id names one row. */
  lemma SameIdSameRow(s: Store, a: Invoice, b: Invoice)
    requires Valid(s)
    requires a in s.rows && b in s.rows
    requires a.id == b.id
    ensures a == b
  {
    var i :| 0 <= i < |s.rows| && s.rows[i] == a;
    var j :| 0 <= j < |s.rows| && s.rows[j] == b;
    assert i == j;
  }

  /** Some row carries invoice number `n`. */
  predicate HasNumber(s: Store, n: string) {
    exists x :: x in s.rows && x.invoiceNumber == n
  }

  /** `value || null` on an optional text: absent and empty both become NULL. */
  function NullIfEmpty(v: Option<string>): (r: Option<string>)
    ensures r.None? <==> v.None? || v == Some("")
    ensures r.Some? ==> r == v
  {
    if v.None? || v.value == "" then None else v
  }

  /** `status || 'submitted'`: a non-empty status is kept, anything else becomes the default. */
  function StatusOrDefault(v: Option<string>): (r: string)
    ensures r != ""
    ensures v.Some? && v.value != "" ==> r == v.value
    ensures v.None? || v == Some("") ==> r == DefaultStatus
  {
    if v.Some? && v.value != "" then v.value else DefaultStatus
  }

  /** The row the INSERT writes for a submission, given the id AUTOINCREMENT
      assigns and the CURRENT_TIMESTAMP default: it keeps every required column as given,
      turns each absent or empty optional column into NULL, defaults the
      status, and takes its id and creation time from the store, never from
      the caller's `id` or `createdAt`. */
  function ToRow(inv: Submission, id: nat, now: Timestamp): (x: Invoice)
    ensures x.id == id && x.createdAt == now
    ensures && x.invoiceNumber == inv.invoiceNumber
            && x.contractorName == inv.contractorName
            && x.contractorEmail == inv.contractorEmail
            && x.companyName == inv.companyName
            && x.invoiceDate == inv.invoiceDate
            && x.total == inv.total
            && x.lineItems == inv.lineItems
    ensures NullsNormalized(x)
    ensures x.contractorPhone.None? <==> inv.contractorPhone in {None, Some("")}
    ensures x.contractorAddress.None? <==> inv.contractorAddress in {None, Some("")}
    ensures x.companyKey.None? <==> inv.companyKey in {None, Some("")}
    ensures x.companyAddress.None? <==> inv.companyAddress in {None, Some("")}
    ensures x.companyEmail.None? <==> inv.companyEmail in {None, Some("")}
    ensures x.dueDate.None? <==> inv.dueDate in {None, Some("")}
    ensures x.notes.None? <==> inv.notes in {None, Some("")}
    ensures x.status == DefaultStatus <==> inv.status in {None, Some(""), Some(DefaultStatus)}
    ensures && (x.contractorPhone.Some? ==> x.contractorPhone == inv.contractorPhone)
            && (x.contractorAddress.Some? ==> x.contractorAddress == inv.contractorAddress)
            && (x.companyKey.Some? ==> x.companyKey == inv.companyKey)
            && (x.companyAddress.Some? ==> x.companyAddress == inv.companyAddress)
            && (x.companyEmail.Some? ==> x.companyEmail == inv.companyEmail)
            && (x.dueDate.Some? ==> x.dueDate == inv.dueDate)
            && (x.notes.Some? ==> x.notes == inv.notes)
    ensures inv.status.Some? && inv.status.value != "" ==> x.status == inv.status.value
  {
    Invoice(
      id := id,
      invoiceNumber := inv.invoiceNumber,
      contractorName := inv.contractorName,
      contractorEmail := inv.contractorEmail,
      contractorPhone := NullIfEmpty(inv.contractorPhone),
      contractorAddress := NullIfEmpty(inv.contractorAddress),
      companyKey := NullIfEmpty(inv.companyKey),
      companyName := inv.companyName,
      companyAddress := NullIfEmpty(inv.companyAddress),
      companyEmail := NullIfEmpty(inv.companyEmail),
      invoiceDate := inv.invoiceDate,
      dueDate := NullIfEmpty(inv.dueDate),
      notes := NullIfEmpty(inv.notes),
      total := inv.total,
      lineItems := inv.lineItems,
      createdAt := now,
      status := StatusOrDefault(inv.status))
  }

  /** `saveInvoice`: the INSERT. It fails on the UNIQUE invoice number (SQLite
      rolls the statement back, so the table and its AUTOINCREMENT counter stay
      as they were); otherwise it appends exactly one row whose id is `nextId`. */
  function Save(s: Store, inv: Submission, now: Timestamp): (r: Result<Saved, StoreError>)
    ensures r.Failure? <==> HasNumber(s, inv.invoiceNumber)
    ensures r.Failure? ==> r.error == DuplicateInvoiceNumber(inv.invoiceNumber)
    ensures r.Success? ==>
      && r.value.id == s.nextId
      && |r.value.store.rows| == |s.rows| + 1
      && r.value.store.rows[..|s.rows|] == s.rows
      && r.value.store.rows[|s.rows|] == ToRow(inv, r.value.id, now)
      && r.value.id < r.value.store.nextId
    ensures r.Success? && Valid(s) ==>
      && Valid(r.value.store)
      && (forall x :: x in s.rows ==> x.id < r.value.id)
  {
    if HasNumber(s, inv.invoiceNumber) then
      Failure(DuplicateInvoiceNumber(inv.invoiceNumber))
    else
      var id := s.nextId;
      var row := ToRow(inv, id, now);
      var s' := Store(s.rows + [row], id + 1);
      assert Valid(s) ==> Valid(s') by {
        if Valid(s) {
          AppendKeepsValid(s, row);
        }
      }
      Success(Saved(s', id))
  }

  /** Appending a normalized row with a fresh number and the next id keeps the table valid. */
  lemma AppendKeepsValid(s: Store, row: Invoice)
    requires Valid(s)
    requires row.id == s.nextId && NullsNormalized(row)
    requires !HasNumber(s, row.invoiceNumber)
    ensures Valid(Store(s.rows + [row], s.nextId + 1))
  {
    var rows := s.rows + [row];
    forall i, j | 0 <= i < j < |rows|
      ensures rows[i].invoiceNumber != rows[j].invoiceNumber
    {
      if j == |s.rows| {
        assert rows[i] == s.rows[i];
        assert s.rows[i] in s.rows;
      }
    }
  }

  /** `getInvoiceByNumber`: the first row (of at most one, in a valid table)
      whose invoice number equals `n`; `None` where the query finds nothing. */
  function FindByNumber(s: Store, n: string): (r: Option<Invoice>)
    ensures r.Some? ==> r.value in s.rows && r.value.invoiceNumber == n
    ensures r.None? <==> !HasNumber(s, n)
  {
    var hits := Where(s.rows, (x: Invoice) => x.invoiceNumber == n);
    if |hits| == 0 then None
    else
      assert hits[0] in hits;
      Some(hits[0])
  }

  /** In a valid table the lookup finds THE row with that number. */
  lemma FindsTheRow(s: Store, x: Invoice)
    requires Valid(s)
    requires x in s.rows
    ensures FindByNumber(s, x.invoiceNumber) == Some(x)
  {
    var r := FindByNumber(s, x.invoiceNumber);
    var i :| 0 <= i < |s.rows| && s.rows[i] == x;
    var j :| 0 <= j < |s.rows| && s.rows[j] == r.value;
    assert i == j;
  }

  /** After a successful save, looking the number up returns the saved row. */
  lemma SaveThenFind(s: Store, inv: Submission, now: Timestamp)
    requires Valid(s)
    requires Save(s, inv, now).Success?
    ensures var saved := Save(s, inv, now).value;
      FindByNumber(saved.store, inv.invoiceNumber) == Some(ToRow(inv, saved.id, now))
  {
    var saved := Save(s, inv, now).value;
    var rows := saved.store.rows;
    assert rows[|s.rows|] in rows;
    FindsTheRow(saved.store, rows[|s.rows|]);
  }

  /** Saving two submissions with the same invoice number never stores both:
      the second save is rejected. */
  lemma SecondSaveOfNumberRejected(s: Store, a: Submission, b: Submission, t1: Timestamp, t2: Timestamp)
    requires Save(s, a, t1).Success?
    requires b.invoiceNumber == a.invoiceNumber
    ensures Save(Save(s, a, t1).value.store, b, t2) == Failure(DuplicateInvoiceNumber(a.invoiceNumber))
  {
    var s' := Save(s, a, t1).value.store;
    assert s'.rows[|s.rows|] in s'.rows;
  }

  /** `updateInvoiceStatus`: `UPDATE ... SET status WHERE invoice_number = n`. */
  function UpdateStatus(s: Store, n: string, status: string): (r: Store)
    ensures r.nextId == s.nextId
    ensures |r.rows| == |s.rows|
    ensures forall i :: 0 <= i < |s.rows| && s.rows[i].invoiceNumber == n ==>
      r.rows[i] == s.rows[i].(status := status)
    ensures forall i :: 0 <= i < |s.rows| && s.rows[i].invoiceNumber != n ==> r.rows[i] == s.rows[i]
    ensures !HasNumber(s, n) ==> r == s
    ensures Valid(s) ==> Valid(r)
  {
    var rows := seq(|s.rows|, i requires 0 <= i < |s.rows| =>
      if s.rows[i].invoiceNumber == n then s.rows[i].(status := status) else s.rows[i]);
    assert !HasNumber(s, n) ==> rows == s.rows by {
      if !HasNumber(s, n) {
        forall i | 0 <= i < |s.rows| ensures rows[i] == s.rows[i] {
          assert s.rows[i] in s.rows;
        }
      }
    }
    Store(rows, s.nextId)
  }

  /** After a status update, the row with that number reads back with the new
      status and every other column as before. */
  lemma UpdateThenFind(s: Store, n: string, status: string)
    requires Valid(s)
    requires HasNumber(s, n)
    ensures var before := FindByNumber(s, n);
      FindByNumber(UpdateStatus(s, n, status), n) == Some(before.value.(status := status))
  {
    var x := FindByNumber(s, n).value;
    var i :| 0 <= i < |s.rows| && s.rows[i] == x;
    var s' := UpdateStatus(s, n, status);
    assert s'.rows[i] in s'.rows;
    FindsTheRow(s', s'.rows[i]);
  }
}
