/** `getNextInvoiceNumber`: the preview of the next invoice number
    `INV-<year>-<sequence>`, taken from the matching row with the highest id. */
module Numbering {
  import opened Wrappers
  import opened Decimal
  import opened Invoices
  import opened InvoiceStore

  /** The sequence part is left-padded with zeros to this many characters. */
  const SequenceWidth: nat := 4

  /** `INV-${year}-`. */
  function Prefix(year: nat): string {
    "INV-" + ToDecimal(year) + "-"
  }

  /** The invoice number with sequence `k` in `year`. */
  function Format(year: nat, k: nat): string {
    Prefix(year) + PadStart(ToDecimal(k), SequenceWidth, '0')
  }

  /** `s.split(sep)` for a one-character separator: the pieces between
      separators, with an empty piece wherever two separators touch or one sits
      at either end (so the empty string splits into one empty piece). */
  function Split(s: string, sep: char): (r: seq<string>)
    ensures 1 <= |r|
  {
    if |s| == 0 then [""]
    else if s[0] == sep then [""] + Split(s[1..], sep)
    else
      var rest := Split(s[1..], sep);
      [[s[0]] + rest[0]] + rest[1..]
  }

  /** A piece without separators splits into itself. */
  lemma {:induction false} SplitWithoutSeparator(s: string, sep: char)
    requires sep !in s
    ensures Split(s, sep) == [s]
  {
    if |s| > 0 {
      assert s == [s[0]] + s[1..];
      SplitWithoutSeparator(s[1..], sep);
    }
  }

  /** A separator-free piece in front of a separator becomes the first token. */
  lemma {:induction false} SplitAfterPiece(a: string, sep: char, b: string)
    requires sep !in a
    ensures Split(a + [sep] + b, sep) == [a] + Split(b, sep)
  {
    var s := a + [sep] + b;
    if |a| == 0 {
      assert s == [sep] + b;
      assert s[1..] == b;
    } else {
      assert s[1..] == a[1..] + [sep] + b;
      assert a == [a[0]] + a[1..];
      SplitAfterPiece(a[1..], sep, b);
    }
  }

  /** `invoiceNumber.split('-')[2]`; `None` where the array has no third element. */
  function SequenceToken(invoiceNumber: string): Option<string> {
    var tokens := Split(invoiceNumber, '-');
    if 3 <= |tokens| then Some(tokens[2]) else None
  }

  /** `parseInt(invoiceNumber.split('-')[2])`, where it yields a number. */
  function SequenceOf(invoiceNumber: string): Option<nat> {
    match SequenceToken(invoiceNumber)
    case None => None
    case Some(token) => ParseInt(token)
  }

  /** After the prefix of a year, the third token is what follows up to the next `-`. */
  lemma ThirdTokenAfterPrefix(year: nat, rest: string)
    ensures SequenceToken(Prefix(year) + rest) == Some(Split(rest, '-')[0])
  {
    var y := ToDecimal(year);
    assert '-' !in y;
    assert Prefix(year) + rest == "INV" + ['-'] + (y + ['-'] + rest);
    SplitAfterTwoPieces("INV", y, '-', rest);
  }

  /** Two separator-free pieces, each followed by the separator, split off as
      the first two tokens. */
  lemma SplitAfterTwoPieces(a: string, b: string, sep: char, rest: string)
    requires sep !in a && sep !in b
    ensures Split(a + [sep] + (b + [sep] + rest), sep) == [a, b] + Split(rest, sep)
  {
    SplitAfterPiece(b, sep, rest);
    SplitAfterPiece(a, sep, b + [sep] + rest);
  }

  /** A stored sequence written `0x10` is read in base sixteen, as `parseInt`
      without a radix does, so it counts as sequence 16 (`HexSequencePreview`
      takes the step to the preview). */
  lemma HexSequenceReadInBase16(year: nat)
    ensures SequenceOf(Prefix(year) + "0x10") == Some(16)
  {
    SplitWithoutSeparator("0x10", '-');
    ThirdTokenAfterPrefix(year, "0x10");
    HexPrefixExamples();
  }

  /** The shape of every number `Format` writes: the year's prefix, then at
      least `SequenceWidth` digits (more only when the sequence needs them)
      that read as the sequence. */
  lemma FormatShape(year: nat, k: nat)
    ensures Prefix(year) <= Format(year, k)
    ensures var suffix := Format(year, k)[|Prefix(year)|..];
      && |suffix| == (if |ToDecimal(k)| < SequenceWidth then SequenceWidth else |ToDecimal(k)|)
      && AllDigits(suffix)
      && ParseDecimal(suffix) == k
  {
    assert Format(year, k)[|Prefix(year)|..] == PadStart(ToDecimal(k), SequenceWidth, '0');
    ZeroPaddedRoundTrip(k, SequenceWidth);
  }

  /** Reading a number back through the same split-and-parse the preview uses
      gives the sequence `Format` wrote. */
  lemma FormatRoundTrip(year: nat, k: nat)
    ensures Prefix(year) <= Format(year, k)
    ensures SequenceOf(Format(year, k)) == Some(k)
  {
    var suffix := PadStart(ToDecimal(k), SequenceWidth, '0');
    ZeroPaddedRoundTrip(k, SequenceWidth);
    assert '-' !in suffix;
    SplitWithoutSeparator(suffix, '-');
    ThirdTokenAfterPrefix(year, suffix);
  }

  /** Different sequences give different numbers within a year. */
  lemma FormatInjective(year: nat, j: nat, k: nat)
    requires Format(year, j) == Format(year, k)
    ensures j == k
  {
    FormatRoundTrip(year, j);
    FormatRoundTrip(year, k);
  }

  /** The number for sequence 1 is the literal `INV-<year>-0001`. */
  lemma FirstNumber(year: nat)
    ensures Format(year, 1) == Prefix(year) + "0001"
  {
    assert ToDecimal(1) == "1";
    assert Repeat(3, '0') == "000";
  }

  /** `SELECT invoice_number ... WHERE invoice_number LIKE 'prefix%' ORDER BY id
      DESC LIMIT 1`: the row with the highest id among those whose number
      starts with `prefix`. */
  function LatestMatch(rows: seq<Invoice>, prefix: string): (r: Option<Invoice>)
    ensures r.None? <==> forall x :: x in rows ==> !(prefix <= x.invoiceNumber)
    ensures r.Some? ==> r.value in rows && prefix <= r.value.invoiceNumber
    ensures r.Some? ==> forall x :: x in rows && prefix <= x.invoiceNumber ==> x.id <= r.value.id
  {
    if |rows| == 0 then None
    else
      var earlier := rows[..|rows| - 1];
      var last := rows[|rows| - 1];
      assert rows == earlier + [last];
      var best := LatestMatch(earlier, prefix);
      if !(prefix <= last.invoiceNumber) then best
      else if best.Some? && last.id < best.value.id then best
      else Some(last)
  }

  /** Why a preview cannot be produced: `parseInt` reads no number from the
      latest matching number's sequence token (the code would go on with `NaN`). */
  datatype NumberingError = UnreadableSequence(invoiceNumber: string)

  /** `getNextInvoiceNumber` for the given current year. */
  function NextInvoiceNumber(s: Store, year: nat): (r: Result<string, NumberingError>)
    ensures (forall x :: x in s.rows ==> !(Prefix(year) <= x.invoiceNumber)) ==>
      r == Success(Prefix(year) + "0001")
    ensures r.Success? ==> Prefix(year) <= r.value
  {
    var prefix := Prefix(year);
    match LatestMatch(s.rows, prefix)
    case None => Success(prefix + "0001")
    case Some(last) =>
      match SequenceOf(last.invoiceNumber)
      case None => Failure(UnreadableSequence(last.invoiceNumber))
      case Some(n) => Success(prefix + PadStart(ToDecimal(n + 1), SequenceWidth, '0'))
  }

  /** `x` is the row the preview's query returns: a number of the year whose
      id is the highest among the year's numbers. */
  predicate IsLatest(s: Store, year: nat, x: Invoice) {
    && x in s.rows
    && Prefix(year) <= x.invoiceNumber
    && forall z :: z in s.rows && Prefix(year) <= z.invoiceNumber ==> z.id <= x.id
  }

  /** The preview is decided by the matching row with the highest id, whatever
      the sequences of the other matching rows are: one more than its sequence,
      or an error when its sequence cannot be read. */
  lemma NextFollowsHighestId(s: Store, year: nat, x: Invoice)
    requires Valid(s)
    requires IsLatest(s, year, x)
    ensures SequenceOf(x.invoiceNumber).Some? ==>
      NextInvoiceNumber(s, year) == Success(Format(year, SequenceOf(x.invoiceNumber).value + 1))
    ensures SequenceOf(x.invoiceNumber).None? ==>
      NextInvoiceNumber(s, year) == Failure(UnreadableSequence(x.invoiceNumber))
  {
    var best := LatestMatch(s.rows, Prefix(year)).value;
    SameIdSameRow(s, x, best);
  }

  /** When the newest number of the year is written `INV-<year>-0x10`, the
      preview is `INV-<year>-0017`: one past sixteen, not past ten. */
  lemma HexSequencePreview(s: Store, year: nat, x: Invoice)
    requires Valid(s)
    requires IsLatest(s, year, x)
    requires x.invoiceNumber == Prefix(year) + "0x10"
    ensures NextInvoiceNumber(s, year) == Success(Prefix(year) + "0017")
  {
    HexSequenceReadInBase16(year);
    NextFollowsHighestId(s, year, x);
    SeventeenthNumber(year);
  }

  /** The number for sequence 17 is the literal `INV-<year>-0017`. */
  lemma SeventeenthNumber(year: nat)
    ensures Format(year, 17) == Prefix(year) + "0017"
  {
    assert ToDecimal(17) == "17";
    assert Repeat(2, '0') == "00";
  }

  /** Every preview is a well-formed number of the year with a sequence of at least 1. */
  lemma NextIsFormatted(s: Store, year: nat)
    ensures var r := NextInvoiceNumber(s, year);
      r.Success? ==>
        && SequenceOf(r.value).Some?
        && 1 <= SequenceOf(r.value).value
        && r.value == Format(year, SequenceOf(r.value).value)
  {
    var r := NextInvoiceNumber(s, year);
    match LatestMatch(s.rows, Prefix(year))
    case None =>
      FirstNumber(year);
      FormatRoundTrip(year, 1);
    case Some(last) =>
      if SequenceOf(last.invoiceNumber).Some? {
        FormatRoundTrip(year, SequenceOf(last.invoiceNumber).value + 1);
      }
  }

  /** Saving the number with sequence `k` moves the next preview to `k + 1`:
      the saved row has the highest id of all. */
  lemma SavingNumberAdvancesPreview(s: Store, year: nat, k: nat, inv: Submission, now: Timestamp)
    requires Valid(s)
    requires inv.invoiceNumber == Format(year, k)
    requires Save(s, inv, now).Success?
    ensures NextInvoiceNumber(Save(s, inv, now).value.store, year) == Success(Format(year, k + 1))
  {
    var saved := Save(s, inv, now).value;
    var s' := saved.store;
    var row := s'.rows[|s.rows|];
    FormatRoundTrip(year, k);
    assert row.invoiceNumber == Format(year, k);
    assert SequenceOf(row.invoiceNumber) == Some(k);
    assert row in s'.rows;
    forall z | z in s'.rows && Prefix(year) <= z.invoiceNumber
      ensures z.id <= row.id
    {
      if z != row {
        assert z in s'.rows[..|s.rows|] + [row];
      }
    }
    NextFollowsHighestId(s', year, row);
  }

  /** The sequence of a number, 0 where it cannot be read. */
  function SequenceNumber(invoiceNumber: string): nat {
    SequenceOf(invoiceNumber).GetOr(0)
  }

  /** Every number of `year` in the table is well formed, and sequences grow
      with ids: what a table built only by saving previews looks like. */
  predicate WellNumbered(s: Store, year: nat) {
    && (forall x :: x in s.rows && Prefix(year) <= x.invoiceNumber ==>
          x.invoiceNumber == Format(year, SequenceNumber(x.invoiceNumber)))
    && (forall a, b ::
          (a in s.rows && b in s.rows && Prefix(year) <= a.invoiceNumber
           && Prefix(year) <= b.invoiceNumber && a.id < b.id)
          ==> SequenceNumber(a.invoiceNumber) < SequenceNumber(b.invoiceNumber))
  }

  /** In a well-numbered table, the matching row with the highest id also has
      the highest sequence. */
  lemma LatestHasHighestSequence(s: Store, year: nat, last: Invoice, x: Invoice)
    requires Valid(s) && WellNumbered(s, year)
    requires IsLatest(s, year, last)
    requires x in s.rows && Prefix(year) <= x.invoiceNumber
    ensures SequenceNumber(x.invoiceNumber) <= SequenceNumber(last.invoiceNumber)
  {
    if x.id == last.id {
      SameIdSameRow(s, x, last);
    }
  }

  /** In a well-numbered table with a row of `year`, the preview is the number
      after the latest row's sequence. */
  lemma NextInWellNumbered(s: Store, year: nat, last: Invoice)
    requires Valid(s) && WellNumbered(s, year)
    requires IsLatest(s, year, last)
    ensures NextInvoiceNumber(s, year) == Success(Format(year, SequenceNumber(last.invoiceNumber) + 1))
  {
    var n := SequenceNumber(last.invoiceNumber);
    assert last.invoiceNumber == Format(year, n);
    FormatRoundTrip(year, n);
    NextFollowsHighestId(s, year, last);
  }

  /** A row whose number is not `Format(year, k)`: either it is of another year,
      or, in a well-numbered table, its sequence is not `k`. */
  lemma NotFormatOf(s: Store, year: nat, x: Invoice, k: nat)
    requires WellNumbered(s, year)
    requires x in s.rows
    requires Prefix(year) <= x.invoiceNumber ==> SequenceNumber(x.invoiceNumber) != k
    ensures x.invoiceNumber != Format(year, k)
  {
    FormatRoundTrip(year, k);
    if Prefix(year) <= x.invoiceNumber && x.invoiceNumber == Format(year, k) {
      FormatInjective(year, SequenceNumber(x.invoiceNumber), k);
    }
  }

  /** In a well-numbered table the preview is a number no row has yet. */
  lemma PreviewIsFresh(s: Store, year: nat)
    requires Valid(s) && WellNumbered(s, year)
    ensures NextInvoiceNumber(s, year).Success?
    ensures !HasNumber(s, NextInvoiceNumber(s, year).value)
  {
    match LatestMatch(s.rows, Prefix(year))
    case None =>
      FirstNumber(year);
      FormatRoundTrip(year, 1);
    case Some(last) =>
      NextInWellNumbered(s, year, last);
      NextIsFreshAfterLatest(s, year, last);
  }

  /** No row of a well-numbered table carries the number after the latest one. */
  lemma NextIsFreshAfterLatest(s: Store, year: nat, last: Invoice)
    requires Valid(s) && WellNumbered(s, year)
    requires IsLatest(s, year, last)
    ensures !HasNumber(s, Format(year, SequenceNumber(last.invoiceNumber) + 1))
  {
    forall x | x in s.rows
      ensures x.invoiceNumber != Format(year, SequenceNumber(last.invoiceNumber) + 1)
    {
      RowIsNotNext(s, year, last, x);
    }
  }

  /** One row at a time: its number differs from the number after the latest one. */
  lemma RowIsNotNext(s: Store, year: nat, last: Invoice, x: Invoice)
    requires Valid(s) && WellNumbered(s, year)
    requires IsLatest(s, year, last)
    requires x in s.rows
    ensures x.invoiceNumber != Format(year, SequenceNumber(last.invoiceNumber) + 1)
  {
    if Prefix(year) <= x.invoiceNumber {
      LatestHasHighestSequence(s, year, last, x);
    }
    NotFormatOf(s, year, x, SequenceNumber(last.invoiceNumber) + 1);
  }

  /** Appending a row of `year` whose id and sequence both exceed every
      existing one keeps a table well numbered. */
  lemma WellNumberedAppend(s: Store, year: nat, row: Invoice, nextId: nat)
    requires WellNumbered(s, year)
    requires Prefix(year) <= row.invoiceNumber
    requires row.invoiceNumber == Format(year, SequenceNumber(row.invoiceNumber))
    requires forall x :: x in s.rows ==> x.id < row.id
    requires forall x :: x in s.rows && Prefix(year) <= x.invoiceNumber ==>
      SequenceNumber(x.invoiceNumber) < SequenceNumber(row.invoiceNumber)
    ensures WellNumbered(Store(s.rows + [row], nextId), year)
  {
    var rows := s.rows + [row];
    assert forall x :: x in rows <==> x in s.rows || x == row;
  }

  /** Every row of `year` in a well-numbered table has a smaller sequence
      than the preview, which is the number after the latest row's. */
  lemma PreviewExceedsEverySequence(s: Store, year: nat, last: Invoice, x: Invoice)
    requires Valid(s) && WellNumbered(s, year)
    requires IsLatest(s, year, last)
    requires x in s.rows && Prefix(year) <= x.invoiceNumber
    ensures NextInvoiceNumber(s, year) == Success(Format(year, SequenceNumber(last.invoiceNumber) + 1))
    ensures SequenceNumber(x.invoiceNumber) < SequenceNumber(Format(year, SequenceNumber(last.invoiceNumber) + 1))
  {
    LatestHasHighestSequence(s, year, last, x);
    NextInWellNumbered(s, year, last);
    FormatRoundTrip(year, SequenceNumber(last.invoiceNumber) + 1);
  }

  /** Saving the preview into a well-numbered table succeeds and keeps it well numbered. */
  lemma SavingPreviewKeepsWellNumbered(s: Store, year: nat, inv: Submission, now: Timestamp)
    requires Valid(s) && WellNumbered(s, year)
    requires NextInvoiceNumber(s, year) == Success(inv.invoiceNumber)
    ensures Save(s, inv, now).Success?
    ensures WellNumbered(Save(s, inv, now).value.store, year)
  {
    PreviewIsFresh(s, year);
    var saved := Save(s, inv, now).value;
    var row := saved.store.rows[|s.rows|];
    assert saved.store == Store(s.rows + [row], saved.store.nextId);
    assert row.invoiceNumber == inv.invoiceNumber;
    assert row.invoiceNumber == Format(year, SequenceNumber(row.invoiceNumber)) by {
      NextIsFormatted(s, year);
    }
    forall x | x in s.rows && Prefix(year) <= x.invoiceNumber
      ensures SequenceNumber(x.invoiceNumber) < SequenceNumber(row.invoiceNumber)
    {
      var last := LatestMatch(s.rows, Prefix(year)).value;
      PreviewExceedsEverySequence(s, year, last, x);
    }
    WellNumberedAppend(s, year, row, saved.store.nextId);
  }

  /** The preview follows the highest id, not the highest sequence: once
      sequence 2 and then sequence 1 have been saved, the preview offers
      sequence 2 again, and saving it is rejected as a duplicate. */
  lemma PreviewCanRepeatAnExistingNumber(year: nat, a: Submission, b: Submission, c: Submission, t: Timestamp)
    requires a.invoiceNumber == Format(year, 2)
    requires b.invoiceNumber == Format(year, 1)
    requires c.invoiceNumber == Format(year, 2)
    ensures Save(EmptyStore(), a, t).Success?
    ensures var s1 := Save(EmptyStore(), a, t).value.store;
      && Save(s1, b, t).Success?
      && NextInvoiceNumber(Save(s1, b, t).value.store, year) == Success(c.invoiceNumber)
      && Save(Save(s1, b, t).value.store, c, t) == Failure(DuplicateInvoiceNumber(c.invoiceNumber))
  {
    var first := ToRow(a, 1, t);
    SaveIntoEmpty(a, t);
    var second := SaveOlderSequence(year, first, b, t);
    var s2 := Store([first, second], 3);
    assert Save(s2, c, t) == Failure(DuplicateInvoiceNumber(c.invoiceNumber)) by {
      assert first in s2.rows;
    }
  }

  /** The first save into an empty table stores one row under id 1. */
  lemma SaveIntoEmpty(a: Submission, t: Timestamp)
    ensures Save(EmptyStore(), a, t) == Success(Saved(Store([ToRow(a, 1, t)], 2), 1))
    ensures Valid(Store([ToRow(a, 1, t)], 2))
  {
    assert Valid(EmptyStore());
  }

  /** Over a table holding sequence 2 alone, saving sequence 1 succeeds and the
      preview then offers sequence 2, since the new row has the higher id. */
  lemma SaveOlderSequence(year: nat, first: Invoice, b: Submission, t: Timestamp) returns (second: Invoice)
    requires Valid(Store([first], 2))
    requires first.invoiceNumber == Format(year, 2)
    requires b.invoiceNumber == Format(year, 1)
    ensures second == ToRow(b, 2, t)
    ensures Save(Store([first], 2), b, t) == Success(Saved(Store([first, second], 3), 2))
    ensures NextInvoiceNumber(Store([first, second], 3), year) == Success(Format(year, 2))
  {
    var s1 := Store([first], 2);
    second := ToRow(b, 2, t);
    assert b.invoiceNumber != first.invoiceNumber by {
      FormatRoundTrip(year, 2);
      FormatRoundTrip(year, 1);
    }
    assert !HasNumber(s1, b.invoiceNumber);
    assert Save(s1, b, t).value.store.rows == [first, second];
    SavingNumberAdvancesPreview(s1, year, 1, b, t);
  }
}
