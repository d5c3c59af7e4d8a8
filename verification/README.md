# Invoice store: a Dafny model

This project models the storage core of a small invoice-submission web
application. The core is a single SQLite table `invoices`. Its operations:

- preview the next invoice number `INV-<year>-<sequence>`;
- save a submitted invoice;
- look an invoice up by its number;
- list invoices newest first, either all of them with LIMIT/OFFSET or filtered by contractor e-mail or by company key;
- update an invoice's status;
- compute summary statistics.

It also models the `GET /api/invoices/by-company` handler, which reports one company's invoices with their count and total.

The table is a value, `Store(rows, nextId)`: the rows in rowid order, plus the id that AUTOINCREMENT hands out next. Every operation is a pure function of the table. What the program reads from outside becomes a parameter:

- the wall clock is the `now` timestamp of a save, and the current year and month for the preview and the statistics;
- the request's `company` query parameter is an `Option<string>`.

SQLite's behaviour is written out explicitly:

- The UNIQUE invoice number makes an insert fail. The statement is rolled back, so the table and its counter stay as they were.
- AUTOINCREMENT ids start at 1 and only grow.
- `status` defaults to `submitted`.
- The insert writes an empty optional text as NULL.
- `created_at` is the insert's timestamp. It is kept as its `YYYY-MM-DD HH:MM:SS` fields, and ordered as the text is ordered.
- `LIMIT -1` means no limit, and a negative OFFSET counts as 0.
- `SUM` over no rows is turned into 0.

Modules:

- `Wrappers`: `Option` and `Result`.
- `Decimal`: the JavaScript `toString`, `padStart` and `parseInt` that numbering uses.
- `Invoices`: the row and submission records, `WHERE` filtering, and `SUM(total)`.
- `InvoiceStore`: the table, insert, lookup and status update.
- `Ordering`: a generic descending insertion sort.
- `Listings`: the three listings.
- `Numbering`: the preview of the next invoice number.
- `InvoiceStats`: the statistics.
- `ByCompanyApi`: the HTTP handler.

One might expect the preview to follow the *highest sequence* of the year. The code instead takes the matching row with the *highest id* (`ORDER BY id DESC LIMIT 1`), and the model follows the code:

- `Numbering.NextFollowsHighestId` states the rule as written.
- `Numbering.PreviewCanRepeatAnExistingNumber` shows the consequence. Save sequence 2, then sequence 1; the preview then offers sequence 2 again, and saving that number is rejected as a duplicate.
- `Numbering.PreviewIsFresh` and `Numbering.SavingPreviewKeepsWellNumbered` prove that the preview is a fresh number under one condition: every row of the year is in canonical form, and sequences grow with ids. That condition is `Numbering.WellNumbered`, and saving each preview keeps it true.

## Model

| member | source | states |
|---|---|---|
| Decimal.ToDecimal | src/lib/db.ts:81 | `toString()` of a sequence number is a non-empty run of decimal digits with no leading zero |
| Decimal.ParseToDecimal | src/lib/db.ts:80-81 | reading back the digits `toString()` writes gives the same number |
| Decimal.ToDecimalInjective | src/lib/db.ts:81 | two different numbers never render as the same digits |
| Decimal.PadStart | src/lib/db.ts:81 | `padStart(width, '0')` has length max(width, length of input), ends with the input, and every character in front is the fill character |
| Decimal.LeadingZerosIgnored | src/lib/db.ts:80 | zeros in front of a digit string do not change the value `parseInt` reads |
| Decimal.ZerosReadAsZero | src/lib/db.ts:80 | a run of zeros reads as 0 |
| Decimal.ZeroPaddedRoundTrip | src/lib/db.ts:80-81 | a zero-padded rendering of `n` is all digits and reads back as `n` |
| Decimal.LeadingDigits | src/lib/db.ts:80 | the digits `parseInt` consumes: a prefix of the text, all digits, and followed by a non-digit or the end |
| Decimal.LeadingHexDigits | src/lib/db.ts:80 | the hexadecimal digits `parseInt` consumes after a `0x` prefix: a prefix of the text, all hexadecimal digits, and followed by a non-hexadecimal character or the end |
| Decimal.ParseInt | src/lib/db.ts:80 | `parseInt` without a radix: after a `0x`/`0X` prefix it has no value exactly when no hexadecimal digit follows, and reads a hexadecimal string in base sixteen; otherwise it has no value exactly when the text is empty or starts with a non-digit, and reads a digit string as its decimal value |
| Decimal.HexPrefixExamples | src/lib/db.ts:80 | `"0x10"` reads as 16, `"0X1f"` as 31, `"0x"` and `"0xg"` as no number, and `"0010"` as 10 |
| Invoices.Where | src/lib/db.ts:133 | a `WHERE` filter keeps exactly the rows that satisfy the condition, and never more rows than it was given |
| Invoices.WhereCounts | src/lib/db.ts:133 | a `WHERE` filter keeps each row that satisfies the condition exactly as many times as the table holds it, and drops every other row |
| Invoices.TotalOfConcat | src/lib/db.ts:152 | `SUM(total)` over two groups of rows is the sum of the two sums |
| Invoices.TotalOfRemove | src/lib/db.ts:152 | taking one row out of a list takes its total out of the sum |
| Invoices.RemoveFromPermutation | src/pages/api/invoices/by-company.ts:20 | removing the same row from two reorderings of one list leaves reorderings of each other |
| Invoices.TotalOfPermutation | src/pages/api/invoices/by-company.ts:20 | the sum of totals does not depend on the order of the rows |
| Invoices.WhereAll | src/lib/db.ts:153-156 | a condition every row meets keeps every row, in order |
| Invoices.WhereAppend | src/lib/db.ts:133 | filtering a table with one more row filters the old rows and then keeps or drops the new one by the condition, so the kept rows stay in table order |
| InvoiceStore.SameIdSameRow | src/lib/db.ts:21 | in a valid table an id names exactly one row |
| InvoiceStore.NullIfEmpty | src/lib/db.ts:102-110 | the insert's null-coalescing of an optional text: NULL exactly when the value is absent or empty, and otherwise the value unchanged |
| InvoiceStore.StatusOrDefault | src/lib/db.ts:113 | the status fallback: never empty, a non-empty status kept, an absent or empty one replaced by `submitted` |
| InvoiceStore.ToRow | src/lib/db.ts:89-114 | the inserted row keeps every required column and the total, gives the store's id and timestamp instead of any caller-supplied ones, makes an optional column NULL exactly when it was absent or empty and otherwise stores the given value, and stores a non-empty status as given and `submitted` for an absent or empty one |
| InvoiceStore.Save | src/lib/db.ts:89-117 | the insert fails exactly when a row already has the invoice number, and then fails with that duplicate and changes nothing. Otherwise it appends one row, keeps every old row, returns the AUTOINCREMENT id (above every earlier id), and keeps the table valid |
| InvoiceStore.AppendKeepsValid | src/lib/db.ts:20-37 | appending a row with the next id, a fresh number and no empty optional column keeps ids increasing and below the counter, numbers unique, and NULLs normalized |
| InvoiceStore.FindByNumber | src/lib/db.ts:120-123 | the lookup returns a row of the table with that number, and returns nothing exactly when no row has it |
| InvoiceStore.FindsTheRow | src/lib/db.ts:120-123 | in a valid table, looking up any row's number returns that very row |
| InvoiceStore.SaveThenFind | src/lib/db.ts:89-123 | after a successful save, looking up the number returns the row that was stored |
| InvoiceStore.SecondSaveOfNumberRejected | src/lib/db.ts:22 | after one save of a number succeeds, a second save of the same number is rejected as a duplicate |
| InvoiceStore.UpdateStatus | src/lib/db.ts:144-147 | the update changes the status of the rows with that number and nothing else. It keeps the row count and the id counter, is a no-op when no row has the number, and keeps the table valid |
| InvoiceStore.UpdateThenFind | src/lib/db.ts:144-147 | after a status update, the lookup returns the same row as before with only its status replaced |
| Ordering.Insert | src/lib/db.ts:127 | inserting into a descending list adds exactly that element |
| Ordering.InsertAtMost | src/lib/db.ts:127 | inserting an element no larger than a bound into a list bounded by it keeps the list bounded |
| Ordering.ConsDescending | src/lib/db.ts:127 | a head no smaller than every key of a descending tail gives a descending list |
| Ordering.InsertKeepsOrder | src/lib/db.ts:127 | inserting into a descending list keeps it descending |
| Ordering.SortDescending | src/lib/db.ts:127 | the sort returns a descending reordering of exactly its input |
| Ordering.CutIsOrdered | src/lib/db.ts:127 | in a descending list, anything past a cut has a key no larger than anything before it |
| Ordering.WindowOfDescending | src/lib/db.ts:127 | every window of a descending list is descending and holds only members of the list |
| Ordering.WindowMultiset | src/lib/db.ts:127 | a window holds each element at most as often as the whole list |
| Listings.WindowStart | src/lib/db.ts:127 | OFFSET skips that many rows: none for a negative or zero offset, all of them for an offset past the end |
| Listings.WindowEnd | src/lib/db.ts:127 | a page runs to the end of the rows for a negative LIMIT or when fewer than LIMIT rows remain, and otherwise holds exactly LIMIT rows |
| Listings.AllInvoices | src/lib/db.ts:126-129 | the page is newest first, holds table rows each at most as often as stored, and has exactly the length the LIMIT/OFFSET window allows (at most LIMIT for a non-negative limit) |
| Listings.WholeListing | src/lib/db.ts:126-129 | with no limit and no offset the listing is every row of the table, each exactly as often as stored, newest first |
| Listings.PageOfWholeListing | src/lib/db.ts:126-129 | every page is the stretch of the whole newest-first listing that LIMIT and OFFSET select |
| Listings.DefaultPage | src/lib/db.ts:126 | with the default arguments (limit 100, offset 0) the listing is the first 100 rows of the whole listing, or all of them when there are fewer |
| Listings.FirstPageHoldsNewest | src/lib/db.ts:127 | any row left off the first page is no newer than every row on it |
| Listings.ConsecutivePages | src/lib/db.ts:126-129 | a page of `a` rows followed by the page of `b` rows from where it ended is the page of `a + b` rows |
| Listings.ByContractor | src/lib/db.ts:132-135 | the listing holds exactly the table's rows with that contractor e-mail, each as often as in the table, newest first |
| Listings.ByCompany | src/lib/db.ts:138-141 | the listing holds exactly the table's rows with that company key (a NULL key matches nothing), each as often as in the table, newest first |
| Listings.EmptyCompanyKeyListsNothing | src/lib/db.ts:104 | since the insert stores an empty company key as NULL, the listing for the empty key of a valid table is empty |
| Numbering.Split | src/lib/db.ts:80 | `split('-')` always yields at least one piece |
| Numbering.SplitWithoutSeparator | src/lib/db.ts:80 | a text without `-` splits into itself alone |
| Numbering.SplitAfterPiece | src/lib/db.ts:80 | a `-`-free piece followed by `-` becomes the first token, and the rest splits as before |
| Numbering.ThirdTokenAfterPrefix | src/lib/db.ts:69-80 | for any number starting with `INV-<year>-`, token 2 of the split is what follows the prefix up to the next `-` |
| Numbering.HexSequenceReadInBase16 | src/lib/db.ts:80 | a stored sequence written `0x10` counts as sequence 16 |
| Numbering.HexSequencePreview | src/lib/db.ts:71-82 | when the newest number of the year in a valid table is `INV-<year>-0x10`, the preview is `INV-<year>-0017` |
| Numbering.SeventeenthNumber | src/lib/db.ts:81-82 | the number for sequence 17 is the literal `INV-<year>-0017` |
| Numbering.FormatShape | src/lib/db.ts:81-82 | a written number is the year's prefix followed by at least four digits (more only when the sequence needs them) that read as the sequence |
| Numbering.FormatRoundTrip | src/lib/db.ts:80-82 | reading a written number back through split and `parseInt` gives the sequence it was written with |
| Numbering.FormatInjective | src/lib/db.ts:81-82 | different sequences give different numbers within a year |
| Numbering.FirstNumber | src/lib/db.ts:85 | the fallback `INV-<year>-0001` is the number for sequence 1 |
| Numbering.LatestMatch | src/lib/db.ts:71-77 | the query finds nothing exactly when no number starts with the prefix; otherwise it finds a matching row whose id is the highest among matching rows |
| Numbering.NextInvoiceNumber | src/lib/db.ts:67-86 | with no number of the year in the table the preview is `INV-<year>-0001`, and every preview starts with the year's prefix |
| Numbering.NextFollowsHighestId | src/lib/db.ts:75-82 | the preview is one more than the sequence of the matching row with the highest id, whatever the other rows hold, or an error when that sequence cannot be read |
| Numbering.NextIsFormatted | src/lib/db.ts:79-85 | every preview is the canonical number of the year for a sequence of at least 1 |
| Numbering.SavingNumberAdvancesPreview | src/lib/db.ts:75-82 | saving the number with sequence `k` makes the next preview sequence `k + 1` |
| Numbering.LatestHasHighestSequence | src/lib/db.ts:75 | in a well-numbered table, the matching row with the highest id also has the highest sequence |
| Numbering.NextInWellNumbered | src/lib/db.ts:79-82 | in a well-numbered table, the preview is the number after the latest row's sequence |
| Numbering.NotFormatOf | src/lib/db.ts:81-82 | a row of another year, or of the year with a different sequence, does not carry the number for sequence `k` |
| Numbering.PreviewIsFresh | src/lib/db.ts:67-86 | in a well-numbered table the preview succeeds and no row has that number yet |
| Numbering.NextIsFreshAfterLatest | src/lib/db.ts:79-82 | no row of a well-numbered table carries the number after the latest one |
| Numbering.RowIsNotNext | src/lib/db.ts:79-82 | each single row's number differs from the number after the latest one |
| Numbering.WellNumberedAppend | src/lib/db.ts:89-117 | appending a canonical row of the year whose id and sequence exceed all earlier ones keeps the table well numbered |
| Numbering.PreviewExceedsEverySequence | src/lib/db.ts:75-82 | in a well-numbered table, every row of the year has a smaller sequence than the preview |
| Numbering.SavingPreviewKeepsWellNumbered | src/lib/db.ts:67-117 | saving the preview into a well-numbered table succeeds and keeps it well numbered, so previewing then saving never collides |
| Numbering.PreviewCanRepeatAnExistingNumber | src/lib/db.ts:71-82 | after sequence 2 and then sequence 1 are saved, the preview offers sequence 2 again, and saving it is rejected as a duplicate |
| Numbering.SaveIntoEmpty | src/lib/db.ts:89-117 | the first save into a fresh table stores one row under id 1 and leaves the counter at 2 |
| Numbering.SaveOlderSequence | src/lib/db.ts:71-82 | over a table holding sequence 2 alone, saving sequence 1 succeeds under id 2, and the preview becomes sequence 2 |
| InvoiceStats.GetInvoiceStats | src/lib/db.ts:150-165 | the invoice count is the number of rows, the month's count never exceeds it, and an empty table gives all zeros, not NULL |
| InvoiceStats.AllInMonth | src/lib/db.ts:153-157 | when every invoice was created in the current month, the month's figures equal the overall figures |
| InvoiceStats.StatsAfterSave | src/lib/db.ts:150-165 | a successful save adds one invoice and its total to the overall figures, and to the month's figures exactly when it was saved in that month |
| InvoiceStats.AppendRow | src/lib/db.ts:152-157 | one more row adds its total to the sum, and joins the month's rows (and sum) exactly when created in that month |
| InvoiceStats.TotalsAgree | src/lib/db.ts:152 | two row lists with equal totals position by position have the same sum |
| InvoiceStats.MonthRowsAgree | src/lib/db.ts:156 | which rows count for the month depends only on their creation times |
| InvoiceStats.AgreeAppend | src/lib/db.ts:156 | agreement on totals and times survives appending two agreeing rows |
| InvoiceStats.StatsIgnoreStatusUpdate | src/lib/db.ts:144-165 | a status update leaves all four figures unchanged |
| InvoiceStats.TwoSavesThisMonth | src/lib/db.ts:150-165 | two invoices of 100.00 and 250.50 saved this month into an empty table give 2 invoices and 350.50, all in this month |
| ByCompanyApi.SumTotals | src/pages/api/invoices/by-company.ts:20 | the left-to-right `reduce` from `acc` is `acc` plus the sum of the totals |
| ByCompanyApi.GetByCompany | src/pages/api/invoices/by-company.ts:6-31 | the handler answers 400 with the error message exactly when the key is absent or empty. Otherwise it answers 200 with the key, the company's listing, its length as `count` and its sum as `totalAmount`; the listing holds exactly the table's rows with that key |
| ByCompanyApi.MissingKeyIgnoresStore | src/pages/api/invoices/by-company.ts:10-15 | a missing or empty key is refused the same way whatever the table holds |
| ByCompanyApi.ReportMatchesTable | src/pages/api/invoices/by-company.ts:17-21 | the reported count and amount are those of the company's rows in table order: sorting changes neither |
| ByCompanyApi.ReportAfterSave | src/pages/api/invoices/by-company.ts:17-28 | saving an invoice under the key adds one invoice and its total to that company's report, and leaves other keys' reports as they were |

## Left out

- The SQLite connection, the `data/` directory creation and the four indexes. These are I/O and performance, and change no result.
- `lineItems` is opaque JSON text, as the store treats it. Its structure is not modelled.
- `total` is a SQL REAL and a JavaScript number. The model keeps totals as integer cents, so floating-point rounding in sums is not modelled.
- Rows with equal `created_at` come back in an order SQLite does not define. The model sorts them by a fixed stable rule and states nothing about their relative order.
- `LIKE 'INV-<year>-%'` is case-insensitive for ASCII letters in SQLite. The model matches the prefix exactly. A number such as `inv-2025-0003` would match in SQLite but not in the model.
- Decimal.ParseInt: does not skip leading white space or a `+`/`-` sign as JavaScript's `parseInt` does, so such a token has no value in the model. Where `parseInt` gives `NaN`, the code would go on to preview `INV-<year>-0NaN`; the model reports `UnreadableSequence` instead. Precision loss above 2^53 is not modelled.
- Numbering.NextInvoiceNumber: the year is a parameter, not `new Date().getFullYear()`. Negative years are out of range.
- Listings.AllInvoices: limit and offset are integers. The query receives JavaScript numbers, and SQLite raises an error for a fractional LIMIT or OFFSET and for `NaN`, which is bound as NULL. That error is not modelled.
- InvoiceStore.Save: the 64-bit rowid limit and the conversion of `lastInsertRowid` to a JavaScript number are not modelled. Ids are unbounded naturals.
- InvoiceStats.GetInvoiceStats: the current year and month are parameters. `strftime('%Y-%m', 'now')` reads the UTC clock.
- The three statistics queries and the preview are not atomic with concurrent writes. The model is single-threaded, so the race between two submissions that preview the same number is not modelled.
- The handler's `catch` branch (HTTP 500 with `Failed to get invoices`): the model's store operations cannot throw, so this branch cannot arise in the model.
- Response headers and JSON serialization of the handler are not modelled; the response is a datatype.
- `submit-invoice.ts` and `next-invoice-number.ts` (the other HTTP handlers, with their validation and e-mail delivery) and `astro.config.mjs` are not part of this model.
