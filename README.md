# Debt book ledger engine

A Dafny model of the ledger engine of the debt book web application
(`assets/js/script.js`). The application keeps a list of persons and a list of
directional transactions. Each transaction has a kind: lent to them, repaid to me,
borrowed from them or repaid by me. From these lists it derives:

- per-person balances;
- a filtered, date-ordered statement for the selected person;
- the summary totals;
- four dashboard aggregates: the monthly net and count series, the largest
  balances, the totals by kind, and the aging of due dates.

The model takes the engine out of its page-script closure and states and proves
what each piece computes.

Modules, one per part of the engine:

- `Wrappers`: `Option`. A JavaScript `null`, `undefined` or `''` field is `None`.
- `Seqs`: the `filter`, `reduce`, `findIndex` and `splice` the engine uses, and
  the facts about them.
- `Sorting`: `Array.prototype.sort` with a comparator on one key. ECMA-262
  requires this sort to be stable. It is modelled as a stable insertion sort and
  proved to be a permutation, ordered and stable.
- `Dates`: `YYYY-MM-DD` dates and their text order. It also holds the time value
  that `new Date(text)` gives (midnight UTC, following the Date chapter of
  ECMA-262), months, and the dashboard's `YYYY-MM` labels.
- `Text`: the HTML escape `esc`, the quoting of CSV text fields, and
  `String.prototype.trim`.
- `Entities`: persons, transactions and the kind of a transaction. An unknown
  `type` text is kept as `Other(text)`.
- `Balance`: `signedAmount` and the totals of the summary panel.
- `Query`: `personById`, `txForPerson`, `balanceForPerson`, `applyFilter`, the
  statement's rows and its overdue marker.
- `Dashboard`: `monthsBackLabels`, `bucketMonth`, `computeMonthlySeries`,
  `topBalances`, `byType` and `agingBuckets`.
- `LedgerState`: the `Ledger` class. It holds the `model` and `ui` state as
  sequence and option fields. Its methods are the handlers that change that state:
  `addPerson`, selecting a person, `addTx`, `delTx`, the date filter buttons and
  the JSON import.

Amounts are whole minor units (øre) held in `int`. A date is a `(year, month, day)`
triple.

`txForPerson` orders by the text of the date (`localeCompare`). `applyFilter`,
the overdue marker and `agingBuckets` compare `Date` time values. `Dates.JsLessIsBefore`
proves that the two orders agree on valid dates. A text that does not name a real
day is an Invalid Date (NaN): every `<` comparison with it is false.

The following are parameters of the model:

- "now", as integer milliseconds;
- the current month;
- today's date;
- the fresh `uid()`;
- the answer to a confirmation dialog;
- the values read from the form.

Where the code's behaviour is surprising, the model follows the code:

- An unknown transaction kind gives a signed amount of 0 (`Balance.SignedAmount`).
  In a statement row it is labelled like `repay_by_me` (`Query.BadgeLabels`). It is
  not rejected.
- `agingBuckets` counts every transaction whose due date has passed, whatever its
  kind. The statement's overdue marker only counts loans. Repayments with a past
  due date are therefore aged (`Dashboard.AgingCountsRepayments`).
- A due date of today is already past once midnight UTC has passed, so it ages
  into the 0–7 bucket (`Dashboard.AgingDueToday`).
- An invalid due date passes every NaN comparison and is aged into the 60+ bucket
  (`Dashboard.AgingIndex`).
- `delTx` removes only the first transaction with the id (`findIndex` followed by
  `splice`).
- The import replaces the whole ledger and keeps the date filter.
- `applyFilter` keeps a transaction whose date is not a real day (such as
  `2024-02-30`) whatever the bounds: its Invalid Date is truthy and fails both NaN
  comparisons. A bound that is not a real day filters nothing
  (`Query.ApplyFilterGeneral`, `Query.ApplyFilterKeepsInvalidDates`).

## Model

| member | source | states |
|---|---|---|
| `Entities.ParseKind` | assets/js/script.js:138 | the stored `type` text maps to a kind whose text is that same text; only texts other than the four known ones become `Other` |
| `Balance.SignedAmount` | assets/js/script.js:125-134 | `lent`/`repay_by_me` give +\|amount\|, `repay_to_me`/`borrowed` give −\|amount\|, any other type gives 0 |
| `Balance.SignedAmountIgnoresInputSign` | assets/js/script.js:126 | the magnitude is taken first, so a pre-signed amount gives the same signed value |
| `Balance.SettlementCancels` | assets/js/script.js:127-131 | a repayment of the same amount cancels a loan or a borrowing |
| `Balance.Summary` | assets/js/script.js:167-169 | `pos ≥ 0`, `neg ≤ 0`, `net = pos + neg`, and `net` is the sum of every `signed` |
| `Query.PersonById` | assets/js/script.js:84 | the first person with that id, none when no person has it or nothing is selected |
| `Query.TxForPersonMembers` | assets/js/script.js:85 | `TxForPerson(txs, id)`, the model of `txForPerson(id)`, is a permutation of exactly the transactions with `pid == id` |
| `Query.TxForPersonOrdered` | assets/js/script.js:85 | the dates never increase along `TxForPerson(txs, id)`, and undated transactions come last |
| `Query.TxForPersonStable` | assets/js/script.js:85 | in `TxForPerson(txs, id)`, transactions with equal dates keep their ledger (insertion) order |
| `Sorting.SortDescSorted` | assets/js/script.js:85 | the stable sort orders by the key, greatest first |
| `Sorting.SortDescStable` | assets/js/script.js:85 | the sort keeps the order of the elements that share a key |
| `Query.BalanceIsSumOfOwn` | assets/js/script.js:86 | `BalanceForPerson(txs, id)`, the model of `balanceForPerson(id)`, is the sum of `signed` over that person's transactions, in any order |
| `Query.BalanceScenario` | assets/js/script.js:86 | `BalanceForPerson`: lending 500 gives +500; a repayment of 200 then gives +300 |
| `Query.BalanceAfterAppend` | assets/js/script.js:86 | appending a transaction moves its own person's balance by its `signed` value and no other balance |
| `Query.BalanceAfterRemove` | assets/js/script.js:86 | removing a transaction moves its own person's balance back by its `signed` value and no other balance |
| `Query.NetIsSumOfBalances` | assets/js/script.js:167 | when each transaction's `pid` names exactly one person, the net total is the sum of all persons' balances |
| `Dates.TimeValueOrder` | assets/js/script.js:155-161 | on valid dates, comparing time values is comparing `YYYY-MM-DD` texts, and equal time values mean equal dates |
| `Dates.JsLessIsBefore` | assets/js/script.js:159-160 | `new Date(a) < new Date(b)` holds exactly when `a` comes before `b` as a date |
| `Query.ApplyFilterSpec` | assets/js/script.js:154-164 | on real dates and bounds, `ApplyFilter`, the model of `applyFilter`, keeps exactly the dated transactions with `from ≤ date ≤ to` (each bound inclusive and optional), in input order |
| `Query.ApplyFilterGeneral` | assets/js/script.js:154-164 | `ApplyFilter` on any input keeps exactly the dated transactions whose date is not a real day or lies within the real bounds, a bound that is not a real day being ignored |
| `Query.ApplyFilterKeepsInvalidDates` | assets/js/script.js:157-161 | a transaction dated 2024-02-30 passes the bounds 2025-01-01 to 2025-01-31 |
| `Query.ApplyFilterIdempotent` | assets/js/script.js:154-164 | `ApplyFilter` with the same bounds twice is `ApplyFilter` once, on any input |
| `Query.StatementSpec` | assets/js/script.js:197-205 | `StatementRows`: a dangling selection shows no rows; without bounds the rows sum to the balance; the rows are an ordered selection of that person's transactions |
| `Query.RepaymentsNeverOverdue` | assets/js/script.js:212 | `IsOverdue`, the row's overdue marker, is false for repayments and unknown kinds |
| `Query.BadgeLabels` | assets/js/script.js:208-211 | the four kinds have four distinct labels; an unknown kind gets the `repay_by_me` label |
| `Text.Escape` | assets/js/script.js:19 | the escaped text contains no `<`, `>`, `"` or `'` |
| `Text.UnescapeEscape` | assets/js/script.js:19 | decoding the five entities gives back the original text, so each character maps to its own entity and others are unchanged |
| `Text.EscapePlain` | assets/js/script.js:19 | text without `& < > " '` is left unchanged |
| `Text.EscapeAppend` | assets/js/script.js:19 | escaping distributes over concatenation, character by character |
| `Text.EscNull` | assets/js/script.js:19 | `Esc`, the model of `esc`, maps `null` to the empty string |
| `Text.CsvQuote` | assets/js/script.js:448 | a CSV text field begins and ends with a quote |
| `Text.CsvQuoteRoundTrip` | assets/js/script.js:448 | reading the quoted field back under the RFC 4180 rules gives the original text, whatever delimiter follows it |
| `Text.TrimEmpty` | assets/js/script.js:90-91 | `Trim`, the model of `trim()`: a name trims to nothing exactly when it is all whitespace |
| `Text.TrimIdempotent` | assets/js/script.js:90 | `Trim` of a trimmed name changes nothing |
| `Dashboard.MonthsBackLabels` | assets/js/script.js:392 | `n` distinct consecutive months, oldest first, the last one the current month, across year boundaries |
| `Dashboard.MonthsBackRollover` | assets/js/script.js:392 | in February 2025 the window runs from 2024-03 through 2024-12 and 2025-01, labelled `2024-03` … `2025-02` |
| `Dates.MonthLabelInjective` | assets/js/script.js:392-394 | two `YYYY-MM` labels are equal exactly when their months are equal |
| `Dashboard.BucketMonth` | assets/js/script.js:393 | the month of a valid date; none for a missing or invalid one |
| `Dashboard.IndexOfMonth` | assets/js/script.js:394 | `labels.indexOf(month)`: an index whose label is that month, or −1 when none is |
| `Dashboard.ComputeMonthlySeries` | assets/js/script.js:394 | twelve months ending at the current one; `count[i]` is the number of transactions dated in month i and `net[i]` their `signed` sum |
| `Dashboard.SeriesSpec` | assets/js/script.js:394 | the loop's accumulated buckets are the count and `signed` sum of each month's transactions |
| `Dashboard.MonthlyWindow` | assets/js/script.js:394 | the buckets together hold exactly the transactions dated inside the window: none outside it, none twice |
| `Dashboard.ExposuresRows` | assets/js/script.js:395 | one `{name, bal}` row per person, in `people` order, `bal` being the person's balance |
| `Dashboard.TopBalancesRanked` | assets/js/script.js:395 | `TopBalances(people, txs, n)`, the model of `topBalances(n)`, has `min(n, \|people\|)` rows: the first rows of a permutation of all balances ordered by non-increasing \|bal\| |
| `Dashboard.TopBalancesTies` | assets/js/script.js:395 | balances of equal magnitude keep their `people` order |
| `Dashboard.TopBalancesExample` | assets/js/script.js:395 | balances +500, −700, +10 with `n = 2` give −700, then +500 |
| `Dashboard.KindTotal` | assets/js/script.js:396 | a kind's total is non-negative |
| `Dashboard.ByType` | assets/js/script.js:396 | the labels of the chart, and four non-negative totals in the order lent, repaid to me, borrowed, repaid by me, each the \|amount\| sum of that kind |
| `Dashboard.ByTypeGivesNet` | assets/js/script.js:396 | when every `signed` agrees with its kind and amount, lent − repaid to me − borrowed + repaid by me is the summary's net |
| `LedgerState.Ledger.KindTotalsGiveNet` | assets/js/script.js:396 | on a ledger whose every `signed` agrees with its kind and amount, as the handlers keep it, the totals by kind give back the summary's net |
| `Dashboard.AgingIndex` | assets/js/script.js:397 | a transaction falls in at most one of the four buckets |
| `Dashboard.AgingBuckets` | assets/js/script.js:397 | the four labels, and for each bucket the \|signed\| sum of the transactions in it |
| `Dashboard.AgingDataSpec` | assets/js/script.js:397 | the loop's accumulated totals are the \|signed\| sums of each bucket |
| `Dashboard.AgingContributes` | assets/js/script.js:397 | a transaction is aged exactly when it has a due date before `now`, whatever its kind |
| `Dashboard.AgingBucketBounds` | assets/js/script.js:397 | the bucket is chosen by whole days overdue: 0–7, 8–30, 31–60, over 60 |
| `Dashboard.AgingDueToday` | assets/js/script.js:397 | a due date of today is already in the 0–7 bucket after midnight UTC |
| `Dashboard.AgingTotals` | assets/js/script.js:397 | the four totals add up to the \|signed\| sum of all aged transactions |
| `Dashboard.OverdueIsAged` | assets/js/script.js:212 | every row the statement marks overdue is aged by the dashboard |
| `Dashboard.AgingCountsRepayments` | assets/js/script.js:397 | a repayment with a past due date is aged but never marked overdue |
| `Dashboard.AgingExample` | assets/js/script.js:397 | a borrowing due 2024-01-01, looked at on 2024-02-15, is 45 days overdue: overdue, in bucket 31–60 |
| `LedgerState.NormalizeSelection` | assets/js/script.js:462 | `selectedId \|\| null`: an empty or missing id selects nobody |
| `LedgerState.RemovedBy` | assets/js/script.js:147 | the first transaction with the id, none exactly when no transaction has it |
| `LedgerState.DeleteTxSpec` | assets/js/script.js:146-149 | `DeleteTx`, the model of `delTx`'s splice: an absent id changes nothing; otherwise exactly the first transaction with the id leaves, and only its person's balance changes |
| `LedgerState.DeleteTxRemovesAll` | assets/js/script.js:147-148 | with unique ids, `DeleteTx` keeps every other transaction, in order |
| `LedgerState.UnusedIdHasZeroBalance` | assets/js/script.js:86 | a person no transaction points to, such as a new one, has balance 0 |
| `LedgerState.Ledger.constructor` | assets/js/script.js:59-60 | empty people and transactions, no selection, no date bounds |
| `LedgerState.Ledger.AddPerson` | assets/js/script.js:89-93 | a blank trimmed name is refused with nothing changed; otherwise one trimmed person is appended and selected |
| `LedgerState.Ledger.SelectPerson` | assets/js/script.js:117 | the clicked person becomes the selection and nothing else changes |
| `LedgerState.Ledger.AddTx` | assets/js/script.js:135-140 | no selection or an amount that is not > 0 is refused with nothing changed; otherwise exactly one transaction is appended, with `signed = signedAmount(type, amount)`, and only the selected person's balance changes |
| `LedgerState.Ledger.DelTx` | assets/js/script.js:146-149 | only the first transaction with the id leaves, the rest keep their order; an absent id or a declined confirmation changes nothing |
| `LedgerState.Ledger.SetFilter` | assets/js/script.js:257-260 | the bounds become the two fields; the ledger is unchanged |
| `LedgerState.Ledger.ClearFilter` | assets/js/script.js:262-264 | both bounds are removed and the statement shows all of that person's transactions |
| `LedgerState.Ledger.Import` | assets/js/script.js:460-462 | a payload whose `people` or `tx` is not an array is refused with nothing changed; otherwise the whole model is replaced |

## Left out

- Rendering and event wiring are not modelled: the people list, statement and
  report HTML, tabs, theme, charts and `makeOrUpdate`. They only display the
  engine's results.
- SweetAlert2 toasts and dialogs are not modelled. The answer to a confirmation is
  a parameter.
- PDF and printing (`printSelected`, `showPersonInfo`, html2pdf, `window.print`)
  are foreign calls and are left out.
- Storage (`load`, `save`, `loadUI`, `saveUI`) is I/O and is left out. So are the
  JSON and CSV downloads, and reading and parsing the import file. The import
  receives an already-parsed value.
- The items of an imported `people` or `tx` array are taken as person and
  transaction records. Array items of any other JSON shape are not modelled.
- `uid()`, `todayISO()` and `new Date()` depend on the clock and on randomness.
  They are parameters.
- `fmt` is locale currency formatting of floats and is left out.
- `fileSafe` relies on Unicode property classes and is left out.
- The name search and the Danish collation sort of the people list are
  locale-dependent and are left out.
- Amounts are integers in minor units. Floating-point rounding of JavaScript
  `Number` amounts is not modelled.
- `Dashboard.BucketMonth` takes the month of the date as written. The mix of
  UTC parsing and local-time `getMonth` is not modelled.
- `Dashboard.MonthsBackLabels` takes the current month as a parameter and works
  with month values. `Dates.MonthLabel` gives the label text. The `Date`
  constructor's rule that maps years 0–99 to 1900–1999 is not modelled.
- `Dates.JsTime` treats a text that does not name a real day (such as
  `2024-02-30`) as an Invalid Date. Some engines roll such a day over into the next
  month instead.
- `LedgerState.Ledger.DelTx` looks up the index and splices in one step. It does
  not model a change to the ledger while the confirmation dialog is open.
- `LedgerState.Ledger.Import`: imported transaction kinds are assumed canonical.
  The import does not check them, so a record such as `Other("lent")` could enter
  the model, and the model would treat it as an unknown kind. The source reads the
  text `lent` as a loan. No handler produces such a record (`Entities.ParseKind`
  never does).
- The CSV export row (joining the columns with commas) is not modelled; only the
  quoting of its text fields is.
