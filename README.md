# Pagination of the recent-transactions panel

This project models the client-side pagination of the banking dashboard's
recent-transactions panel (`RecentTransactions`). The panel receives the
transaction list and a page number as props. `transactions` defaults to an
empty list and `page` defaults to 1. It shows ten rows per page. The number
of pages is `Math.ceil(length / 10)`. The rows shown are
`transactions.slice(page * 10 - 10, page * 10)`.

Two modules model this:

- `JsBuiltins` (`js_builtins.dfy`) holds the two JavaScript built-ins the
  arithmetic uses. `Math.ceil` is modelled on exact reals (ECMA-262, section
  21.3.2.10). `Array.prototype.slice` is modelled with integer arguments,
  including its rule that a negative index counts back from the end and its
  clamping to the list's bounds (ECMA-262, 2023 edition, section 23.1.3.28).
- `Pagination` (`pagination.dfy`) holds the page size, the page count, the
  current page, the prop defaults, and the properties of the pages they
  produce.

One might expect an out-of-range page to be empty. The code gives that for
page 0 and for pages past the last. A negative page is not empty, because
`slice` reads its negative arguments from the end of the list. For example, page -1 of 15 rows shows rows 0 to 4. The
model follows the code (`NegativePageCountsFromEnd`, `NegativePageExample`).

## Model

| member | source | states |
|---|---|---|
| JsBuiltins.MathCeil | src/components/RecentTransactions.tsx:15 | `Math.ceil(x)` is an integer r with x <= r < x + 1 |
| JsBuiltins.MathCeilUnique | src/components/RecentTransactions.tsx:15 | any integer k with x <= k < x + 1 is `Math.ceil(x)`, so the ceiling is unique |
| JsBuiltins.ResolveIndex | src/components/RecentTransactions.tsx:18-21 | a slice argument resolves to an index in [0, length]: a non-negative one is cut to the length, a negative one counts back from the end and is cut at 0 |
| JsBuiltins.Slice | src/components/RecentTransactions.tsx:18-21 | `slice` returns max(end' - start', 0) elements, where start' and end' are the resolved indices, and its i-th element is the receiver's element at start' + i |
| JsBuiltins.SliceNonNegative | src/components/RecentTransactions.tsx:18-21 | with non-negative arguments the slice is the rows from `start` to min(`end`, length), and empty when that is not past `start` |
| JsBuiltins.SliceNegative | src/components/RecentTransactions.tsx:18-21 | with negative arguments both indices are taken from the end and cut at 0; the slice is empty when the resolved end is not past the resolved start |
| JsBuiltins.SliceLengthBound | src/components/RecentTransactions.tsx:18-21 | a slice never holds more elements than the receiver, nor more than `end - start` when `start <= end`; it is empty when `end <= start` and they have the same sign |
| Pagination.TotalPages | src/components/RecentTransactions.tsx:14-15 | the page count is the ceiling of length / 10: all rows fit in it (length <= pages * 10), one page fewer would not hold them all, and it is 0 exactly for an empty list |
| Pagination.TotalPagesByIntegerDivision | src/components/RecentTransactions.tsx:15 | the page count equals (length + 9) / 10 in integer arithmetic |
| Pagination.CurrentPage | src/components/RecentTransactions.tsx:14-21 | the current page is `slice(FirstIndex(page), LastIndex(page))`, where `LastIndex` (`indexOfLastTransaction`) is page * 10 and `FirstIndex` (`indexOfFirstTransaction`) is 10 less; it never holds more than 10 rows, for any integer page, nor more rows than the list |
| Pagination.PageWindow | src/components/RecentTransactions.tsx:16-21 | for page p >= 1 the page is exactly the rows at offsets from (p - 1) * 10 up to min(p * 10, length), both cut at the length |
| Pagination.PageNonEmptyIffInRange | src/components/RecentTransactions.tsx:15-21 | for page p >= 1 the page holds rows if and only if p <= the page count |
| Pagination.PageSize | src/components/RecentTransactions.tsx:14-21 | every page before the last holds exactly 10 rows, and the last holds length - (pages - 1) * 10 |
| Pagination.PageZeroIsEmpty | src/components/RecentTransactions.tsx:16-18 | page 0 (`slice(-10, 0)`) is empty |
| Pagination.NegativePageCountsFromEnd | src/components/RecentTransactions.tsx:16-21 | a page p <= -1 shows the rows from length + (p - 1) * 10 to length + p * 10, both cut at 0; it holds rows if and only if -p * 10 < length |
| Pagination.NegativePageExample | src/components/RecentTransactions.tsx:16-21 | with 15 rows, page -1 shows rows 0 to 4 (five rows), not an empty page |
| Pagination.RowOnItsPage | src/components/RecentTransactions.tsx:15-21 | row i lies on page i / 10 + 1, which is within the page count, at position i % 10 |
| Pagination.PagesUpToIsPrefix | src/components/RecentTransactions.tsx:16-21 | pages 1 to n, concatenated in order, are the first min(n * 10, length) rows: pages neither overlap nor skip rows |
| Pagination.AllPagesRebuildList | src/components/RecentTransactions.tsx:15-21 | concatenating pages 1 to the page count gives back the whole transaction list |
| Pagination.Paginate | src/components/RecentTransactions.tsx:8-21 | with the prop defaults, which apply only to an `undefined` prop: a missing list gives an empty page and 0 pages; a missing page gives the first (up to) 10 rows; a given page (0 and negative ones included) is used as given, as `CurrentPage` of the list; the page count is `TotalPages` of the list's length; the page never holds more than 10 rows |

## Left out

- Rendering (tabs, links, bank information, the transactions table and the pagination control, src/components/RecentTransactions.tsx:22-60) is user interface only.
- The other files of the repository are left out. The server actions wrap hosted identity and bank-data services and cookies. The forms, the bank-link button, the chart, the counter and the balance box are user interface. The environment schema is declarative and is checked by a library.
- Pages that are not integers (fractional or NaN values from a query string) are left out: `page` is an `int` here.
- JsBuiltins.MathCeil: numbers are exact reals, so the rounding of the double-precision division `length / 10` is not modelled; for any list length a browser can hold that division lies within a rounding error of the exact quotient and gives the same ceiling.
- JsBuiltins.Slice: only integer arguments are modelled; the conversion of other values (`undefined`, infinities, fractions) by `ToIntegerOrInfinity` is left out.
- That `slice` leaves the list unchanged is not stated as a lemma: a `seq` is a value, so no function of this model can change its argument.
