/**
 The client-side pagination window of the recent-transactions panel: a fixed
 page size, the number of pages, and the slice of the transaction list shown
 for a given page. Transactions are opaque here, so everything is generic in
 the row type `T`.
 */
module Pagination {
  import opened JsBuiltins

  /** Rows shown on one page. */
  const RowsPerPage: nat := 10

  /** `Math.ceil(length / rowsPerPage)`: the least number of pages that holds
      every row, and no page at all for an empty list. */
  function TotalPages(length: nat): (pages: nat)
    ensures length <= pages * RowsPerPage
    ensures pages == 0 || (pages - 1) * RowsPerPage < length
    ensures pages == 0 <==> length == 0
  {
    MathCeil(length as real / RowsPerPage as real)
  }

  /** The same count in integer arithmetic. */
  lemma TotalPagesByIntegerDivision(length: nat)
    ensures TotalPages(length) == (length + RowsPerPage - 1) / RowsPerPage
  {
    var k := (length + RowsPerPage - 1) / RowsPerPage;
    assert length <= k * RowsPerPage && (k - 1) * RowsPerPage < length;
    MathCeilUnique(length as real / RowsPerPage as real, k);
  }

  /** Index one past the last row of `page`. */
  function LastIndex(page: int): int { page * RowsPerPage }

  /** Index of the first row of `page`. */
  function FirstIndex(page: int): int { LastIndex(page) - RowsPerPage }

  /** `transactions.slice(indexOfFirstTransaction, indexOfLastTransaction)`:
      the rows shown for `page`. Never more than a page's worth. */
  function CurrentPage<T>(transactions: seq<T>, page: int): (rows: seq<T>)
    ensures |rows| <= RowsPerPage
    ensures |rows| <= |transactions|
  {
    Slice(transactions, FirstIndex(page), LastIndex(page))
  }

  /** For a page numbered from 1 up, the rows shown are exactly those at
      offsets (page - 1) * 10 up to min(page * 10, length); both ends stop at
      the length, so a page past the end is empty. */
  lemma PageWindow<T>(transactions: seq<T>, page: int)
    requires 1 <= page
    ensures CurrentPage(transactions, page) ==
            transactions[Min((page - 1) * RowsPerPage, |transactions|)..Min(page * RowsPerPage, |transactions|)]
  {
    SliceNonNegative(transactions, FirstIndex(page), LastIndex(page));
  }

  /** A page numbered from 1 up holds rows exactly when it is one of the
      `TotalPages` pages. */
  lemma PageNonEmptyIffInRange<T>(transactions: seq<T>, page: int)
    requires 1 <= page
    ensures CurrentPage(transactions, page) != [] <==> page <= TotalPages(|transactions|)
  {
    PageWindow(transactions, page);
  }

  /** Every page before the last is full; the last one holds the remainder. */
  lemma PageSize<T>(transactions: seq<T>, page: int)
    requires 1 <= page <= TotalPages(|transactions|)
    ensures page < TotalPages(|transactions|) ==> |CurrentPage(transactions, page)| == RowsPerPage
    ensures page == TotalPages(|transactions|) ==>
            |CurrentPage(transactions, page)| == |transactions| - (page - 1) * RowsPerPage
  {
    PageWindow(transactions, page);
  }

  /** Page 0 is `slice(-10, 0)`: the end resolves to 0, which is not past any
      start, so nothing is shown. */
  lemma PageZeroIsEmpty<T>(transactions: seq<T>)
    ensures CurrentPage(transactions, 0) == []
  {
  }

  /** A negative page gives negative slice indices, which count back from the
      end of the list: page p shows the window that ends 10 * (-p) rows before
      the end, cut at the start of the list. It is not empty in general. */
  lemma NegativePageCountsFromEnd<T>(transactions: seq<T>, page: int)
    requires page <= -1
    ensures CurrentPage(transactions, page) ==
            transactions[Max(|transactions| + FirstIndex(page), 0)..Max(|transactions| + LastIndex(page), 0)]
    ensures CurrentPage(transactions, page) != [] <==> -page * RowsPerPage < |transactions|
  {
    SliceNegative(transactions, FirstIndex(page), LastIndex(page));
  }

  /** With 15 transactions, page -1 is `slice(-20, -10)`, which resolves to
      rows 0 up to 5: five rows, not an empty page. */
  lemma NegativePageExample<T>(transactions: seq<T>)
    requires |transactions| == 15
    ensures CurrentPage(transactions, -1) == transactions[0..5]
    ensures |CurrentPage(transactions, -1)| == 5
  {
    NegativePageCountsFromEnd(transactions, -1);
  }

  /** Row `i` is shown on page `i / 10 + 1`, at position `i % 10`. */
  lemma RowOnItsPage<T>(transactions: seq<T>, i: nat)
    requires i < |transactions|
    ensures 1 <= i / RowsPerPage + 1 <= TotalPages(|transactions|)
    ensures i % RowsPerPage < |CurrentPage(transactions, i / RowsPerPage + 1)|
    ensures CurrentPage(transactions, i / RowsPerPage + 1)[i % RowsPerPage] == transactions[i]
  {
    PageWindow(transactions, i / RowsPerPage + 1);
  }

  /** Pages 1 to `count`, concatenated in order. */
  function PagesUpTo<T>(transactions: seq<T>, count: nat): seq<T>
  {
    if count == 0 then [] else PagesUpTo(transactions, count - 1) + CurrentPage(transactions, count)
  }

  /** The first `count` pages together are the first `count * 10` rows (or
      all of them): pages do not overlap and do not skip rows. */
  lemma {:induction false} PagesUpToIsPrefix<T>(transactions: seq<T>, count: nat)
    ensures PagesUpTo(transactions, count) == transactions[..Min(count * RowsPerPage, |transactions|)]
  {
    if count > 0 {
      PagesUpToIsPrefix(transactions, count - 1);
      PageWindow(transactions, count);
      var a := Min((count - 1) * RowsPerPage, |transactions|);
      var b := Min(count * RowsPerPage, |transactions|);
      assert transactions[..a] + transactions[a..b] == transactions[..b];
    }
  }

  /** Concatenating pages 1 to `TotalPages` gives back the transaction list. */
  lemma AllPagesRebuildList<T>(transactions: seq<T>)
    ensures PagesUpTo(transactions, TotalPages(|transactions|)) == transactions
  {
    PagesUpToIsPrefix(transactions, TotalPages(|transactions|));
  }

  /** What the component derives from its props. */
  datatype PageView<T> = PageView(rows: seq<T>, totalPages: nat)

  /** A prop that the caller may leave `undefined`. */
  datatype Prop<T> = Undefined | Given(value: T)

  /** The pagination of the component, with its prop defaults: an absent
      transaction list is empty and an absent page is page 1. */
  function Paginate<T>(transactions: Prop<seq<T>>, page: Prop<int>): (view: PageView<T>)
    ensures |view.rows| <= RowsPerPage
    ensures transactions.Undefined? ==> view == PageView([], 0)
    ensures transactions.Given? ==> view.totalPages * RowsPerPage >= |transactions.value|
    ensures view.totalPages == TotalPages(if transactions.Given? then |transactions.value| else 0)
    ensures page.Given? ==>
            view.rows == CurrentPage(if transactions.Given? then transactions.value else [], page.value)
    ensures transactions.Given? && page.Undefined? ==>
            view.rows == transactions.value[..Min(RowsPerPage, |transactions.value|)]
  {
    var list := if transactions.Given? then transactions.value else [];
    var p := if page.Given? then page.value else 1;
    PageWindow(list, 1);
    PageView(CurrentPage(list, p), TotalPages(|list|))
  }
}
