/** Restricting the ledger to a window of days, both ends included. */
module DateFilter {
  import opened Wrappers
  import opened Sequences
  import Ledger

  /** The row has a date and it lies between `start` and `end`. A row whose
      date could not be read compares false against both ends. */
  predicate InWindow(t: Ledger.Transaction, start: int, end: int) {
    t.date.Some? && start <= t.date.value <= end
  }

  function Within(start: int, end: int): Ledger.Transaction -> bool {
    t => InWindow(t, start, end)
  }

  /** The rows dated within `[start, end]`, in their original order. */
  function FilterByDate(rows: seq<Ledger.Transaction>, start: int, end: int): (r: seq<Ledger.Transaction>)
    ensures forall i :: 0 <= i < |r| ==> r[i].date.Some? && start <= r[i].date.value <= end
    ensures forall t :: multiset(r)[t] == if InWindow(t, start, end) then multiset(rows)[t] else 0
  {
    var r := Filter(Within(start, end), rows);
    forall i | 0 <= i < |r|
      ensures InWindow(r[i], start, end)
    {
      assert multiset(r)[r[i]] > 0;
    }
    r
  }

  /** The filter is taken piecewise, so it keeps the rows' relative order. */
  lemma {:induction false} FilterByDateAppend(a: seq<Ledger.Transaction>, b: seq<Ledger.Transaction>, start: int, end: int)
    ensures FilterByDate(a + b, start, end) == FilterByDate(a, start, end) + FilterByDate(b, start, end)
  {
    FilterAppend(Within(start, end), a, b);
  }

  /** A sheet sorted by date stays sorted after filtering. */
  lemma FilterByDateKeepsOrder(rows: seq<Ledger.Transaction>, start: int, end: int)
    requires Sorted(rows, Ledger.ByDate)
    ensures Sorted(FilterByDate(rows, start, end), Ledger.ByDate)
  {
    FilterKeepsSorted(Within(start, end), rows, Ledger.ByDate);
  }

  function Max(a: int, b: int): int {
    if a < b then b else a
  }

  function Min(a: int, b: int): int {
    if a < b then a else b
  }

  /** Filtering by one window and then another is filtering by their overlap. */
  lemma {:induction false} FilterByDateNarrows(rows: seq<Ledger.Transaction>, start1: int, end1: int, start2: int, end2: int)
    ensures FilterByDate(FilterByDate(rows, start1, end1), start2, end2)
         == FilterByDate(rows, Max(start1, start2), Min(end1, end2))
  {
    FilterFilter(Within(start2, end2), Within(start1, end1), Within(Max(start1, start2), Min(end1, end2)), rows);
  }

  /** Applying the same window twice changes nothing. */
  lemma FilterByDateIdempotent(rows: seq<Ledger.Transaction>, start: int, end: int)
    ensures FilterByDate(FilterByDate(rows, start, end), start, end) == FilterByDate(rows, start, end)
  {
    FilterByDateNarrows(rows, start, end, start, end);
  }

  /** Every row is kept exactly when every row is dated inside the window. */
  lemma FilterByDateKeepsAll(rows: seq<Ledger.Transaction>, start: int, end: int)
    ensures FilterByDate(rows, start, end) == rows <==>
      forall i :: 0 <= i < |rows| ==> InWindow(rows[i], start, end)
  {
    FilterKeepsAll(Within(start, end), rows);
  }

  /** A window whose start is after its end keeps nothing. */
  lemma EmptyWindow(rows: seq<Ledger.Transaction>, start: int, end: int)
    requires start > end
    ensures FilterByDate(rows, start, end) == []
  {
  }
}
