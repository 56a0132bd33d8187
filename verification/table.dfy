/**
 * The paged data table of src/components/ui/table.tsx: the body it shows
 * (loading row, empty row or one row per item), the "Showing a to b of n"
 * label, the previous/next buttons and the page-size choices. The table
 * never changes the page itself: it only hands requests to its callbacks.
 * Page numbers and counts are integers.
 */
module Table {
  import opened Wrappers

  /** `Math.min`. */
  function Min(a: int, b: int): int {
    if a <= b then a else b
  }

  /** `Math.ceil(a / b)` for a positive divisor, as integer ceiling division. */
  function CeilDiv(a: int, b: int): (r: int)
    requires b > 0
    ensures (r - 1) * b < a <= r * b
  {
    (a + b - 1) / b
  }

  /** `Math.ceil(totalCount / pageSize)`: the page count the routes hand to the table. */
  function TotalPages(totalCount: nat, pageSize: int): (r: nat)
    requires pageSize > 0
    ensures totalCount == 0 <==> r == 0
    ensures r > 0 ==> (r - 1) * pageSize < totalCount <= r * pageSize
  {
    CeilDiv(totalCount, pageSize)
  }

  /** The first number of the "Showing" label. */
  function RangeStart(currentPage: int, pageSize: int, totalCount: int): int {
    Min((currentPage - 1) * pageSize + 1, totalCount)
  }

  /** The second number of the "Showing" label. */
  function RangeEnd(currentPage: int, pageSize: int, totalCount: int): int {
    Min(currentPage * pageSize, totalCount)
  }

  /** With a page size of at least one the label never reads backwards, and it never passes the total. */
  lemma RangeOrdered(currentPage: int, pageSize: int, totalCount: int)
    requires pageSize >= 1
    ensures RangeStart(currentPage, pageSize, totalCount) <= RangeEnd(currentPage, pageSize, totalCount)
    ensures RangeEnd(currentPage, pageSize, totalCount) <= totalCount
  {
    assert (currentPage - 1) * pageSize + 1 <= currentPage * pageSize;
  }

  /**
   * On an existing page the label names exactly the items of that page:
   * positions `(currentPage - 1) * pageSize + 1` up to the page end or the
   * last item, so it counts `pageSize` items on every page but the last.
   */
  lemma RangeOfPage(currentPage: int, pageSize: int, totalCount: nat)
    requires pageSize >= 1 && 1 <= currentPage <= TotalPages(totalCount, pageSize)
    ensures RangeStart(currentPage, pageSize, totalCount) == (currentPage - 1) * pageSize + 1
    ensures 1 <= RangeStart(currentPage, pageSize, totalCount)
    ensures RangeEnd(currentPage, pageSize, totalCount) - RangeStart(currentPage, pageSize, totalCount) + 1
      == Min(pageSize, totalCount - (currentPage - 1) * pageSize)
    ensures currentPage < TotalPages(totalCount, pageSize) ==>
      RangeEnd(currentPage, pageSize, totalCount) == currentPage * pageSize
    ensures currentPage == TotalPages(totalCount, pageSize) ==>
      RangeEnd(currentPage, pageSize, totalCount) == totalCount
  {
    var t := TotalPages(totalCount, pageSize);
    var before := (currentPage - 1) * pageSize;
    var upTo := currentPage * pageSize;
    assert upTo == before + pageSize;
    MulLe(currentPage - 1, t - 1, pageSize);
    assert before < totalCount;
    if currentPage < t {
      MulLe(currentPage, t - 1, pageSize);
      assert upTo < totalCount;
    } else {
      assert upTo == t * pageSize;
    }
  }

  lemma MulLe(x: int, y: int, k: int)
    requires x <= y && k >= 0
    ensures x * k <= y * k
  {
    assert y * k - x * k == (y - x) * k;
  }

  /** With no results the label reads "Showing 0 to 0 of 0" on any page from the first on. */
  lemma EmptyRange(currentPage: int, pageSize: int)
    requires pageSize >= 1 && currentPage >= 1
    ensures RangeStart(currentPage, pageSize, 0) == 0 && RangeEnd(currentPage, pageSize, 0) == 0
  {
    assert (currentPage - 1) * pageSize >= 0;
  }

  /** The previous button is disabled on the first page and before it. */
  predicate PrevDisabled(currentPage: int) {
    currentPage <= 1
  }

  /** The next button is disabled on the last page and after it. */
  predicate NextDisabled(currentPage: int, totalPages: int) {
    currentPage >= totalPages
  }

  /** What the table asks its parent for. */
  datatype Request = PageChange(page: int) | PageSizeChange(size: int)

  datatype Button = Prev | Next

  /** A click on a paging button: nothing when the button is disabled, else the page next to the current one. */
  function Click(button: Button, currentPage: int, totalPages: int): (r: Option<Request>)
    ensures r.None? <==> (if button == Prev then PrevDisabled(currentPage) else NextDisabled(currentPage, totalPages))
    ensures r.Some? ==>
      (r.value.PageChange? && r.value.page == (if button == Prev then currentPage - 1 else currentPage + 1))
  {
    match button
    case Prev => if PrevDisabled(currentPage) then None else Some(PageChange(currentPage - 1))
    case Next => if NextDisabled(currentPage, totalPages) then None else Some(PageChange(currentPage + 1))
  }

  /** From a page between 1 and the last, every request a paging button makes names a page between 1 and the last. */
  lemma ClickStaysInRange(button: Button, currentPage: int, totalPages: int)
    requires 1 <= currentPage <= totalPages
    ensures var r := Click(button, currentPage, totalPages);
      r.Some? ==> 1 <= r.value.page <= totalPages
  {
  }

  /** From any page at all, at most one of the two buttons leads nowhere on a table of two pages or more. */
  lemma SomeButtonEnabled(currentPage: int, totalPages: int)
    requires totalPages >= 2
    ensures Click(Prev, currentPage, totalPages).Some? || Click(Next, currentPage, totalPages).Some?
  {
  }

  /** `pageSizeOptions`. */
  const PageSizeOptions: seq<int> := [5, 10, 20, 50]

  /** Choosing the `choice`-th entry of the page-size select. */
  function SelectPageSize(choice: nat): (r: Request)
    requires choice < |PageSizeOptions|
    ensures r.PageSizeChange? && r.size in {5, 10, 20, 50} && r.size > 0
  {
    PageSizeChange(PageSizeOptions[choice])
  }

  /** Every page size offered is reachable from the select. */
  lemma PageSizeChoices(size: int)
    ensures size in {5, 10, 20, 50} <==> exists choice :: 0 <= choice < |PageSizeOptions| && SelectPageSize(choice) == PageSizeChange(size)
  {
    if size in {5, 10, 20, 50} {
      var choice := if size == 5 then 0 else if size == 10 then 1 else if size == 20 then 2 else 3;
      assert SelectPageSize(choice) == PageSizeChange(size);
    }
  }

  /** A column: the key it reads and, optionally, its own renderer. */
  datatype Column<!T, N> = Column(key: string, header: string, render: Option<T -> N>)

  /** What the table body shows. */
  datatype Body<N> = LoadingRow(colSpan: nat) | EmptyRow(colSpan: nat) | Rows(rows: seq<seq<N>>)

  /** One cell: the column's renderer applied to the item, or else the item's field under the column key. */
  function Cell<T, N>(item: T, column: Column<T, N>, field: (T, string) -> N): N {
    if column.render.Some? then column.render.value(item) else field(item, column.key)
  }

  /** One row: a cell per column, in column order. */
  function Row<T, N>(item: T, columns: seq<Column<T, N>>, field: (T, string) -> N): (r: seq<N>)
    ensures |r| == |columns|
  {
    seq(|columns|, j requires 0 <= j < |columns| => Cell(item, columns[j], field))
  }

  /** The body: the loading row while loading, else the empty row for no data, else one row per item. */
  function TableBody<T, N>(data: seq<T>, columns: seq<Column<T, N>>, isLoading: bool, field: (T, string) -> N): (b: Body<N>)
    ensures b.LoadingRow? <==> isLoading
    ensures b.EmptyRow? <==> !isLoading && |data| == 0
    ensures !b.Rows? ==> (b.LoadingRow? && b.colSpan == |columns|) || (b.EmptyRow? && b.colSpan == |columns|)
    ensures b.Rows? ==> |b.rows| == |data| > 0
  {
    if isLoading then LoadingRow(|columns|)
    else if |data| == 0 then EmptyRow(|columns|)
    else Rows(seq(|data|, i requires 0 <= i < |data| => Row(data[i], columns, field)))
  }

  /**
   * Reading down one column of a shown table gives that column's cell of
   * every item, in data order: a renderer's value where the column has one,
   * the item's field otherwise.
   */
  lemma ColumnContents<T, N>(data: seq<T>, columns: seq<Column<T, N>>, field: (T, string) -> N, j: nat)
    requires !(|data| == 0) && j < |columns|
    ensures var b := TableBody(data, columns, false, field);
      b.Rows? && forall i :: 0 <= i < |data| ==>
        |b.rows[i]| == |columns| &&
        b.rows[i][j] == (if columns[j].render.Some? then columns[j].render.value(data[i]) else field(data[i], columns[j].key))
  {
  }

  /** Loading wins over data: whatever the data, a loading table shows the single loading row. */
  lemma LoadingHidesData<T, N>(data1: seq<T>, data2: seq<T>, columns: seq<Column<T, N>>, field: (T, string) -> N)
    ensures TableBody(data1, columns, true, field) == TableBody(data2, columns, true, field)
  {
  }
}
