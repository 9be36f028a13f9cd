/** The trade-route ("golden route") table (`GoldRouteManager` in
    goldroute.js): positional rows filtered by a search term and four
    drop-downs, drop-down options built from the distinct values of a column,
    a high-price mark, and the same page state as the item search. */
module GoldRoute {
  import opened Wrappers
  import opened Text
  import opened Seqs
  import opened Paging

  /** Rows shown per page. */
  const RowsPerPage := 15

  /** The price from which a cell is highlighted. */
  const HighValue: real := 500.0

  /** A table row: sea area (해역), culture (문화권), city (도시), kind (종류),
      commodity (교역품) and the development level (등장발전도), then the prices
      in the cultures of the table header. */
  datatype Row = Row(region: string, culture: string, city: string, kind: string, commodity: string,
                     level: real, prices: seq<real>)

  /** The first five cells of a row by position. */
  function Column(row: Row, i: nat): string
    requires i < 5
  {
    if i == 0 then row.region
    else if i == 1 then row.culture
    else if i == 2 then row.city
    else if i == 3 then row.kind
    else row.commodity
  }

  /** The search box and the four drop-downs ("" = all). */
  datatype RouteQuery = RouteQuery(search: string, region: string, city: string, kind: string,
                                   commodity: string)

  /** The term occurs in one of the five lower-cased text columns. */
  predicate TermMatch(row: Row, term: string, lower: CaseMap) {
    exists i: nat :: i < 5 && Contains(Lower(Column(row, i), lower), term)
  }

  /** A filter step that only runs when its criterion is set. */
  function Refine(rows: seq<Row>, active: bool, p: Row -> bool): seq<Row> {
    if active then Filter(rows, p) else rows
  }

  /** The successive filters of `performSearch`: the lower-cased (untrimmed)
      term, then sea area, city, kind and commodity by exact equality. */
  function SearchRows(rows: seq<Row>, q: RouteQuery, lower: CaseMap): seq<Row> {
    var term := Lower(q.search, lower);
    var byTerm := Refine(rows, term != "", x => TermMatch(x, term, lower));
    var byRegion := Refine(byTerm, q.region != "", (x: Row) => x.region == q.region);
    var byCity := Refine(byRegion, q.city != "", (x: Row) => x.city == q.city);
    var byKind := Refine(byCity, q.kind != "", (x: Row) => x.kind == q.kind);
    Refine(byKind, q.commodity != "", (x: Row) => x.commodity == q.commodity)
  }

  /** A row meets every criterion that is set; column 1 (culture) is only
      searched by the term, it has no drop-down. */
  predicate RouteMatches(row: Row, q: RouteQuery, lower: CaseMap) {
    && (q.search == "" || TermMatch(row, Lower(q.search, lower), lower))
    && (q.region == "" || row.region == q.region)
    && (q.city == "" || row.city == q.city)
    && (q.kind == "" || row.kind == q.kind)
    && (q.commodity == "" || row.commodity == q.commodity)
  }

  /** A filter step after a filter is one filter by the conjunction `both`. */
  lemma RefineFilter(s: seq<Row>, a: Row -> bool, active: bool, p: Row -> bool, both: Row -> bool)
    requires forall x :: x in s ==> both(x) == (a(x) && (!active || p(x)))
    ensures Refine(Filter(s, a), active, p) == Filter(s, both)
  {
    if active {
      FilterFilter(s, a, p);
      FilterCongruent(s, x => a(x) && p(x), both);
    } else {
      FilterCongruent(s, a, both);
    }
  }

  /** The criteria of the term and sea-area steps. */
  predicate TermAndRegion(x: Row, q: RouteQuery, lower: CaseMap) {
    && (Lower(q.search, lower) != "" ==> TermMatch(x, Lower(q.search, lower), lower))
    && (q.region != "" ==> x.region == q.region)
  }

  /** The criteria of the first four steps. */
  predicate UpToKind(x: Row, q: RouteQuery, lower: CaseMap) {
    && TermAndRegion(x, q, lower)
    && (q.city != "" ==> x.city == q.city)
    && (q.kind != "" ==> x.kind == q.kind)
  }

  lemma TermAndRegionSteps(rows: seq<Row>, q: RouteQuery, lower: CaseMap)
    ensures var term := Lower(q.search, lower);
      Refine(Refine(rows, term != "", (x: Row) => TermMatch(x, term, lower)), q.region != "",
             (x: Row) => x.region == q.region)
      == Filter(rows, x => TermAndRegion(x, q, lower))
  {
    var term := Lower(q.search, lower);
    var byTerm := (x: Row) => TermMatch(x, term, lower);
    var p1 := (x: Row) => term != "" ==> byTerm(x);
    FilterAll(rows, x => true);
    RefineFilter(rows, x => true, term != "", byTerm, p1);
    RefineFilter(rows, p1, q.region != "", (x: Row) => x.region == q.region, x => TermAndRegion(x, q, lower));
  }

  lemma UpToKindSteps(rows: seq<Row>, q: RouteQuery, lower: CaseMap)
    ensures Refine(Refine(Filter(rows, x => TermAndRegion(x, q, lower)), q.city != "", (x: Row) => x.city == q.city),
                   q.kind != "", (x: Row) => x.kind == q.kind)
      == Filter(rows, x => UpToKind(x, q, lower))
  {
    var p3 := (x: Row) => TermAndRegion(x, q, lower) && (q.city != "" ==> x.city == q.city);
    RefineFilter(rows, x => TermAndRegion(x, q, lower), q.city != "", (x: Row) => x.city == q.city, p3);
    RefineFilter(rows, p3, q.kind != "", (x: Row) => x.kind == q.kind, x => UpToKind(x, q, lower));
  }

  /** The chain of filters is one filter by the conjunction of the criteria. */
  lemma SearchRowsIsOneFilter(rows: seq<Row>, q: RouteQuery, lower: CaseMap)
    ensures SearchRows(rows, q, lower) == Filter(rows, x => RouteMatches(x, q, lower))
  {
    TermAndRegionSteps(rows, q, lower);
    UpToKindSteps(rows, q, lower);
    RefineFilter(rows, x => UpToKind(x, q, lower), q.commodity != "", (x: Row) => x.commodity == q.commodity,
                 x => RouteMatches(x, q, lower));
  }

  /** The result is an order-preserving subsequence of the rows holding
      exactly the rows that meet every criterion. */
  lemma SearchRowsMeetCriteria(rows: seq<Row>, q: RouteQuery, lower: CaseMap)
    ensures IsSubsequence(SearchRows(rows, q, lower), rows)
    ensures forall x :: x in SearchRows(rows, q, lower) <==> x in rows && RouteMatches(x, q, lower)
  {
    SearchRowsIsOneFilter(rows, q, lower);
    FilterSubsequence(rows, x => RouteMatches(x, q, lower));
  }

  // ---- populateFilters ----

  /** Strictly ascending in the default string order, hence duplicate-free. */
  predicate StrictlyAscending(r: seq<string>) {
    forall i, j :: 0 <= i < j < |r| ==> Less(r[i], r[j])
  }

  lemma AscendingCons(h: string, t: seq<string>)
    requires StrictlyAscending(t)
    requires forall y :: y in t ==> Less(h, y)
    ensures StrictlyAscending([h] + t)
  {
    var r := [h] + t;
    forall i, j | 0 <= i < j < |r| ensures Less(r[i], r[j]) {
      if i == 0 {
        assert r[j] == t[j - 1];
      } else {
        assert r[i] == t[i - 1] && r[j] == t[j - 1];
      }
    }
  }

  /** Adds `x` to a strictly ascending list unless it is already there. */
  function InsertUnique(r: seq<string>, x: string): (t: seq<string>)
    requires StrictlyAscending(r)
    ensures StrictlyAscending(t)
    ensures forall y :: y in t <==> y in r || y == x
  {
    if r == [] then [x]
    else if x == r[0] then r
    else if Less(x, r[0]) then
      assert forall y :: y in r ==> Less(x, y) by {
        forall y | y in r ensures Less(x, y) {
          if y != r[0] {
            var j :| 0 < j < |r| && r[j] == y;
            LessTransitive(x, r[0], y);
          }
        }
      }
      AscendingCons(x, r);
      [x] + r
    else
      LessTotal(x, r[0]);
      assert StrictlyAscending(r[1..]) by {
        forall i, j | 0 <= i < j < |r[1..]| ensures Less(r[1..][i], r[1..][j]) {
          assert r[1..][i] == r[i + 1] && r[1..][j] == r[j + 1];
        }
      }
      var rest := InsertUnique(r[1..], x);
      assert forall y :: y in rest ==> Less(r[0], y) by {
        forall y | y in rest ensures Less(r[0], y) {
          if y != x {
            var j :| 0 <= j < |r[1..]| && r[1..][j] == y;
            assert r[j + 1] == y;
          }
        }
      }
      AscendingCons(r[0], rest);
      assert forall y :: y in r <==> y == r[0] || y in r[1..] by {
        assert r == [r[0]] + r[1..];
      }
      [r[0]] + rest
  }

  /** `[...new Set(values)].sort()`: the distinct values in ascending order. */
  function SortedDistinct(values: seq<string>): (r: seq<string>)
    ensures StrictlyAscending(r)
    ensures forall y :: y in r <==> y in values
  {
    if values == [] then []
    else
      assert forall y :: y in values <==> y == values[0] || y in values[1..] by {
        assert values == [values[0]] + values[1..];
      }
      InsertUnique(SortedDistinct(values[1..]), values[0])
  }

  /** A strictly ascending list has no repeated value. */
  lemma AscendingNoDuplicates(r: seq<string>)
    requires StrictlyAscending(r)
    ensures forall i, j :: 0 <= i < j < |r| ==> r[i] != r[j]
  {
    forall i, j | 0 <= i < j < |r| ensures r[i] != r[j] {
      LessIrreflexive(r[i]);
    }
  }

  /** The values of column `col` of every row, in row order. */
  function Columns(rows: seq<Row>, col: nat): (r: seq<string>)
    requires col < 5
    ensures |r| == |rows|
    ensures forall i :: 0 <= i < |rows| ==> r[i] == Column(rows[i], col)
  {
    if rows == [] then [] else [Column(rows[0], col)] + Columns(rows[1..], col)
  }

  /** The options of a drop-down: the distinct values of the column over all
      rows, ascending and without repetition. */
  function Options(rows: seq<Row>, col: nat): (r: seq<string>)
    requires col < 5
    ensures StrictlyAscending(r)
    ensures forall i, j :: 0 <= i < j < |r| ==> r[i] != r[j]
    ensures forall y :: y in r <==> exists i :: 0 <= i < |rows| && Column(rows[i], col) == y
  {
    var values := Columns(rows, col);
    AscendingNoDuplicates(SortedDistinct(values));
    assert forall y :: y in values <==> exists i :: 0 <= i < |rows| && Column(rows[i], col) == y by {
      forall y ensures y in values <==> exists i :: 0 <= i < |rows| && Column(rows[i], col) == y {
        if y in values {
          var i :| 0 <= i < |values| && values[i] == y;
          assert Column(rows[i], col) == y;
        }
      }
    }
    SortedDistinct(values)
  }

  // ---- displayGoldrouteTable ----

  /** The price cells of a row with their high-value mark. */
  function PriceMarks(row: Row): (marks: seq<bool>)
    ensures |marks| == |row.prices|
    ensures forall i :: 0 <= i < |marks| ==> (marks[i] <==> row.prices[i] >= HighValue)
  {
    seq(|row.prices|, i requires 0 <= i < |row.prices| => row.prices[i] >= HighValue)
  }

  /** The first view after loading as written: the whole table is shown
      unpaged, and the page count is only computed when there are no rows.
      Result: (rows shown, totalPages). */
  function InitialViewAsWritten(rows: seq<Row>): (seq<Row>, int) {
    if |rows| == 0 then ([], PageCount(0, RowsPerPage)) else (rows, 1)
  }

  /** As written, sixteen loaded rows are all shown at once and the page
      count stays 1, so page 2 cannot be reached until a search runs. */
  lemma SixteenRowsShownUnpaged(rows: seq<Row>)
    requires |rows| == 16
    ensures |InitialViewAsWritten(rows).0| == 16 > RowsPerPage
    ensures InitialViewAsWritten(rows).1 == 1 < PageCount(|rows|, RowsPerPage)
  {
  }

  class GoldRouteManager {
    var goldrouteItems: seq<Row>
    var filteredItems: seq<Row>
    var currentPage: int
    var totalPages: int
    var isInitialized: bool

    /** The manager before its data is loaded. */
    constructor()
      ensures goldrouteItems == [] && filteredItems == []
      ensures currentPage == 1 && totalPages == 1 && !isInitialized
    {
      goldrouteItems := [];
      filteredItems := [];
      currentPage := 1;
      totalPages := 1;
      isInitialized := false;
    }

    /** `calculatePagination` with 15 rows a page. */
    method CalculatePagination()
      modifies this`currentPage, this`totalPages
      ensures totalPages == PageCount(|filteredItems|, RowsPerPage)
      ensures currentPage == ClampPage(old(currentPage), totalPages)
      ensures currentPage >= 1 && (|filteredItems| > 0 ==> currentPage <= totalPages)
    {
      totalPages := PageCount(|filteredItems|, RowsPerPage);
      if currentPage > totalPages && totalPages > 0 {
        currentPage := totalPages;
      }
      if currentPage < 1 {
        currentPage := 1;
      }
    }

    /** `displayFilteredResults`: no rows shows nothing and leaves the page
        state alone; otherwise the page state is recomputed and the rows of
        the current page are shown. */
    method DisplayFilteredResults() returns (page: seq<Row>)
      modifies this`currentPage, this`totalPages
      ensures |filteredItems| == 0 ==>
        page == [] && currentPage == old(currentPage) && totalPages == old(totalPages)
      ensures |filteredItems| > 0 ==>
        && totalPages == PageCount(|filteredItems|, RowsPerPage)
        && currentPage == ClampPage(old(currentPage), totalPages)
        && 1 <= currentPage <= totalPages
        && page == PageSlice(filteredItems, currentPage, RowsPerPage)
      ensures |page| <= RowsPerPage
    {
      if |filteredItems| == 0 {
        return [];
      }
      CalculatePagination();
      page := PageSlice(filteredItems, currentPage, RowsPerPage);
    }

    /** `init` after `loadData`: on failure nothing changes and the manager
        stays uninitialised; on success every row is listed and the first
        page is shown with the page count computed. */
    method Init(loaded: Option<seq<Row>>) returns (page: seq<Row>)
      modifies this
      ensures loaded.None? ==>
        && page == [] && isInitialized == old(isInitialized) && goldrouteItems == old(goldrouteItems)
        && filteredItems == old(filteredItems)
        && currentPage == old(currentPage) && totalPages == old(totalPages)
      ensures loaded.Some? ==>
        && isInitialized && goldrouteItems == loaded.value && filteredItems == loaded.value
        && (|filteredItems| == 0 ==> page == [] && currentPage == old(currentPage) && totalPages == old(totalPages))
        && (|filteredItems| > 0 ==>
              && totalPages == PageCount(|filteredItems|, RowsPerPage)
              && currentPage == ClampPage(old(currentPage), totalPages)
              && page == PageSlice(filteredItems, currentPage, RowsPerPage))
    {
      if loaded.None? {
        page := [];
        return;
      }
      goldrouteItems := loaded.value;
      filteredItems := goldrouteItems;
      page := DisplayFilteredResults();
      isInitialized := true;
    }

    /** `performSearch`: ignored before initialisation; otherwise the rows
        meeting the criteria become the result, page 1 is current and shown. */
    method PerformSearch(q: RouteQuery, lower: CaseMap) returns (shown: Option<seq<Row>>)
      modifies this`filteredItems, this`currentPage, this`totalPages
      ensures !isInitialized ==>
        && shown == None && filteredItems == old(filteredItems)
        && currentPage == old(currentPage) && totalPages == old(totalPages)
      ensures isInitialized ==>
        && filteredItems == SearchRows(goldrouteItems, q, lower)
        && currentPage == 1
        && totalPages == (if |filteredItems| > 0 then PageCount(|filteredItems|, RowsPerPage) else old(totalPages))
        && shown == Some(PageSlice(filteredItems, 1, RowsPerPage))
    {
      if !isInitialized {
        return None;
      }
      filteredItems := SearchRows(goldrouteItems, q, lower);
      currentPage := 1;
      var page := DisplayFilteredResults();
      if |filteredItems| > 0 {
        ClampIdempotent(1, totalPages);
        assert currentPage == 1;
      } else {
        assert page == [] == PageSlice(filteredItems, 1, RowsPerPage);
      }
      shown := Some(page);
    }

    /** `goToPage`: a page number outside [1, totalPages] is ignored;
        otherwise that page becomes current and is shown. */
    method GoToPage(p: int) returns (shown: Option<seq<Row>>)
      modifies this`currentPage, this`totalPages
      ensures !(1 <= p <= old(totalPages)) ==>
        shown == None && currentPage == old(currentPage) && totalPages == old(totalPages)
      ensures 1 <= p <= old(totalPages) && |filteredItems| == 0 ==>
        shown == Some([]) && currentPage == p && totalPages == old(totalPages)
      ensures 1 <= p <= old(totalPages) && |filteredItems| > 0 ==>
        && totalPages == PageCount(|filteredItems|, RowsPerPage)
        && currentPage == ClampPage(p, totalPages)
        && shown == Some(PageSlice(filteredItems, currentPage, RowsPerPage))
      ensures 1 <= p <= old(totalPages) == PageCount(|filteredItems|, RowsPerPage) ==> currentPage == p
    {
      if 1 <= p <= totalPages {
        currentPage := p;
        var page := DisplayFilteredResults();
        shown := Some(page);
      } else {
        shown := None;
      }
    }

    /** `populateFilters`: the options of the sea-area, city, kind and
        commodity drop-downs. */
    method PopulateFilters() returns (regions: seq<string>, cities: seq<string>, kinds: seq<string>,
                                      commodities: seq<string>)
      ensures regions == Options(goldrouteItems, 0) && cities == Options(goldrouteItems, 2)
      ensures kinds == Options(goldrouteItems, 3) && commodities == Options(goldrouteItems, 4)
    {
      regions := Options(goldrouteItems, 0);
      cities := Options(goldrouteItems, 2);
      kinds := Options(goldrouteItems, 3);
      commodities := Options(goldrouteItems, 4);
    }
  }
}
