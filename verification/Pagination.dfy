/** Walking a fixed table page by page: LIMIT n and SeekAfter set to the last row returned. */
module Pagination {
  import opened SqlValues
  import opened Schema
  import opened PredicateMeaning
  import opened Ordering
  import opened Keyset
  import opened SelectClause

  /** The rows of a bag that satisfy a condition, in storage order. */
  ghost function Filter(rows: seq<Row>, p: Row -> bool): (r: seq<Row>)
  {
    if |rows| == 0 then [] else Filter(rows[..|rows| - 1], p) + if p(rows[|rows| - 1]) then [rows[|rows| - 1]] else []
  }

  lemma {:induction false} FilterCounts(rows: seq<Row>, p: Row -> bool, row: Row)
    ensures multiset(Filter(rows, p))[row] == if p(row) then multiset(rows)[row] else 0
  {
    if |rows| > 0 {
      var front, last := rows[..|rows| - 1], rows[|rows| - 1];
      FilterCounts(front, p, row);
      assert rows == front + [last];
      assert multiset(rows)[row] == multiset(front)[row] + multiset([last])[row];
    }
  }

  lemma FilterIn(rows: seq<Row>, p: Row -> bool)
    ensures forall row :: row in Filter(rows, p) <==> row in rows && p(row)
  {
    forall row
      ensures row in Filter(rows, p) <==> row in rows && p(row)
    {
      FilterCounts(rows, p, row);
      assert row in multiset(rows) <==> row in rows;
      assert row in multiset(Filter(rows, p)) <==> row in Filter(rows, p);
    }
  }

  lemma {:induction false} FilterDistinct(columns: seq<string>, rows: seq<Row>, p: Row -> bool)
    requires DistinctKeys(columns, rows)
    ensures DistinctKeys(columns, Filter(rows, p))
  {
    if |rows| > 0 {
      var front, last := rows[..|rows| - 1], rows[|rows| - 1];
      FilterDistinct(columns, front, p);
      FilterIn(front, p);
      forall row <- Filter(front, p)
        ensures KeyOf(columns, row) != KeyOf(columns, last)
      {
        var i :| 0 <= i < |front| && front[i] == row;
        assert rows[i] == row;
      }
    }
  }

  lemma {:induction false} FilterSame(rows: seq<Row>, p: Row -> bool, q: Row -> bool)
    requires forall row <- rows :: p(row) == q(row)
    ensures Filter(rows, p) == Filter(rows, q)
  {
    if |rows| > 0 {
      FilterSame(rows[..|rows| - 1], p, q);
    }
  }

  // ---- the order of a query ----

  function OrderOf(d: Descriptor, orderBy: seq<OrderTerm>): (o: Order)
    requires FieldsKnown(d, orderBy)
    ensures o.Valid() && |o.columns| == |orderBy|
  {
    Order(seq(|orderBy|, i requires 0 <= i < |orderBy| => FieldAt(d, orderBy, i).column),
          seq(|orderBy|, i requires 0 <= i < |orderBy| => orderBy[i].direction == Descending))
  }

  /** The cursor a caller makes of a row. */
  function CursorOf(d: Descriptor, orderBy: seq<OrderTerm>, row: Row): (c: seq<CursorValue>)
    requires FieldsKnown(d, orderBy)
    ensures |c| == |orderBy|
  {
    seq(|orderBy|, i requires 0 <= i < |orderBy| =>
      var cell := RowCell(d, orderBy, row, i);
      if cell.None? then CursorValue("", Nil, true) else CursorValue("", Bound(cell.value), false))
  }

  lemma {:induction false} AfterIsBefore(d: Descriptor, orderBy: seq<OrderTerm>, last: Row, row: Row, i: nat)
    requires FieldsKnown(d, orderBy) && Ready(d, orderBy, CursorOf(d, orderBy, last)) && i <= |orderBy|
    ensures var o := OrderOf(d, orderBy);
      After(d, orderBy, CursorOf(d, orderBy, last), row, i)
      <==> KeyBefore(o.descending, KeyOf(o.columns, last), KeyOf(o.columns, row), i)
    decreases |orderBy| - i
  {
    if i < |orderBy| {
      AfterIsBefore(d, orderBy, last, row, i + 1);
      assert CursorCell(CursorOf(d, orderBy, last)[i]) == RowCell(d, orderBy, last, i);
    }
  }

  // ---- a walk ----

  /** What a caller fixes for the whole walk: a selection with LIMIT n and no cursor, and a table
      whose declared primary key is unique. */
  datatype Walk = Walk(catalog: Catalog, d: Descriptor, selection: Selection, db: Database, limit: nat)
  {
    ghost predicate Sound() {
      && limit >= 1
      && selection.seekAfter.None? && selection.pagination == SelectClause.Pagination(Some(limit), None)
      && AllAccepted(selection.predicates, catalog, d)
      && OrderByValid(d, selection.orderBy)
      && (forall i | 0 <= i < |selection.orderBy| :: FieldAt(d, selection.orderBy, i).canValue)
      && UniqueNames(d.fields)
      && d.PrimaryKeyFields() != []
      && (forall key <- d.PrimaryKeyFields() :: Orders(selection.orderBy, key.goName))
      && DistinctKeys(Columns(d.PrimaryKeyFields()), Rows(db, d.table))
    }

    /** The matching rows have NULL only where the compiler expects it. */
    ghost predicate NullsFit()
      requires Sound()
    {
      forall row <- Rows(db, d.table) | Keeps(catalog, d, selection, row, db) :: NullsExpected(d, selection.orderBy,
        row)
    }

    ghost predicate Valid() {
      Sound() && NullsFit()
    }

    ghost function Order(): (o: Order)
      requires Sound()
      ensures o.Valid()
    {
      OrderOf(d, selection.orderBy)
    }

    /** The matching rows for a selection of this walk. */
    ghost function Matching(s: Selection): seq<Row>
      requires AllAccepted(s.predicates, catalog, d) && SeekReady(d, s)
    {
      Filter(Rows(db, d.table), row => Keeps(catalog, d, s, row, db))
    }

    /** All matching rows in the order of the query. */
    ghost function All(): seq<Row>
      requires Sound()
    {
      Sort(Order(), Matching(selection))
    }

    ghost function NextAfter(last: Row): (s: Selection)
      requires Sound()
    {
      selection.(seekAfter := Some(CursorOf(d, selection.orderBy, last)))
    }

    /** A page the server may return for a selection. */
    ghost predicate Answers(s: Selection, page: seq<Row>)
      requires Sound() && AllAccepted(s.predicates, catalog, d) && SeekReady(d, s)
    {
      exists full :: IsOrdered(Order(), Matching(s), full) && page == Page(full, 0, limit)
    }

    /** The query that asks for page `i`: without a cursor first, then from the last row of the page before. */
    ghost predicate Step(pages: seq<seq<Row>>, i: nat)
      requires Sound() && i < |pages|
    {
      if i == 0 then Answers(selection, pages[0])
      else
        && pages[i - 1] != []
        && SeekReady(d, NextAfter(LastOf(pages[i - 1])))
        && Answers(NextAfter(LastOf(pages[i - 1])), pages[i])
    }

    ghost predicate Run(pages: seq<seq<Row>>)
      requires Sound()
    {
      forall i | 0 <= i < |pages| :: Step(pages, i)
    }
  }

  function LastOf(page: seq<Row>): Row
    requires page != []
  {
    page[|page| - 1]
  }

  function Visited(pages: seq<seq<Row>>): seq<Row> {
    if |pages| == 0 then [] else Visited(pages[..|pages| - 1]) + pages[|pages| - 1]
  }

  lemma SamePrimaryKey(w: Walk, one: Row, other: Row)
    requires w.Sound() && KeyOf(w.Order().columns, one) == KeyOf(w.Order().columns, other)
    ensures var pk := Columns(w.d.PrimaryKeyFields()); KeyOf(pk, one) == KeyOf(pk, other)
  {
    var orderBy, keys, columns := w.selection.orderBy, w.d.PrimaryKeyFields(), w.Order().columns;
    var pk := Columns(keys);
    forall k | 0 <= k < |pk|
      ensures KeyOf(pk, one)[k] == KeyOf(pk, other)[k]
    {
      assert Orders(orderBy, keys[k].goName);
      var t :| 0 <= t < |orderBy| && orderBy[t].field == keys[k].goName;
      FoundField(w.d.fields, keys[k]);
      assert columns[t] == pk[k];
      assert KeyOf(columns, one)[t] == KeyOf(columns, other)[t];
    }
  }

  lemma PrimaryKeyDecides(w: Walk)
    requires w.Sound()
    ensures DistinctKeys(w.Order().columns, Rows(w.db, w.d.table))
  {
    var rows := Rows(w.db, w.d.table);
    forall i, j | 0 <= i < j < |rows|
      ensures KeyOf(w.Order().columns, rows[i]) != KeyOf(w.Order().columns, rows[j])
    {
      if KeyOf(w.Order().columns, rows[i]) == KeyOf(w.Order().columns, rows[j]) {
        SamePrimaryKey(w, rows[i], rows[j]);
      }
    }
  }

  lemma AllIsOrdered(w: Walk)
    requires w.Sound()
    ensures IsOrdered(w.Order(), w.Matching(w.selection), w.All())
    ensures DistinctKeys(w.Order().columns, w.All())
    ensures forall row <- w.All() :: row in Rows(w.db, w.d.table) && Keeps(w.catalog, w.d, w.selection, row, w.db)
  {
    var matching := w.Matching(w.selection);
    SortIsOrdered(w.Order(), matching);
    PrimaryKeyDecides(w);
    FilterDistinct(w.Order().columns, Rows(w.db, w.d.table), row => Keeps(w.catalog, w.d, w.selection, row, w.db));
    DistinctPermutes(w.Order().columns, matching, w.All());
    FilterIn(Rows(w.db, w.d.table), row => Keeps(w.catalog, w.d, w.selection, row, w.db));
    forall row <- w.All()
      ensures row in Rows(w.db, w.d.table) && Keeps(w.catalog, w.d, w.selection, row, w.db)
    {
      assert row in multiset(w.All());
      assert row in multiset(matching);
    }
  }

  /** Every cursor of a walk is accepted, and selects what is left after its row. */
  lemma NextIsAccepted(w: Walk, last: Row)
    requires w.Valid() && last in Rows(w.db, w.d.table) && Keeps(w.catalog, w.d, w.selection, last, w.db)
    ensures Compilable(w.catalog, w.d, w.NextAfter(last)) && SeekReady(w.d, w.NextAfter(last))
    ensures forall row <- Rows(w.db, w.d.table) ::
      Keeps(w.catalog, w.d, w.NextAfter(last), row, w.db) <==>
      Keeps(w.catalog, w.d, w.selection, row, w.db) && Before(w.Order(), last, row)
  {
    var orderBy := w.selection.orderBy;
    var cursor := CursorOf(w.d, orderBy, last);
    assert NullsExpected(w.d, orderBy, last);
    OrderNotEmpty(w);
    assert FitsUpTo(w.d, orderBy, cursor, |orderBy|);
    assert SeekValid(w.d, orderBy, Some(cursor), false);
    ValidIsReady(w.d, orderBy, cursor, false);
    forall row <- Rows(w.db, w.d.table)
      ensures Keeps(w.catalog, w.d, w.NextAfter(last), row, w.db) <==>
        Keeps(w.catalog, w.d, w.selection, row, w.db) && Before(w.Order(), last, row)
    {
      AfterIsBefore(w.d, orderBy, last, row, 0);
      if Keeps(w.catalog, w.d, w.selection, row, w.db) {
        ExpectedNullsAreNotMissed(w.d, orderBy, cursor, row, 0);
      }
    }
  }

  lemma OrderNotEmpty(w: Walk)
    requires w.Sound()
    ensures |w.selection.orderBy| > 0
  {
    var key := w.d.PrimaryKeyFields()[0];
    assert Orders(w.selection.orderBy, key.goName);
  }

  /** After row k-1 the server has exactly the rows from k on to return, in the same order. */
  lemma RestAfter(w: Walk, k: nat, full: seq<Row>)
    requires w.Valid() && 0 < k <= |w.All()|
    requires SeekReady(w.d, w.NextAfter(w.All()[k - 1]))
    requires IsOrdered(w.Order(), w.Matching(w.NextAfter(w.All()[k - 1])), full)
    ensures full == w.All()[k..]
  {
    hide Keeps, Before, Sort, Sorted, DistinctKeys, Walk.Sound, Walk.NullsFit, Compilable;
    AllIsOrdered(w);
    RestCounts(w, k, full);
    TailIsOrdered(w.Order(), w.All(), k);
    OrderedUnique(w.Order(), w.All()[k..], full);
  }

  lemma RestCounts(w: Walk, k: nat, full: seq<Row>)
    requires w.Valid() && 0 < k <= |w.All()|
    requires SeekReady(w.d, w.NextAfter(w.All()[k - 1]))
    requires multiset(full) == multiset(w.Matching(w.NextAfter(w.All()[k - 1])))
    ensures multiset(full) == multiset(w.All()[k..])
  {
    hide Keeps, Before, Sort, Compilable, NullsExpected;
    var last := w.All()[k - 1];
    AllIsOrdered(w);
    NextIsAccepted(w, last);
    TailOfFilter(
      Rows(w.db, w.d.table), r => Keeps(w.catalog, w.d, w.selection, r, w.db),
        r => Keeps(w.catalog, w.d, w.NextAfter(last), r, w.db),
      w.Order(), w.All(), k, full);
  }

  /** What a narrower filter keeps, counted row by row. */
  lemma TailOfFilter(
    table: seq<Row>, p: Row -> bool, q: Row -> bool, order: Order, all: seq<Row>, k: nat, full: seq<Row>)
    requires order.Valid() && Sorted(order, all) && DistinctKeys(order.columns, all) && 0 < k <= |all|
    requires multiset(all) == multiset(Filter(table, p)) && multiset(full) == multiset(Filter(table, q))
    requires forall row <- table :: q(row) <==> p(row) && Before(order, all[k - 1], row)
    ensures multiset(full) == multiset(all[k..])
  {
    hide Before, Sorted, DistinctKeys;
    forall row
      ensures multiset(full)[row] == multiset(all[k..])[row]
    {
      FilterCounts(table, p, row);
      FilterCounts(table, q, row);
      TailCounts(order, all, k, row);
      if row !in table {
        assert row !in multiset(table);
      }
    }
  }

  lemma TailIsOrdered(order: Order, all: seq<Row>, k: nat)
    requires order.Valid() && Sorted(order, all) && DistinctKeys(order.columns, all) && k <= |all|
    ensures Sorted(order, all[k..]) && DistinctKeys(order.columns, all[k..])
  {
    hide Before, KeyOf;
    forall i, j | 0 <= i < j < |all[k..]|
      ensures !Before(order, all[k..][j], all[k..][i])
      ensures KeyOf(order.columns, all[k..][i]) != KeyOf(order.columns, all[k..][j])
    {
      assert all[k..][i] == all[k + i] && all[k..][j] == all[k + j];
    }
  }

  /** In a strictly sorted sequence the rows after position k-1 are those that come after its row. */
  lemma TailCounts(order: Order, all: seq<Row>, k: nat, row: Row)
    requires order.Valid() && Sorted(order, all) && DistinctKeys(order.columns, all) && 0 < k <= |all|
    ensures multiset(all[k..])[row] == if Before(order, all[k - 1], row) then multiset(all)[row] else 0
  {
    hide Before;
    assert all == all[..k] + all[k..];
    forall i | k <= i < |all|
      ensures Before(order, all[k - 1], all[i])
    {
      SortedStrictly(order, all, k - 1, i);
    }
    forall i | 0 <= i < k
      ensures !Before(order, all[k - 1], all[i])
    {
      if i < k - 1 { SortedStrictly(order, all, i, k - 1); }
      BeforeTotal(order, all[k - 1], all[i]);
    }
    if Before(order, all[k - 1], row) {
      assert row !in multiset(all[..k]);
    } else {
      assert row !in multiset(all[k..]);
    }
  }

  lemma RunFront(w: Walk, pages: seq<seq<Row>>)
    requires w.Sound() && w.Run(pages) && |pages| > 0
    ensures w.Run(pages[..|pages| - 1])
  {
    hide Walk.Answers;
    var front := pages[..|pages| - 1];
    forall i | 0 <= i < |front|
      ensures w.Step(front, i)
    {
      assert w.Step(pages, i);
    }
  }

  /** One page: what the server returns continues where the rows seen so far end. */
  lemma PageContinues(w: Walk, pages: seq<seq<Row>>, k: nat)
    requires w.Valid() && w.Run(pages) && |pages| > 0
    requires k == |Visited(pages[..|pages| - 1])| <= |w.All()|
    requires |pages| > 1 ==> pages[|pages| - 2] != [] && k > 0 && LastOf(pages[|pages| - 2]) == w.All()[k - 1]
    requires |pages| == 1 ==> k == 0
    ensures pages[|pages| - 1] == Page(w.All()[k..], 0, w.limit)
  {
    hide Walk.Matching, Sort;
    var n := |pages| - 1;
    assert w.Step(pages, n);
    AllIsOrdered(w);
    if n == 0 {
      var full :| IsOrdered(w.Order(), w.Matching(w.selection), full) && pages[n] == Page(full, 0, w.limit);
      OrderedUnique(w.Order(), w.All(), full);
      assert w.All()[0..] == w.All();
    } else {
      var s := w.NextAfter(LastOf(pages[n - 1]));
      var full :| IsOrdered(w.Order(), w.Matching(s), full) && pages[n] == Page(full, 0, w.limit);
      RestAfter(w, k, full);
    }
  }

  lemma VisitedGrows(pages: seq<seq<Row>>)
    requires |pages| > 0
    ensures Visited(pages) == Visited(pages[..|pages| - 1]) + pages[|pages| - 1]
  {
  }

  /** Repeating the query visits the matching rows in order, each once and none left out: after any number
      of pages the rows seen are a prefix of all matching rows, and every page is as long as the limit and
      what is left allow. */
  lemma {:induction false} WalkVisitsInOrder(w: Walk, pages: seq<seq<Row>>)
    requires w.Valid() && w.Run(pages)
    ensures |Visited(pages)| <= |w.All()| && Visited(pages) == w.All()[..|Visited(pages)|]
    ensures |pages| > 0 ==>
      var before := |Visited(pages[..|pages| - 1])|;
      pages[|pages| - 1] == Page(w.All()[before..], 0, w.limit)
  {
    hide Walk.Run, Walk.All;
    if |pages| > 0 {
      var n := |pages| - 1;
      var front, page := pages[..n], pages[n];
      RunFront(w, pages);
      WalkVisitsInOrder(w, front);
      VisitedGrows(pages);
      var k := |Visited(front)|;
      if n > 0 {
        PagesNotEmpty(w, pages, n);
        VisitedGrows(front);
        assert w.All()[..k][k - 1] == LastOf(front[n - 1]);
      }
      PageContinues(w, pages, k);
      assert w.All()[..k] + Page(w.All()[k..], 0, w.limit) == w.All()[..k + |page|];
    }
  }

  lemma PagesNotEmpty(w: Walk, pages: seq<seq<Row>>, n: nat)
    requires w.Sound() && w.Run(pages) && 0 < n < |pages|
    ensures pages[n - 1] != []
  {
    assert w.Step(pages, n);
  }

  /** Every query of a walk is accepted by the compiler. */
  lemma WalkIsAccepted(w: Walk, pages: seq<seq<Row>>)
    requires w.Valid() && w.Run(pages) && |pages| > 0 && pages[|pages| - 1] != []
    ensures Compilable(w.catalog, w.d, w.NextAfter(LastOf(pages[|pages| - 1])))
  {
    hide Keeps, Walk.Run, Walk.Matching, Compilable, IsOrdered, Sort;
    WalkVisitsInOrder(w, pages);
    VisitedGrows(pages);
    AllIsOrdered(w);
    var last := LastOf(pages[|pages| - 1]);
    assert last == Visited(pages)[|Visited(pages)| - 1];
    NextIsAccepted(w, last);
  }

  /** A walk that stops at an empty page has seen every matching row exactly once, in order, and it must
      stop: there are never more non-empty pages than matching rows. */
  lemma WalkIsCompleteAndStops(w: Walk, pages: seq<seq<Row>>)
    requires w.Valid() && w.Run(pages) && |pages| > 0
    ensures pages[|pages| - 1] == [] ==> Visited(pages) == w.All()
    ensures pages[|pages| - 1] != [] ==> |pages| <= |w.All()|
  {
    WalkVisitsInOrder(w, pages);
    NonEmptyPages(w, pages);
    VisitedGrows(pages);
  }

  lemma {:induction false} NonEmptyPages(w: Walk, pages: seq<seq<Row>>)
    requires w.Valid() && w.Run(pages)
    ensures |pages| > 0 && pages[|pages| - 1] != [] ==> |pages| <= |Visited(pages)|
  {
    hide Walk.Run;
    if |pages| > 0 {
      VisitedGrows(pages);
      if |pages| > 1 {
        var n := |pages| - 1;
        RunFront(w, pages);
        NonEmptyPages(w, pages[..n]);
        PagesNotEmpty(w, pages, n);
      }
    }
  }
}
