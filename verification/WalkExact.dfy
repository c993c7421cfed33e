/** Exactly when walking page by page works at every limit (orm/keyset.go:47-127): when the matching rows have
    NULL only where a cursor may have it. */
module WalkExact {
  import opened SqlValues
  import opened Ordering
  import opened Keyset
  import opened SelectClause
  import opened Pagination

  /** Every query that asks for another page is accepted. */
  ghost predicate CursorsAccepted(w: Walk, pages: seq<seq<Row>>)
    requires w.Sound()
  {
    forall i | 0 <= i < |pages| - 1 && pages[i] != [] :: Compilable(w.catalog, w.d, w.NextAfter(LastOf(pages[i])))
  }

  /** The pages of a whole walk: accepted queries up to an empty page, and every matching row seen in order. */
  ghost predicate IsWhole(w: Walk, pages: seq<seq<Row>>)
    requires w.Sound()
  {
    w.Run(pages) && |pages| > 0 && pages[|pages| - 1] == [] && CursorsAccepted(w, pages) && Visited(pages) == w.All()
  }

  ghost predicate Completes(w: Walk)
    requires w.Sound()
  {
    exists pages :: IsWhole(w, pages)
  }

  function Limited(w: Walk, limit: nat): Walk {
    w.(limit := limit, selection := w.selection.(pagination := SelectClause.Pagination.Pagination(Some(limit), None)))
  }

  lemma LimitedIsSound(w: Walk, limit: nat)
    requires w.Sound() && limit >= 1
    ensures Limited(w, limit).Sound() && (Limited(w, limit).NullsFit() <==> w.NullsFit())
  {
    var v := Limited(w, limit);
    assert v.Sound();
    forall row <- Rows(w.db, w.d.table)
      ensures Keeps(v.catalog, v.d, v.selection, row, v.db) <==> Keeps(w.catalog, w.d, w.selection, row, w.db)
    {
    }
  }

  // ---- walking to the end ----

  /** One page more, which the server can return. */
  lemma NextPage(w: Walk, pages: seq<seq<Row>>) returns (page: seq<Row>)
    requires w.Valid() && w.Run(pages) && CursorsAccepted(w, pages)
    requires |pages| > 0 ==> pages[|pages| - 1] != []
    ensures w.Run(pages + [page]) && CursorsAccepted(w, pages + [page])
  {
    hide Walk.Matching, Keeps, Compilable, NullsExpected, Sort, IsOrdered;
    var n := |pages|;
    var s := w.selection;
    if n > 0 {
      WalkIsAccepted(w, pages);
      s := w.NextAfter(LastOf(pages[n - 1]));
      AcceptedIsReady(w, LastOf(pages[n - 1]));
    }
    var full := Sort(w.Order(), w.Matching(s));
    SortIsOrdered(w.Order(), w.Matching(s));
    page := Page(full, 0, w.limit);
    assert w.Answers(s, page);
    forall i | 0 <= i <= n
      ensures w.Step(pages + [page], i)
    {
      if i < n { assert w.Step(pages, i); }
    }
  }

  lemma AcceptedIsReady(w: Walk, last: Row)
    requires w.Sound() && Compilable(w.catalog, w.d, w.NextAfter(last))
    ensures SeekReady(w.d, w.NextAfter(last))
  {
    ValidIsReady(w.d, w.selection.orderBy, CursorOf(w.d, w.selection.orderBy, last), false);
  }

  lemma {:induction false} WalkOn(w: Walk, pages: seq<seq<Row>>) returns (whole: seq<seq<Row>>)
    requires w.Valid() && w.Run(pages) && CursorsAccepted(w, pages)
    requires |pages| > 0 ==> pages[|pages| - 1] != []
    ensures IsWhole(w, whole)
    decreases |w.All()| - |pages|
  {
    hide Walk.Run, Walk.All, CursorsAccepted;
    var page := NextPage(w, pages);
    var more := pages + [page];
    WalkIsCompleteAndStops(w, more);
    if page == [] {
      whole := more;
    } else {
      whole := WalkOn(w, more);
    }
  }

  lemma NullsFitCompletes(w: Walk)
    requires w.Valid()
    ensures Completes(w)
  {
    var whole := WalkOn(w, []);
  }

  // ---- what a walk of single rows shows ----

  lemma {:induction false} VisitedAt(pages: seq<seq<Row>>, row: Row) returns (i: nat)
    requires row in Visited(pages)
    ensures i < |pages| && row in pages[i]
  {
    var n := |pages| - 1;
    if row in pages[n] {
      i := n;
    } else {
      i := VisitedAt(pages[..n], row);
    }
  }

  lemma PageIsShort(w: Walk, pages: seq<seq<Row>>, i: nat)
    requires w.Sound() && w.Run(pages) && i < |pages|
    ensures |pages[i]| <= w.limit
  {
    hide IsOrdered, Walk.Matching, Keeps;
    assert w.Step(pages, i);
  }

  /** A row whose cursor is accepted has NULL only where a cursor may have it. */
  lemma AcceptedCursorFits(w: Walk, row: Row)
    requires w.Sound() && Compilable(w.catalog, w.d, w.NextAfter(row))
    ensures NullsExpected(w.d, w.selection.orderBy, row)
  {
    var orderBy := w.selection.orderBy;
    var cursor := CursorOf(w.d, orderBy, row);
    assert FitsUpTo(w.d, orderBy, cursor, |orderBy|);
    forall i | 0 <= i < |orderBy| && w.d.FieldByGoName(orderBy[i].field).Some? && RowCell(w.d, orderBy, row, i).None?
      ensures !AlwaysHasValue(FieldAt(w.d, orderBy, i))
    {
      assert CursorFits(w.d, orderBy[i], cursor[i]);
    }
  }

  lemma SingleRowsShow(w: Walk)
    requires w.Sound() && w.limit == 1 && Completes(w)
    ensures w.NullsFit()
  {
    hide Walk.Run, Compilable, NullsExpected, Walk.All;
    var pages :| IsWhole(w, pages);
    forall row <- Rows(w.db, w.d.table) | Keeps(w.catalog, w.d, w.selection, row, w.db)
      ensures NullsExpected(w.d, w.selection.orderBy, row)
    {
      MatchingIsSeen(w, row);
      var i := VisitedAt(pages, row);
      PageIsShort(w, pages, i);
      assert i < |pages| - 1 && LastOf(pages[i]) == row;
      AcceptedCursorFits(w, row);
    }
  }

  lemma MatchingIsSeen(w: Walk, row: Row)
    requires w.Sound() && row in Rows(w.db, w.d.table) && Keeps(w.catalog, w.d, w.selection, row, w.db)
    ensures row in w.All()
  {
    hide Keeps, IsOrdered;
    FilterIn(Rows(w.db, w.d.table), r => Keeps(w.catalog, w.d, w.selection, r, w.db));
    SortHasAll(w, row);
  }

  lemma SortHasAll(w: Walk, row: Row)
    requires w.Sound() && row in w.Matching(w.selection)
    ensures row in w.All()
  {
    hide Walk.Matching;
    AllIsOrdered(w);
    assert row in multiset(w.Matching(w.selection));
    assert row in multiset(w.All());
  }

  /** Walking works at every limit, each query accepted and no matching row left out, if and only if the matching
      rows have NULL only where a cursor may have it. */
  lemma WalksCompleteIff(w: Walk)
    requires w.Sound()
    ensures forall limit: nat | limit >= 1 :: Limited(w, limit).Sound()
    ensures w.NullsFit() <==> forall limit: nat | limit >= 1 :: Completes(Limited(w, limit))
  {
    hide Walk.Sound, Walk.NullsFit, Completes;
    forall limit: nat | limit >= 1
      ensures Limited(w, limit).Sound() && (w.NullsFit() ==> Completes(Limited(w, limit)))
    {
      LimitedIsSound(w, limit);
      if w.NullsFit() { NullsFitCompletes(Limited(w, limit)); }
    }
    LimitedIsSound(w, 1);
    if Completes(Limited(w, 1)) { SingleRowsShow(Limited(w, 1)); }
  }
}
