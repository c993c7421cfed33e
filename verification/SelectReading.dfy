/** Reading the clauses of an ordinary SELECT back whole (orm/select_clause.go:165-290, 322-356), what they return,
    and the walk of orm/keyset.go as a walk of compiled statements. */
module SelectReading {
  import opened SqlValues
  import opened SqlText
  import opened SqlClause
  import opened StatementLists
  import opened Schema
  import opened PredicateMeaning
  import opened Ordering
  import opened Keyset
  import opened SelectClause
  import opened Pagination
  import opened WalkExact
  import opened RelationFirstWriter
  import opened TopNReading

  /** [AS alias] [WHERE ...] [ORDER BY ...] [LIMIT ? [OFFSET ?]]. */
  datatype SelectRead = SelectRead(
    alias: string, where: Option<Condition>, order: seq<OrderedColumn>, page: Option<LimitRead>)

  datatype AliasRead = AliasRead(alias: string, rest: seq<Token>)

  function ParseAlias(text: seq<Token>): AliasRead {
    if |text| >= 2 && text[0] == Word(AS) && text[1].Ident? then AliasRead(text[1].name, text[2..])
    else AliasRead("", text)
  }

  function ParseOrdering(text: seq<Token>): Listed<OrderedColumn> {
    if |text| < 2 || text[0] != Word(ORDER) || text[1] != Word(BY) then Listed([], text)
    else ParseOrder(text[2..])
  }

  function ParsePaging(text: seq<Token>, args: seq<Value>): Parsed<Option<LimitRead>> {
    if !StartsWord(text, LIMIT) then Got(None, text, args)
    else
      match ParseLimit(text, args)
      case Bad => Bad
      case Got(page, rest, more) => Got(Some(page), rest, more)
  }

  function ParseSelect(text: seq<Token>, args: seq<Value>): Parsed<SelectRead> {
    var named := ParseAlias(text);
    match ParseWhere(named.rest, args)
    case Bad => Bad
    case Got(where, rest, more) =>
      match ParseOrdering(rest)
      case NoList => Bad
      case Listed(order, rest') =>
        match ParsePaging(rest', more)
        case Bad => Bad
        case Got(page, rest'', more') => Got(SelectRead(named.alias, where, order, page), rest'', more')
  }

  // ---- the clauses are read ----

  function OrderColumns(d: Descriptor, orderBy: seq<OrderTerm>): (columns: seq<string>)
    requires FieldsKnown(d, orderBy)
    ensures |columns| == |orderBy|
  {
    seq(|orderBy|, i requires 0 <= i < |orderBy| => d.FieldByGoName(orderBy[i].field).value.column)
  }

  lemma {:induction false} OrderIsList(d: Descriptor, orderBy: seq<OrderTerm>, qualifier: string)
    requires FieldsKnown(d, orderBy) && |orderBy| > 0
    ensures OrderText(d, orderBy, qualifier)
      == [Word(ORDER), Word(BY)] + KeyOrderList(qualifier, OrderColumns(d, orderBy), orderBy)
  {
    hide ColumnText;
    var n := |orderBy| - 1;
    var columns := OrderColumns(d, orderBy);
    OrderUnfold(qualifier, columns, orderBy);
    assert OrderColumns(d, orderBy[..n]) == columns[..n];
    if n > 0 {
      OrderIsList(d, orderBy[..n], qualifier);
      var list, one := KeyOrderList(qualifier, columns[..n], orderBy[..n]), OrderTermText(d, orderBy[n], qualifier);
      Regroup([Word(ORDER), Word(BY)], list, [Comma]);
      Regroup([Word(ORDER), Word(BY)], list + [Comma], one);
    }
  }

  lemma OrderingReads(d: Descriptor, orderBy: seq<OrderTerm>, qualifier: string, p: SelectClause.Pagination)
    requires FieldsKnown(d, orderBy)
    ensures ParseOrdering(OrderText(d, orderBy, qualifier) + LimitText(p))
      == Listed(OrderRefs(qualifier, OrderColumns(d, orderBy), orderBy), LimitText(p))
  {
    hide KeyOrderList, ParseOrder, OrderText;
    if |orderBy| > 0 {
      var list := KeyOrderList(qualifier, OrderColumns(d, orderBy), orderBy);
      OrderIsList(d, orderBy, qualifier);
      Regroup([Word(ORDER), Word(BY)], list, LimitText(p));
      assert ([Word(ORDER), Word(BY)] + (list + LimitText(p)))[2..] == list + LimitText(p);
      OrderReads(qualifier, OrderColumns(d, orderBy), orderBy, LimitText(p));
    } else {
      assert OrderText(d, orderBy, qualifier) + LimitText(p) == LimitText(p) by { NoOrder(d, qualifier); }
    }
  }

  lemma NoOrder(d: Descriptor, qualifier: string)
    ensures OrderText(d, [], qualifier) == []
  {
  }

  lemma PagingReads(p: SelectClause.Pagination)
    requires p.Valid()
    ensures ParsePaging(LimitText(p), LimitArgs(p)) == Got(if p.limit.Some? then Some(PageOf(p)) else None, [], [])
  {
    assert LimitText(p) + [] == LimitText(p) && LimitArgs(p) + [] == LimitArgs(p);
    if p.limit.Some? {
      LimitReads(p, [], []);
    }
  }

  lemma TailCloses(d: Descriptor, s: Selection, qualifier: string)
    requires FieldsKnown(d, s.orderBy) && s.pagination.Valid()
    ensures Closes(TailText(d, s, qualifier))
  {
    hide OrderText;
    if |s.orderBy| > 0 { OrderStarts(d, s.orderBy, qualifier); } else { NoOrder(d, qualifier); }
  }

  lemma AliasReads(base: string, ps: seq<Predicate>, rest: seq<Token>)
    requires !StartsWord(rest, AS)
    ensures ParseAlias(RootAliasText(base, ps) + rest)
      == AliasRead(if base == "" && AnyRelation(ps) then ROOT_ALIAS else "", rest)
  {
    hide AnyRelation;
    var alias := RootAliasText(base, ps);
    if alias == [] {
      assert alias + rest == rest;
    } else {
      assert (alias + rest)[2..] == rest;
    }
  }

  /** What the clauses of a selection read as. */
  function ReadOf(catalog: Catalog, d: Descriptor, base: string, s: Selection): SelectRead
    requires AllAccepted(s.predicates, catalog, d) && FieldsKnown(d, s.orderBy) && SeekReady(d, s)
  {
    var qualifier := RootQualifier(base, s.predicates);
    var cs := WhereClauses(catalog, d, s, qualifier);
    SelectRead(
      if base == "" && AnyRelation(s.predicates) then ROOT_ALIAS else "",
      if |cs| == 0 then None else Some(PlainJoined(AND, cs)),
      OrderRefs(qualifier, OrderColumns(d, s.orderBy), s.orderBy),
      if s.pagination.limit.Some? then Some(PageOf(s.pagination)) else None)
  }

  /** The clauses are read whole, and every argument is taken by its placeholder. */
  lemma SelectReads(catalog: Catalog, d: Descriptor, base: string, s: Selection)
    requires AllAccepted(s.predicates, catalog, d) && FieldsKnown(d, s.orderBy) && SeekReady(d, s)
    requires s.pagination.Valid()
    ensures ParseSelect(ClausesText(catalog, d, base, s), ClausesArgs(catalog, d, base, s))
      == Got(ReadOf(catalog, d, base, s), [], [])
  {
    hide WhereText, WhereClauses, OrderText, LimitText, LimitArgs, AllArgs, ParseWhere, ParseOrdering, ParsePaging;
    hide PlainJoined, OrderRefs, AnyRelation, Closes;
    var qualifier := RootQualifier(base, s.predicates);
    var cs := WhereClauses(catalog, d, s, qualifier);
    var tail := TailText(d, s, qualifier);
    WhereFollows(cs, d, s, qualifier);
    AliasReads(base, s.predicates, WhereText(cs) + tail);
    TailCloses(d, s, qualifier);
    WhereReads(cs, tail, LimitArgs(s.pagination));
    OrderingReads(d, s.orderBy, qualifier, s.pagination);
    PagingReads(s.pagination);
  }

  lemma WhereFollows(cs: seq<Clause>, d: Descriptor, s: Selection, qualifier: string)
    requires AllWellFormed(cs) && FieldsKnown(d, s.orderBy) && s.pagination.Valid()
    ensures !StartsWord(WhereText(cs) + TailText(d, s, qualifier), AS)
  {
    hide TailText, PrintJoined;
    TailCloses(d, s, qualifier);
  }

  // ---- what the server returns ----

  /** The part of a sorted result that LIMIT and OFFSET leave. */
  function Cut(rows: seq<Row>, page: Option<LimitRead>): seq<Row> {
    if page.None? then rows
    else
      Page(rows, if page.value.offset.Some? then Natural(page.value.offset.value) else 0, Natural(page.value.limit))
  }

  /** Rows the server may return for clauses that follow the table, or the table under the caller's alias:
      those the WHERE is TRUE for, in the order of the ORDER BY, cut to the page. */
  ghost predicate Returns(read: SelectRead, table: string, base: string, db: Database, out: seq<Row>) {
    var name := if read.alias == "" then base else read.alias;
    && AllOf(name, [], read.order)
    && exists full ::
      && IsOrdered(OrderOfColumns(read.order),
        Filter(Rows(db, table), row => Holds(read.where, TableScope(table, name, row), db)), full)
      && out == Cut(full, read.page)
  }

  /** What the caller asked for: the rows the selection keeps, in the order of its terms, cut to its page. */
  ghost predicate Wanted(catalog: Catalog, d: Descriptor, s: Selection, db: Database, out: seq<Row>)
    requires AllAccepted(s.predicates, catalog, d) && FieldsKnown(d, s.orderBy) && SeekReady(d, s)
  {
    exists full ::
      && IsOrdered(OrderOf(d, s.orderBy), Filter(Rows(db, d.table), row => Keeps(catalog, d, s, row, db)), full)
      && out == Asked(full, s.pagination)
  }

  function Asked(rows: seq<Row>, p: SelectClause.Pagination): seq<Row> {
    if p.limit.None? || p.limit.value < 0 then rows
    else Page(rows, if p.offset.Some? && p.offset.value > 0 then p.offset.value else 0, p.limit.value)
  }

  lemma CutIsAsked(rows: seq<Row>, p: SelectClause.Pagination)
    requires p.Valid()
    ensures Cut(rows, if p.limit.Some? then Some(PageOf(p)) else None) == Asked(rows, p)
  {
  }

  lemma OrderIsWanted(d: Descriptor, orderBy: seq<OrderTerm>, qualifier: string)
    requires FieldsKnown(d, orderBy)
    ensures OrderOfColumns(OrderRefs(qualifier, OrderColumns(d, orderBy), orderBy)) == OrderOf(d, orderBy)
    ensures AllOf(qualifier, [], OrderRefs(qualifier, OrderColumns(d, orderBy), orderBy))
  {
    var o := OrderOfColumns(OrderRefs(qualifier, OrderColumns(d, orderBy), orderBy));
    assert o.columns == OrderOf(d, orderBy).columns && o.descending == OrderOf(d, orderBy).descending;
  }

  lemma RowsAgree(catalog: Catalog, d: Descriptor, base: string, s: Selection, db: Database)
    requires AllAccepted(s.predicates, catalog, d) && FieldsKnown(d, s.orderBy) && SeekReady(d, s)
    requires RootNameFree(if base == "" then d.table else base)
    ensures var read := ReadOf(catalog, d, base, s);
      var name := RootQualifier(base, s.predicates);
      Filter(Rows(db, d.table), row => Holds(read.where, TableScope(d.table, name, row), db))
      == Filter(Rows(db, d.table), row => Keeps(catalog, d, s, row, db))
  {
    hide WhereClauses, PlainJoined, Eval, Keeps, OrderRefs, AnyRelation;
    var read := ReadOf(catalog, d, base, s);
    var name := RootQualifier(base, s.predicates);
    RootAliasIsFree();
    forall row: Row
      ensures Holds(read.where, TableScope(d.table, name, row), db) <==> Keeps(catalog, d, s, row, db)
    {
      ClausesKeep(catalog, d, s, name, row, db);
    }
    FilterSame(Rows(db, d.table), row => Holds(read.where, TableScope(d.table, name, row), db),
      row => Keeps(catalog, d, s, row, db));
  }

  /** The compiled clauses, read back, return exactly what the selection asks for, and nothing is left unread. */
  lemma SelectAnswers(catalog: Catalog, d: Descriptor, base: string, s: Selection, db: Database, out: seq<Row>)
    requires AllAccepted(s.predicates, catalog, d) && FieldsKnown(d, s.orderBy) && SeekReady(d, s)
    requires s.pagination.Valid() && RootNameFree(if base == "" then d.table else base)
    ensures var read := ParseSelect(ClausesText(catalog, d, base, s), ClausesArgs(catalog, d, base, s));
      && read.Got? && read.rest == [] && read.more == []
      && (Returns(read.item, d.table, base, db, out) <==> Wanted(catalog, d, s, db, out))
  {
    hide ClausesText, ClausesArgs, ParseSelect, WhereClauses, PlainJoined, Keeps, OrderRefs, OrderOf, Holds;
    hide AnyRelation, Asked, Cut, OrderOfColumns, AllOf, IsOrdered;
    SelectReads(catalog, d, base, s);
    RowsAgree(catalog, d, base, s, db);
    OrderIsWanted(d, s.orderBy, RootQualifier(base, s.predicates));
    forall full
      ensures Cut(full, ReadOf(catalog, d, base, s).page) == Asked(full, s.pagination)
    {
      CutIsAsked(full, s.pagination);
    }
  }

  // ---- the walk, statement by statement ----

  /** The page is what the server returns for the compiled text of a selection. */
  ghost predicate TextReturns(w: Walk, base: string, s: Selection, page: seq<Row>)
    requires AllAccepted(s.predicates, w.catalog, w.d) && FieldsKnown(w.d, s.orderBy) && SeekReady(w.d, s)
  {
    var read := ParseSelect(ClausesText(w.catalog, w.d, base, s), ClausesArgs(w.catalog, w.d, base, s));
    read.Got? && read.rest == [] && read.more == [] && Returns(read.item, w.d.table, base, w.db, page)
  }

  ghost predicate TextStep(w: Walk, base: string, pages: seq<seq<Row>>, i: nat)
    requires w.Sound() && i < |pages|
  {
    if i == 0 then TextReturns(w, base, w.selection, pages[0])
    else
      && pages[i - 1] != []
      && SeekReady(w.d, w.NextAfter(LastOf(pages[i - 1])))
      && TextReturns(w, base, w.NextAfter(LastOf(pages[i - 1])), pages[i])
  }

  /** Each page is returned by the text compiled for it, the next cursor taken from its last row. */
  ghost predicate TextRun(w: Walk, base: string, pages: seq<seq<Row>>)
    requires w.Sound()
  {
    forall i | 0 <= i < |pages| :: TextStep(w, base, pages, i)
  }

  predicate OfWalk(w: Walk, s: Selection)
  {
    s.predicates == w.selection.predicates && s.orderBy == w.selection.orderBy &&
    s.pagination == w.selection.pagination
  }

  lemma TextAnswersPage(w: Walk, base: string, s: Selection, page: seq<Row>)
    requires w.Sound() && RootNameFree(if base == "" then w.d.table else base)
    requires OfWalk(w, s) && SeekReady(w.d, s)
    ensures TextReturns(w, base, s, page) <==> w.Answers(s, page)
  {
    hide ParseSelect, ClausesText, ClausesArgs, Returns, Keeps, IsOrdered, OrderOf;
    SelectAnswers(w.catalog, w.d, base, s, w.db, page);
    FilterSame(Rows(w.db, w.d.table), row => Keeps(w.catalog, w.d, s, row, w.db),
      row => Keeps(w.catalog, w.d, s, row, w.db));
    forall full: seq<Row>
      ensures Asked(full, s.pagination) == Page(full, 0, w.limit)
    {
    }
  }

  lemma TextRunIsRun(w: Walk, base: string, pages: seq<seq<Row>>)
    requires w.Sound() && RootNameFree(if base == "" then w.d.table else base)
    ensures TextRun(w, base, pages) <==> w.Run(pages)
  {
    hide TextReturns, Walk.Answers, Walk.Sound, SeekReady;
    forall i | 0 <= i < |pages|
      ensures TextStep(w, base, pages, i) <==> w.Step(pages, i)
    {
      TextStepIsStep(w, base, pages, i);
    }
  }

  lemma TextStepIsStep(w: Walk, base: string, pages: seq<seq<Row>>, i: nat)
    requires w.Sound() && i < |pages| && RootNameFree(if base == "" then w.d.table else base)
    ensures TextStep(w, base, pages, i) <==> w.Step(pages, i)
  {
    hide TextReturns, Walk.Answers;
    if i == 0 {
      TextAnswersPage(w, base, w.selection, pages[0]);
    } else if pages[i - 1] != [] && SeekReady(w.d, w.NextAfter(LastOf(pages[i - 1]))) {
      TextAnswersPage(w, base, w.NextAfter(LastOf(pages[i - 1])), pages[i]);
    }
  }

  /** Running the compiled statements one after another shows the matching rows in the caller's order, each once:
      what has been seen is a prefix of them all, and all of them once a page is empty. */
  lemma TextWalkVisits(w: Walk, base: string, pages: seq<seq<Row>>)
    requires w.Valid() && RootNameFree(if base == "" then w.d.table else base) && TextRun(w, base, pages)
    ensures |Visited(pages)| <= |w.All()| && Visited(pages) == w.All()[..|Visited(pages)|]
    ensures |pages| > 0 && pages[|pages| - 1] == [] ==> Visited(pages) == w.All()
    ensures |pages| > 0 && pages[|pages| - 1] != [] ==>
      |pages| <= |w.All()| && Compilable(w.catalog, w.d, w.NextAfter(LastOf(pages[|pages| - 1])))
  {
    hide TextRun, Walk.Run, Walk.Sound, Walk.NullsFit, Walk.All, Compilable;
    TextRunIsRun(w, base, pages);
    WalkVisitsInOrder(w, pages);
    if |pages| > 0 {
      WalkIsCompleteAndStops(w, pages);
      if pages[|pages| - 1] != [] { WalkIsAccepted(w, pages); }
    }
  }

  /** The pages of a whole walk of statements. */
  ghost predicate TextCompletes(w: Walk, base: string)
    requires w.Sound()
  {
    exists pages :: TextWhole(w, base, pages)
  }

  ghost predicate TextWhole(w: Walk, base: string, pages: seq<seq<Row>>)
    requires w.Sound()
  {
    && TextRun(w, base, pages) && |pages| > 0 && pages[|pages| - 1] == []
    && CursorsAccepted(w, pages) && Visited(pages) == w.All()
  }

  lemma TextCompletesIff(w: Walk, base: string)
    requires w.Sound() && RootNameFree(if base == "" then w.d.table else base)
    ensures TextCompletes(w, base) <==> Completes(w)
  {
    hide TextRun, Walk.Run, Walk.Sound, Walk.All, CursorsAccepted;
    if pages :| TextWhole(w, base, pages) {
      TextRunIsRun(w, base, pages);
      assert IsWhole(w, pages);
    }
    if pages :| IsWhole(w, pages) {
      TextRunIsRun(w, base, pages);
      assert TextWhole(w, base, pages);
    }
  }

  /** The statements show every matching row, each accepted, at every limit if and only if the matching rows have NULL
      only in columns whose field can stand for it. */
  lemma TextWalksCompleteIff(w: Walk, base: string)
    requires w.Sound() && RootNameFree(if base == "" then w.d.table else base)
    ensures forall limit: nat | limit >= 1 :: Limited(w, limit).Sound()
    ensures w.NullsFit() <==> forall limit: nat | limit >= 1 :: TextCompletes(Limited(w, limit), base)
  {
    hide Walk.Sound, Walk.NullsFit, Completes, TextCompletes;
    WalksCompleteIff(w);
    forall limit: nat | limit >= 1
      ensures TextCompletes(Limited(w, limit), base) <==> Completes(Limited(w, limit))
    {
      TextCompletesIff(Limited(w, limit), base);
    }
  }
}
