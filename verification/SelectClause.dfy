/** The clauses of a SELECT (orm/select_clause.go): soft-delete scope, predicates and seek condition
    in one WHERE, then ORDER BY, LIMIT and OFFSET, with one argument list. */
module SelectClause {
  import opened SqlValues
  import opened SqlText
  import opened SqlClause
  import opened Schema
  import opened PredicateMeaning
  import opened PredicateCompiler
  import opened PredicateWriter
  import opened Keyset
  import opened KeysetWriter

  datatype Pagination = Pagination(limit: Option<int>, offset: Option<int>)
  {
    predicate Valid() {
      && (offset.Some? ==> limit.Some? && offset.value >= 0)
      && (limit.Some? ==> limit.value >= 0)
    }
  }

  datatype Selection = Selection(
    predicates: seq<Predicate>,
    orderBy: seq<OrderTerm>,
    seekAfter: Option<seq<CursorValue>>,
    pagination: Pagination,
    withDeleted: bool)

  /** Whether a tree needs its source row under an alias: the flag the constructors fold. */
  predicate HasRelation(p: Predicate) {
    p.operator == OpHasRelation ||
    ((p.operator == OpAnd || p.operator == OpOr || p.operator == OpNot) &&
     exists i :: 0 <= i < |p.children| && HasRelation(p.children[i]))
  }

  predicate AnyRelation(ps: seq<Predicate>) {
    exists i :: 0 <= i < |ps| && HasRelation(ps[i])
  }

  const ROOT_ALIAS := "tidbgo_r0"

  function RootQualifier(base: string, ps: seq<Predicate>): string {
    if base == "" && AnyRelation(ps) then ROOT_ALIAS else base
  }

  function RootAliasText(base: string, ps: seq<Predicate>): seq<Token> {
    if base == "" && AnyRelation(ps) then [Word(AS), Ident(ROOT_ALIAS)] else []
  }

  function ActiveSoftDelete(d: Descriptor, withDeleted: bool): Option<string> {
    if withDeleted then None else SoftDeleteColumn(d)
  }

  predicate FieldsKnown(d: Descriptor, orderBy: seq<OrderTerm>) {
    forall i | 0 <= i < |orderBy| :: d.FieldByGoName(orderBy[i].field).Some?
  }

  predicate OrderByValid(d: Descriptor, orderBy: seq<OrderTerm>) {
    FieldsKnown(d, orderBy) && forall i | 0 <= i < |orderBy| :: OrderFieldResolves(d, orderBy, i)
  }

  /** The selections the compiler accepts. */
  predicate Compilable(catalog: Catalog, d: Descriptor, s: Selection) {
    && s.pagination.Valid()
    && SeekValid(d, s.orderBy, s.seekAfter, s.pagination.offset.Some?)
    && AllAccepted(s.predicates, catalog, d)
    && OrderByValid(d, s.orderBy)
  }

  function SoftDeleteClauses(d: Descriptor, s: Selection, qualifier: string): (cs: seq<Clause>)
    ensures AllWellFormed(cs)
  {
    LiveClause(qualifier, ActiveSoftDelete(d, s.withDeleted))
  }

  function SeekClauses(d: Descriptor, s: Selection, qualifier: string): (cs: seq<Clause>)
    requires s.seekAfter.Some? ==> Ready(d, s.orderBy, s.seekAfter.value)
    ensures AllWellFormed(cs)
  {
    if s.seekAfter.None? then [] else [Level(d, s.orderBy, s.seekAfter.value, qualifier, 0)]
  }

  predicate SeekReady(d: Descriptor, s: Selection) {
    s.seekAfter.Some? ==> Ready(d, s.orderBy, s.seekAfter.value)
  }

  /** Everything that is joined by AND in the WHERE. */
  function WhereClauses(catalog: Catalog, d: Descriptor, s: Selection, qualifier: string): (cs: seq<Clause>)
    requires AllAccepted(s.predicates, catalog, d) && SeekReady(d, s)
    ensures AllWellFormed(cs)
  {
    SoftDeleteClauses(d, s, qualifier)
    + WriteAll(s.predicates, catalog, Place(d, qualifier, 0, 0), 0).clauses
    + SeekClauses(d, s, qualifier)
  }

  function WhereText(cs: seq<Clause>): seq<Token>
    requires AllWellFormed(cs)
  {
    if |cs| == 0 then [] else [Word(WHERE)] + PrintJoined(AND, cs)
  }

  function OrderTermText(d: Descriptor, term: OrderTerm, qualifier: string): seq<Token>
    requires d.FieldByGoName(term.field).Some?
  {
    ColumnText(ColumnRef(qualifier, d.FieldByGoName(term.field).value.column))
    + [Word(if term.direction == Descending then DESC else ASC)]
  }

  function OrderText(d: Descriptor, orderBy: seq<OrderTerm>, qualifier: string): seq<Token>
    requires FieldsKnown(d, orderBy)
  {
    if |orderBy| == 0 then []
    else if |orderBy| == 1 then [Word(ORDER), Word(BY)] + OrderTermText(d, orderBy[0], qualifier)
    else OrderText(d, orderBy[..|orderBy| - 1], qualifier) + [Comma] + OrderTermText(d, orderBy[|orderBy| - 1],
      qualifier)
  }

  function LimitText(p: Pagination): seq<Token> {
    (if p.limit.Some? then [Word(LIMIT), Question] else []) + (if p.offset.Some? then [Word(OFFSET), Question] else [])
  }

  function LimitArgs(p: Pagination): seq<Value> {
    (if p.limit.Some? then [Int(p.limit.value)] else []) + (if p.offset.Some? then [Int(p.offset.value)] else [])
  }

  /** What follows the WHERE. */
  function TailText(d: Descriptor, s: Selection, qualifier: string): seq<Token>
    requires FieldsKnown(d, s.orderBy)
  {
    OrderText(d, s.orderBy, qualifier) + LimitText(s.pagination)
  }

  /** What the compiler appends to the FROM of the caller. */
  function ClausesText(catalog: Catalog, d: Descriptor, base: string, s: Selection): seq<Token>
    requires AllAccepted(s.predicates, catalog, d) && FieldsKnown(d, s.orderBy) && SeekReady(d, s)
  {
    var qualifier := RootQualifier(base, s.predicates);
    RootAliasText(base, s.predicates) + (WhereText(WhereClauses(catalog, d, s, qualifier)) + TailText(d, s, qualifier))
  }

  function ClausesArgs(catalog: Catalog, d: Descriptor, base: string, s: Selection): seq<Value>
    requires AllAccepted(s.predicates, catalog, d) && SeekReady(d, s)
  {
    AllArgs(WhereClauses(catalog, d, s, RootQualifier(base, s.predicates))) + LimitArgs(s.pagination)
  }

  lemma CompilableIsReady(catalog: Catalog, d: Descriptor, s: Selection)
    requires SeekValid(d, s.orderBy, s.seekAfter, s.pagination.offset.Some?)
    ensures SeekReady(d, s)
  {
    if s.seekAfter.Some? {
      ValidIsReady(d, s.orderBy, s.seekAfter.value, s.pagination.offset.Some?);
    }
  }

  /** The order clause, refused when a field repeats, is unknown or computed, or has no direction. */
  method WriteOrderBy(d: Descriptor, orderBy: seq<OrderTerm>, qualifier: string, start: seq<Token>)
    returns (ok: bool, query: seq<Token>)
    ensures ok <==> OrderByValid(d, orderBy)
    ensures ok ==> query == start + OrderText(d, orderBy, qualifier)
  {
    query := start;
    if |orderBy| == 0 {
      return true, query;
    }
    query := query + [Word(ORDER), Word(BY)];
    for index := 0 to |orderBy|
      invariant forall i | 0 <= i < index :: OrderFieldResolves(d, orderBy, i)
      invariant FieldsKnown(d, orderBy[..index])
      invariant index > 0 ==> query == start + OrderText(d, orderBy[..index], qualifier)
      invariant index == 0 ==> query == start + [Word(ORDER), Word(BY)]
    {
      var field := ResolveOrderField(d, orderBy, index);
      if field.None? {
        return false, query;
      }
      if index != 0 {
        query := query + [Comma];
      }
      query := query + OrderTermText(d, orderBy[index], qualifier);
      OrderGrows(d, orderBy, index, qualifier, start);
    }
    assert orderBy[..|orderBy|] == orderBy;
    ok := true;
  }

  lemma OrderGrows(d: Descriptor, orderBy: seq<OrderTerm>, index: nat, qualifier: string, start: seq<Token>)
    requires index < |orderBy| && FieldsKnown(d, orderBy[..index]) && d.FieldByGoName(orderBy[index].field).Some?
    ensures FieldsKnown(d, orderBy[..index + 1])
    ensures start + OrderText(d, orderBy[..index + 1], qualifier) ==
      if index == 0 then (start + [Word(ORDER), Word(BY)]) + OrderTermText(d, orderBy[0], qualifier)
      else ((start + OrderText(d, orderBy[..index], qualifier)) + [Comma]) + OrderTermText(d, orderBy[index], qualifier)
  {
    hide OrderTermText;
    var next := orderBy[..index + 1];
    assert next[..index] == orderBy[..index] && next[index] == orderBy[index];
    assert forall i | 0 <= i < index :: next[i] == orderBy[..index][i];
  }

  method CompileSelectClauses(catalog: Catalog, d: Descriptor, base: seq<Token>, baseQualifier: string, s: Selection)
    returns (ok: bool, query: seq<Token>, arguments: seq<Value>, qualifier: string)
    requires UniqueNames(d.fields)
    ensures ok <==> Compilable(catalog, d, s)
    ensures ok ==>
      && SeekReady(d, s) && qualifier == RootQualifier(baseQualifier, s.predicates)
      && query == base + ClausesText(catalog, d, baseQualifier, s)
      && arguments == ClausesArgs(catalog, d, baseQualifier, s)
  {
    hide OrderFieldResolves, SeekValid, AllArgs, WhereClauses, WhereText, OrderText, Accepted;
    query, arguments, qualifier := base, [], baseQualifier;
    if s.pagination.offset.Some? && s.pagination.limit.None? {
      return false, query, arguments, qualifier;
    }
    if s.pagination.limit.Some? && s.pagination.limit.value < 0 {
      return false, query, arguments, qualifier;
    }
    if s.pagination.offset.Some? && s.pagination.offset.value < 0 {
      return false, query, arguments, qualifier;
    }
    var seekOk := ValidateSeekAfter(d, s.orderBy, s.seekAfter, s.pagination.offset.Some?);
    if !seekOk {
      return false, query, arguments, qualifier;
    }
    CompilableIsReady(catalog, d, s);
    if baseQualifier == "" && AnyRelation(s.predicates) {
      qualifier := ROOT_ALIAS;
      query := query + [Word(AS), Ident(ROOT_ALIAS)];
    }
    assert query == base + RootAliasText(baseQualifier, s.predicates);
    ghost var start := query;
    ok, query, arguments := WriteWhere(catalog, d, s, qualifier, query);
    if !ok {
      return;
    }
    ghost var where := WhereText(WhereClauses(catalog, d, s, qualifier));
    ok, query := WriteOrderBy(d, s.orderBy, qualifier, query);
    if !ok {
      return;
    }
    if s.pagination.limit.Some? {
      query := query + [Word(LIMIT), Question];
      arguments := arguments + [Int(s.pagination.limit.value)];
    }
    if s.pagination.offset.Some? {
      query := query + [Word(OFFSET), Question];
      arguments := arguments + [Int(s.pagination.offset.value)];
    }
    TailWritten(start + where, OrderText(d, s.orderBy, qualifier), s.pagination,
      AllArgs(WhereClauses(catalog, d, s, qualifier)));
    Regroup(base + RootAliasText(baseQualifier, s.predicates), where, TailText(d, s, qualifier));
    Regroup(base, RootAliasText(baseQualifier, s.predicates), where + TailText(d, s, qualifier));
  }

  lemma TailWritten(q: seq<Token>, order: seq<Token>, p: Pagination, args: seq<Value>)
    requires p.Valid()
    ensures var l := if p.limit.Some? then [Word(LIMIT), Question] else [];
      var o := if p.offset.Some? then [Word(OFFSET), Question] else [];
      ((q + order) + l) + o == q + (order + LimitText(p)) && ((q + order) + []) == q + order
    ensures var l := if p.limit.Some? then [Int(p.limit.value)] else [];
      var o := if p.offset.Some? then [Int(p.offset.value)] else [];
      (args + l) + o == args + LimitArgs(p) && args + [] == args
  {
  }

  /** The WHERE, part by part; the flag tells WHERE from AND. */
  method WriteWhere(catalog: Catalog, d: Descriptor, s: Selection, qualifier: string, start: seq<Token>)
    returns (ok: bool, query: seq<Token>, arguments: seq<Value>)
    requires SeekReady(d, s)
    ensures ok <==> AllAccepted(s.predicates, catalog, d)
    ensures ok ==> query == start + WhereText(WhereClauses(catalog, d, s, qualifier))
    ensures ok ==> arguments == AllArgs(WhereClauses(catalog, d, s, qualifier))
  {
    hide WhereText, AllArgs, WriteAll, SeekClauses, SoftDeleteClauses, Accepted;
    var wroteWhere: bool;
    query, wroteWhere := WriteSoftDelete(d, s, qualifier, start);
    arguments := [];
    ghost var soft := SoftDeleteClauses(d, s, qualifier);
    SoftDeleteArgs(d, s, qualifier);
    ok, query, arguments, wroteWhere := WritePredicates(catalog, d, s.predicates, qualifier, start, soft, query,
      arguments, wroteWhere);
    if !ok {
      return;
    }
    ghost var preds := WriteAll(s.predicates, catalog, Place(d, qualifier, 0, 0), 0).clauses;
    query, arguments := WriteSeek(d, s, qualifier, start, soft + preds, query, arguments, wroteWhere);
  }

  method WriteSoftDelete(d: Descriptor, s: Selection, qualifier: string, start: seq<Token>)
    returns (query: seq<Token>, wroteWhere: bool)
    ensures query == start + WhereText(SoftDeleteClauses(d, s, qualifier))
    ensures wroteWhere <==> |SoftDeleteClauses(d, s, qualifier)| > 0
  {
    query, wroteWhere := start, false;
    var softDelete := ActiveSoftDelete(d, s.withDeleted);
    if softDelete.Some? {
      var column := ColumnRef(qualifier, softDelete.value);
      query := query + [Word(WHERE)] + (ColumnText(column) + [Word(IS), Word(NULL)]);
      wroteWhere := true;
      AtomShape(NullTest(column, false));
      One(AND, Atom(NullTest(column, false)));
      Regroup(start, [Word(WHERE)], AtomText(NullTest(column, false)));
    }
  }

  lemma SoftDeleteArgs(d: Descriptor, s: Selection, qualifier: string)
    ensures AllArgs(SoftDeleteClauses(d, s, qualifier)) == []
  {
    NoArgs(SoftDeleteClauses(d, s, qualifier));
  }

  method WritePredicates(
    catalog: Catalog, d: Descriptor, ps: seq<Predicate>, qualifier: string, ghost start: seq<Token>,
      ghost cs: seq<Clause>,
    query0: seq<Token>, arguments0: seq<Value>, wrote0: bool)
    returns (ok: bool, query: seq<Token>, arguments: seq<Value>, wroteWhere: bool)
    requires AllWellFormed(cs) && query0 == start + WhereText(cs) && arguments0 == AllArgs(cs) && (wrote0 <==> |cs| > 0)
    ensures ok <==> AllAccepted(ps, catalog, d)
    ensures ok ==>
      var all := WriteAll(ps, catalog, Place(d, qualifier, 0, 0), 0).clauses;
      && AllWellFormed(cs + all) && query == start + WhereText(cs + all) && arguments == AllArgs(cs + all)
      && (wroteWhere <==> |cs + all| > 0)
  {
    hide PrintJoined, AllArgs, WriteAll, Accepted, WhereText;
    query, arguments, wroteWhere := query0, arguments0, wrote0;
    ghost var all := if AllAccepted(ps, catalog, d)
      then WriteAll(ps, catalog, Place(d, qualifier, 0, 0), 0).clauses else [];
    if |ps| != 0 {
      query := query + [Word(if wroteWhere then AND else WHERE)];
      wroteWhere := true;
      var compiler := new Compiler(catalog, d, query, arguments, qualifier);
      ok := compiler.WriteRun(ps, AND, false);
      if ok {
        query, arguments := compiler.query, compiler.arguments;
        WhereGrows(start, cs, all);
        ArgsAppend(cs, all);
      }
    } else {
      NothingWritten(AND, false, ps, catalog, Place(d, qualifier, 0, 0), 0);
      assert cs + all == cs;
      ok := true;
    }
  }

  method WriteSeek(
    d: Descriptor, s: Selection, qualifier: string, ghost start: seq<Token>, ghost cs: seq<Clause>,
    query0: seq<Token>, arguments0: seq<Value>, wroteWhere: bool)
    returns (query: seq<Token>, arguments: seq<Value>)
    requires SeekReady(d, s)
    requires AllWellFormed(cs) && query0 == start + WhereText(cs) && arguments0 == AllArgs(cs)
    requires (wroteWhere <==> |cs| > 0)
    ensures var seek := SeekClauses(d, s, qualifier);
      AllWellFormed(cs + seek) && query == start + WhereText(cs + seek) && arguments == AllArgs(cs + seek)
  {
    hide PrintJoined, AllArgs, WhereText, Level;
    query, arguments := query0, arguments0;
    ghost var seek := SeekClauses(d, s, qualifier);
    if s.seekAfter.Some? {
      query := query + [Word(if wroteWhere then AND else WHERE)];
      var keyset := new KeysetCompiler(d, s.orderBy, s.seekAfter.value, qualifier, query, arguments);
      keyset.WriteLevel(0);
      query, arguments := keyset.query, keyset.arguments;
      One(AND, seek[0]);
      WhereGrows(start, cs, seek);
      ArgsGrow(cs, seek[0]);
    } else {
      assert cs + seek == cs;
    }
  }

  /** More clauses at the end of a WHERE, opening it when it was empty. */
  lemma WhereGrows(start: seq<Token>, cs: seq<Clause>, more: seq<Clause>)
    requires AllWellFormed(cs) && AllWellFormed(more) && |more| > 0
    ensures AllWellFormed(cs + more)
    ensures ((start + WhereText(cs)) + [Word(if |cs| > 0 then AND else WHERE)]) + PrintJoined(AND, more)
      == start + WhereText(cs + more)
    ensures RunText(AND, false, more) == PrintJoined(AND, more)
  {
    hide PrintJoined;
    var run := PrintJoined(AND, more);
    if |cs| == 0 {
      assert cs + more == more && start + WhereText(cs) == start;
      Regroup(start, [Word(WHERE)], run);
    } else {
      RunJoins(AND, cs, more);
      var w := PrintJoined(AND, cs);
      Regroup(start + ([Word(WHERE)] + w), [Word(AND)], run);
      Regroup(start, [Word(WHERE)] + w, [Word(AND)] + run);
      Regroup([Word(WHERE)], w, [Word(AND)] + run);
    }
  }

  // ---- what the WHERE keeps ----

  /** The rows a selection asks for. */
  ghost predicate Keeps(catalog: Catalog, d: Descriptor, s: Selection, row: Row, db: Database)
    requires AllAccepted(s.predicates, catalog, d) && SeekReady(d, s)
  {
    && (s.withDeleted || Undeleted(row, d))
    && AndMeaning(s.predicates, catalog, d, row, db) == True
    && (s.seekAfter.Some? ==>
          After(d, s.orderBy, s.seekAfter.value, row, 0) && !Missed(d, s.orderBy, s.seekAfter.value, row, 0))
  }

  /** One table of the FROM, under its alias or its own name. */
  function TableScope(table: string, alias: string, row: Row): Scope {
    if alias == "" then map["" := row, table := row] else map[alias := row]
  }

  function RootScope(d: Descriptor, qualifier: string, row: Row): Scope {
    TableScope(d.table, qualifier, row)
  }

  /** The name of the root table is none of the aliases the relation compiler gives out. */
  ghost predicate RootNameFree(name: string) {
    name != "" && forall n | n > 0 :: name != TargetAlias(n) && name != JunctionAlias(n)
  }

  lemma RootAliasIsFree()
    ensures RootNameFree(ROOT_ALIAS)
  {
    assert ROOT_ALIAS == TargetAlias(0);
    forall n | n > 0
      ensures ROOT_ALIAS != TargetAlias(n) && ROOT_ALIAS != JunctionAlias(n)
    {
      AliasesDistinct(0, n);
    }
  }

  /** Reading the compiled WHERE back, it is TRUE for a row exactly when the selection keeps the row,
      and the arguments it leaves are those of LIMIT and OFFSET. */
  lemma WhereSelects(catalog: Catalog, d: Descriptor, s: Selection, qualifier: string, row: Row, db: Database)
    requires AllAccepted(s.predicates, catalog, d) && FieldsKnown(d, s.orderBy) && SeekReady(d, s)
    requires RootNameFree(if qualifier == "" then d.table else qualifier)
    requires |WhereClauses(catalog, d, s, qualifier)| > 0
    ensures var cs := WhereClauses(catalog, d, s, qualifier);
      var read := ParseOr(PrintJoined(AND, cs) + TailText(d, s, qualifier), AllArgs(cs) + LimitArgs(s.pagination));
      && read.Got? && read.rest == TailText(d, s, qualifier) && read.more == LimitArgs(s.pagination)
      && (Eval(read.item, RootScope(d, qualifier, row), db) == True <==> Keeps(catalog, d, s, row, db))
  {
    hide PrintJoined, AllArgs, ParseOr, OrderText, WriteAll, Level, Eval, AndMeaning;
    var cs := WhereClauses(catalog, d, s, qualifier);
    TailStarts(d, s, qualifier);
    JoinedTextMeansClauses(cs, TailText(d, s, qualifier), LimitArgs(s.pagination));
    var scope := RootScope(d, qualifier, row);
    ClausesKeep(catalog, d, s, qualifier, row, db);
  }

  lemma {:induction false} TailStarts(d: Descriptor, s: Selection, qualifier: string)
    requires FieldsKnown(d, s.orderBy)
    ensures var tail := TailText(d, s, qualifier);
      !Starts(tail, Dot) && !StartsWord(tail, AND) && !StartsWord(tail, OR)
  {
    OrderStarts(d, s.orderBy, qualifier);
  }

  lemma {:induction false} OrderStarts(d: Descriptor, orderBy: seq<OrderTerm>, qualifier: string)
    requires FieldsKnown(d, orderBy)
    ensures |orderBy| > 0 ==> StartsWord(OrderText(d, orderBy, qualifier), ORDER)
  {
    if |orderBy| > 1 {
      OrderStarts(d, orderBy[..|orderBy| - 1], qualifier);
    }
  }

  lemma ClausesKeep(catalog: Catalog, d: Descriptor, s: Selection, qualifier: string, row: Row, db: Database)
    requires AllAccepted(s.predicates, catalog, d) && SeekReady(d, s)
    requires RootNameFree(if qualifier == "" then d.table else qualifier)
    ensures AllTrue(WhereClauses(catalog, d, s, qualifier), RootScope(d, qualifier, row), db)
      <==> Keeps(catalog, d, s, row, db)
  {
    hide Eval, PlainJoined, WriteAll, Level, AndMeaning;
    var scope := RootScope(d, qualifier, row);
    var soft := SoftDeleteClauses(d, s, qualifier);
    var preds := WriteAll(s.predicates, catalog, Place(d, qualifier, 0, 0), 0).clauses;
    var seek := SeekClauses(d, s, qualifier);
    ThreeParts(soft, preds, seek, scope, db);
    SoftKeeps(d, s, qualifier, row, db);
    PredicatesKeep(catalog, d, s, qualifier, row, db);
    SeekKeeps(d, s, qualifier, row, db);
  }

  ghost predicate AllTrue(cs: seq<Clause>, scope: Scope, db: Database)
    requires AllWellFormed(cs)
  {
    |cs| > 0 ==> Eval(PlainJoined(AND, cs), scope, db) == True
  }

  lemma ThreeParts(a: seq<Clause>, b: seq<Clause>, c: seq<Clause>, scope: Scope, db: Database)
    requires AllWellFormed(a) && AllWellFormed(b) && AllWellFormed(c)
    ensures AllWellFormed(a + b + c)
    ensures AllTrue(a + b + c, scope, db) <==> AllTrue(a, scope, db) && AllTrue(b, scope, db) && AllTrue(c, scope, db)
  {
    TwoParts(a, b, scope, db);
    TwoParts(a + b, c, scope, db);
  }

  lemma TwoParts(a: seq<Clause>, b: seq<Clause>, scope: Scope, db: Database)
    requires AllWellFormed(a) && AllWellFormed(b)
    ensures AllWellFormed(a + b)
    ensures AllTrue(a + b, scope, db) <==> AllTrue(a, scope, db) && AllTrue(b, scope, db)
  {
    if |a| == 0 {
      assert a + b == b;
    } else {
      JoinedAppend(a, b, scope, db);
    }
  }

  lemma SoftKeeps(d: Descriptor, s: Selection, qualifier: string, row: Row, db: Database)
    ensures AllTrue(SoftDeleteClauses(d, s, qualifier), RootScope(d, qualifier, row), db)
      <==> s.withDeleted || Undeleted(row, d)
  {
    LiveIsUndeleted(row, d);
    LiveMeaning(qualifier, ActiveSoftDelete(d, s.withDeleted), RootScope(d, qualifier, row), db);
  }

  lemma PredicatesKeep(catalog: Catalog, d: Descriptor, s: Selection, qualifier: string, row: Row, db: Database)
    requires AllAccepted(s.predicates, catalog, d)
    requires RootNameFree(if qualifier == "" then d.table else qualifier)
    ensures var preds := WriteAll(s.predicates, catalog, Place(d, qualifier, 0, 0), 0).clauses;
      AllTrue(preds, RootScope(d, qualifier, row), db) <==> AndMeaning(s.predicates, catalog, d, row, db) == True
  {
    if |s.predicates| > 0 {
      forall n | n > 0
        ensures TargetAlias(n) !in RootScope(d, qualifier, row) && JunctionAlias(n) !in RootScope(d, qualifier, row)
      {
        AliasesDistinct(n, n);
      }
      WriteAllMeaning(s.predicates, catalog, Place(d, qualifier, 0, 0), 0, RootScope(d, qualifier, row), row, db);
    }
  }

  lemma SeekKeeps(d: Descriptor, s: Selection, qualifier: string, row: Row, db: Database)
    requires SeekReady(d, s)
    ensures AllTrue(SeekClauses(d, s, qualifier), RootScope(d, qualifier, row), db) <==>
      (s.seekAfter.Some? ==>
         After(d, s.orderBy, s.seekAfter.value, row, 0) && !Missed(d, s.orderBy, s.seekAfter.value, row, 0))
  {
    if s.seekAfter.Some? {
      LevelMeaning(d, s.orderBy, s.seekAfter.value, qualifier, 0, RootScope(d, qualifier, row), row, db);
    }
  }
}
