/** Writing the relation-first statements: the text and its arguments in one pass
    (orm/relation_topn.go, orm/relation_count.go). */
module RelationFirstWriter {
  import opened SqlValues
  import opened SqlText
  import opened SqlClause
  import opened Schema
  import opened PredicateMeaning
  import opened PredicateCompiler
  import opened PredicateWriter
  import opened Keyset
  import opened KeysetWriter
  import opened SelectClause
  import opened RelationRewrite
  import opened RelationFirst

  const KEY_ALIAS := "tidbgo_k0"
  const JOIN_ROOT_ALIAS := "tidbgo_t0"
  const LEADING := Hint("LEADING(tidbgo_k0, tidbgo_t0)")

  // ---- the text ----

  function ColumnList(alias: string, columns: seq<string>): seq<Token> {
    if |columns| == 0 then []
    else
      ColumnList(alias, columns[..|columns| - 1]) + (if |columns| > 1 then [Comma] else [])
      + ColumnText(ColumnRef(alias, columns[|columns| - 1]))
  }

  function KeyOrderList(alias: string, columns: seq<string>, orderBy: seq<OrderTerm>): seq<Token>
    requires |columns| == |orderBy|
  {
    if |columns| == 0 then []
    else
      var n := |columns| - 1;
      KeyOrderList(alias, columns[..n], orderBy[..n]) + (if n > 0 then [Comma] else [])
      + ColumnText(ColumnRef(alias, columns[n])) + [Word(if orderBy[n].direction == Descending then DESC else ASC)]
  }

  predicate IsVia(meta: Metadata) {
    meta.junction.Some? && meta.junction.value.via
  }

  function RootJoin(meta: Metadata): (cs: seq<Clause>)
    requires Shaped(meta)
    ensures AllWellFormed(cs)
  {
    Equalities(KEY_ALIAS, AssociationColumns(meta), JOIN_ROOT_ALIAS, meta.sourceColumns)
  }

  /** SELECT root columns FROM ( SELECT association key FROM the association ... */
  function TopNHead(q: AssociationQuery, meta: Metadata, columns: seq<string>): seq<Token>
    requires q.WellFormed()
  {
    ([Word(SELECT)] + (if IsVia(meta) then [] else [LEADING])) + ColumnList(JOIN_ROOT_ALIAS, columns)
    + [Word(FROM), LParen, Word(SELECT)] + ColumnList(q.alias, AssociationColumns(meta))
    + [Word(FROM)] + TableText(q.table, q.alias) + PrintLink(q.join)
  }

  /** ... ORDER BY key LIMIT ? OFFSET ? ) AS k JOIN ... */
  function LimitedTail(q: AssociationQuery, meta: Metadata, s: Selection): seq<Token>
    requires |AssociationColumns(meta)| == |s.orderBy|
  {
    [Word(ORDER), Word(BY)] + KeyOrderList(q.alias, AssociationColumns(meta), s.orderBy) + LimitText(s.pagination)
    + [RParen, Word(AS), Ident(KEY_ALIAS), if IsVia(meta) then Literal("STRAIGHT_JOIN") else Word(JOIN)]
  }

  /** ... root ON ( key = root key ) ORDER BY root key. */
  function RootTail(d: Descriptor, meta: Metadata, s: Selection): seq<Token>
    requires Shaped(meta) && |meta.sourceColumns| == |s.orderBy|
  {
    (TableText(d.table, JOIN_ROOT_ALIAS) + [Word(ON), LParen]) + PrintJoined(AND, RootJoin(meta))
      + [RParen, Word(ORDER), Word(BY)]
    + KeyOrderList(JOIN_ROOT_ALIAS, meta.sourceColumns, s.orderBy)
  }

  function TopNTail(q: AssociationQuery, d: Descriptor, meta: Metadata, s: Selection): seq<Token>
    requires Shaped(meta) && |AssociationColumns(meta)| == |s.orderBy| == |meta.sourceColumns|
  {
    LimitedTail(q, meta, s) + RootTail(d, meta, s)
  }

  function TopNText(q: AssociationQuery, d: Descriptor, meta: Metadata, s: Selection, columns: seq<string>): seq<Token>
    requires q.WellFormed() && Shaped(meta) && |AssociationColumns(meta)| == |s.orderBy| == |meta.sourceColumns|
  {
    TopNHead(q, meta, columns) + WhereText(q.where) + TopNTail(q, d, meta, s)
  }

  function CountText(q: AssociationQuery): seq<Token>
    requires q.WellFormed()
  {
    [Word(SELECT), Literal("COUNT(*)"), Word(FROM), Ident(q.table)] + WhereText(q.where)
  }

  /** Reading the WHERE of the TopN text back gives the association query's condition, and leaves the
      arguments of LIMIT and OFFSET, in this order. */
  lemma TopNWhereReads(catalog: Catalog, d: Descriptor, s: Selection, plan: RewritePlan)
    requires PlanReady(catalog, plan)
    requires |AssociationColumns(plan.meta)| == |s.orderBy| == |plan.meta.sourceColumns|
    requires |TopNQuery(catalog, plan).where| > 0
    ensures var q := TopNQuery(catalog, plan);
      ParseOr(PrintJoined(AND, q.where) + TopNTail(q, d, plan.meta, s), AllArgs(q.where) + LimitArgs(s.pagination))
      == Got(PlainJoined(AND, q.where), TopNTail(q, d, plan.meta, s), LimitArgs(s.pagination))
  {
    hide PrintJoined, AllArgs, KeyOrderList, PlainJoined, TopNQuery, RootTail;
    var q := TopNQuery(catalog, plan);
    assert TopNTail(q, d, plan.meta, s)[0] == Word(ORDER);
    JoinedTextMeansClauses(q.where, TopNTail(q, d, plan.meta, s), LimitArgs(s.pagination));
  }

  // ---- writing it ----

  method WriteColumns(query0: seq<Token>, alias: string, columns: seq<string>) returns (query: seq<Token>)
    ensures query == query0 + ColumnList(alias, columns)
  {
    query := query0;
    for index := 0 to |columns|
      invariant query == query0 + ColumnList(alias, columns[..index])
    {
      if index != 0 {
        query := query + [Comma];
      }
      query := query + ColumnText(ColumnRef(alias, columns[index]));
      assert columns[..index + 1][..index] == columns[..index];
    }
    assert columns[..|columns|] == columns;
  }

  method WriteKeyOrder(query0: seq<Token>, alias: string, columns: seq<string>, orderBy: seq<OrderTerm>)
    returns (query: seq<Token>)
    requires |columns| == |orderBy|
    ensures query == (query0 + [Word(ORDER), Word(BY)]) + KeyOrderList(alias, columns, orderBy)
  {
    query := query0 + [Word(ORDER), Word(BY)];
    ghost var start := query;
    for index := 0 to |columns|
      invariant query == start + KeyOrderList(alias, columns[..index], orderBy[..index])
    {
      if index != 0 {
        query := query + [Comma];
      }
      query := query + ColumnText(ColumnRef(alias, columns[index]));
      query := query + [Word(if orderBy[index].direction == Descending then DESC else ASC)];
      KeyOrderGrows(start, alias, columns, orderBy, index);
    }
    assert columns[..|columns|] == columns && orderBy[..|orderBy|] == orderBy;
  }

  lemma KeyOrderGrows(start: seq<Token>, alias: string, columns: seq<string>, orderBy: seq<OrderTerm>, index: nat)
    requires |columns| == |orderBy| && index < |columns|
    ensures var way := [Word(if orderBy[index].direction == Descending then DESC else ASC)];
      var front := start + KeyOrderList(alias, columns[..index], orderBy[..index]);
      ((if index != 0 then front + [Comma] else front) + ColumnText(ColumnRef(alias, columns[index]))) + way
      == start + KeyOrderList(alias, columns[..index + 1], orderBy[..index + 1])
  {
    hide ColumnText;
    assert columns[..index + 1][..index] == columns[..index] && orderBy[..index + 1][..index] == orderBy[..index];
    var front, column := KeyOrderList(alias, columns[..index], orderBy[..index]),
      ColumnText(ColumnRef(alias, columns[index]));
    var way := [Word(if orderBy[index].direction == Descending then DESC else ASC)];
    NestFront(start, front, if index != 0 then [Comma] else [], column);
    Enclose(start + front, if index != 0 then [Comma] else [], column, way);
    Regroup(start, front, (if index != 0 then [Comma] else []) + (column + way));
    Enclose(front, if index != 0 then [Comma] else [], column, way);
    assert front + [] == front && start + front + [] == start + front;
  }

  /** One more clause at the end of a WHERE, opening it when it was empty. */
  lemma WhereTakes(start: seq<Token>, cs: seq<Clause>, c: Clause)
    requires AllWellFormed(cs) && WellFormed(c)
    ensures AllWellFormed(cs + [c])
    ensures ((start + WhereText(cs)) + [Word(if |cs| > 0 then AND else WHERE)]) + Print(c)
      == start + WhereText(cs + [c])
    ensures AllArgs(cs + [c]) == AllArgs(cs) + Args(c)
  {
    hide Print, PrintJoined, AllArgs, WhereText, Args;
    WhereGrows(start, cs, [c]);
    One(AND, c);
    ArgsGrow(cs, c);
  }

  /** The compiler's query and arguments are a prefix, a WHERE of these clauses and their arguments. */
  ghost predicate At(c: Compiler, start: seq<Token>, cs: seq<Clause>)
    reads c
  {
    AllWellFormed(cs) && c.query == start + WhereText(cs) && c.arguments == AllArgs(cs)
  }

  method WriteNullTest(c: Compiler, ghost start: seq<Token>, ghost cs: seq<Clause>, qualifier: string,
    column: string, negated: bool, wroteWhere: bool)
    requires At(c, start, cs) && (wroteWhere <==> |cs| > 0)
    modifies c`query
    ensures At(c, start, cs + [Atom(NullTest(ColumnRef(qualifier, column), negated))])
  {
    hide WhereText, AllArgs;
    ghost var test := NullTest(ColumnRef(qualifier, column), negated);
    c.query := c.query + [Word(if wroteWhere then AND else WHERE)];
    ghost var before := c.query;
    c.query := c.query + ColumnText(ColumnRef(qualifier, column));
    c.query := c.query + if negated then [Word(IS), Word(NOT), Word(NULL)] else [Word(IS), Word(NULL)];
    Regroup(before, ColumnText(ColumnRef(qualifier, column)), AtomTail(test));
    AtomShape(test);
    WhereTakes(start, cs, Atom(test));
    NoArguments(cs, test);
  }

  lemma NoArguments(cs: seq<Clause>, test: Condition)
    requires AllWellFormed(cs) && test.NullTest?
    ensures Args(Atom(test)) == [] && AllArgs(cs) + [] == AllArgs(cs)
  {
  }

  method WriteJunctionScope(c: Compiler, ghost start: seq<Token>, ghost cs: seq<Clause>, qualifier: string,
    junction: Option<JunctionMetadata>, wrote0: bool)
    returns (wroteWhere: bool)
    requires At(c, start, cs) && (wrote0 <==> |cs| > 0)
    modifies c`query
    ensures At(c, start, cs + JunctionScope(junction, qualifier))
    ensures (wroteWhere <==> |cs + JunctionScope(junction, qualifier)| > 0)
  {
    hide WhereText, AllArgs;
    wroteWhere := wrote0;
    if junction.None? {
      assert cs + JunctionScope(junction, qualifier) == cs;
      return;
    }
    var j := junction.value;
    ghost var live := cs + LiveClause(qualifier, j.softDelete);
    if j.softDelete.Some? {
      WriteNullTest(c, start, cs, qualifier, j.softDelete.value, false, wroteWhere);
      wroteWhere := true;
    } else {
      assert live == cs;
    }
    ghost var tests := NotNullClauses(qualifier, j.nonNull);
    assert live + tests[..0] == live;
    for index := 0 to |j.nonNull|
      invariant At(c, start, live + tests[..index])
      invariant wroteWhere <==> |live + tests[..index]| > 0
    {
      WriteNullTest(c, start, live + tests[..index], qualifier, j.nonNull[index], true, wroteWhere);
      wroteWhere := true;
      assert live + tests[..index + 1] == live + tests[..index] + [tests[index]];
    }
    assert live + tests[..|j.nonNull|] == cs + JunctionScope(junction, qualifier);
  }

  /** Writes a condition on the target key against the junction's own column. */
  method WriteJunctionPredicate(c: Compiler, p: Predicate, meta: Metadata) returns (ok: bool)
    requires Shaped(meta) && meta.junction.Some? && JunctionOnly(meta.targetNames, p) && c.descriptor == meta.target
    modifies c`query, c`arguments
    ensures ok <==> JunctionAccepted(p, meta)
    ensures ok ==> c.query == old(c.query) + Print(JunctionClause(p, meta, c.qualifier))
    ensures ok ==> c.arguments == old(c.arguments) + Args(JunctionClause(p, meta, c.qualifier))
    decreases p
  {
    if p.operator == OpEqual {
      var found := c.descriptor.FieldByGoName(p.field);
      if found.None? || found.value.computed {
        return false;
      }
      if |p.values| != 1 || !found.value.canValue || p.values[0] == Nil {
        return false;
      }
      var column := ColumnRef(c.qualifier, JunctionColumn(meta, p.field));
      c.query := c.query + ColumnText(column);
      c.query := c.query + [Op(Equal), Question];
      c.arguments := c.arguments + [p.values[0].value];
      Regroup(old(c.query), ColumnText(column), [Op(Equal), Question]);
      AtomShape(Compare(column, Equal, p.values[0].value));
      return true;
    }
    if p.field != "" || |p.values| != 0 {
      return false;
    }
    c.query := c.query + [LParen];
    ok := WriteJunctionRun(c, p, meta);
    c.query := c.query + [RParen];
    if ok {
      JunctionGroup(old(c.query), p, meta, c.qualifier);
    }
  }

  lemma JunctionGroup(q: seq<Token>, p: Predicate, meta: Metadata, qualifier: string)
    requires Shaped(meta) && meta.junction.Some? && p.operator == OpAnd
    requires JunctionOnly(meta.targetNames, p) && JunctionAccepted(p, meta) && JunctionAllAccepted(p.children, meta)
    ensures ((q + [LParen]) + PrintJoined(AND, JunctionClauses(p.children, meta, qualifier))) + [RParen]
      == q + Print(JunctionClause(p, meta, qualifier))
    ensures Args(JunctionClause(p, meta, qualifier)) == AllArgs(JunctionClauses(p.children, meta, qualifier))
  {
    hide PrintJoined, AllArgs;
    var cs := JunctionClauses(p.children, meta, qualifier);
    assert JunctionClause(p, meta, qualifier) == Group(AND, cs);
    Enclose(q, [LParen], PrintJoined(AND, cs), [RParen]);
  }

  method WriteJunctionRun(c: Compiler, p: Predicate, meta: Metadata) returns (ok: bool)
    requires Shaped(meta) && meta.junction.Some? && c.descriptor == meta.target
    requires p.operator == OpAnd && JunctionOnly(meta.targetNames, p)
    modifies c`query, c`arguments
    ensures ok <==> JunctionAllAccepted(p.children, meta)
    ensures ok ==> c.query == old(c.query) + PrintJoined(AND, JunctionClauses(p.children, meta, c.qualifier))
    ensures ok ==> c.arguments == old(c.arguments) + AllArgs(JunctionClauses(p.children, meta, c.qualifier))
    decreases p, 0
  {
    hide PrintJoined, Print, AllArgs, Args, JunctionAccepted, JunctionClause;
    NoClauses(p.children, meta, c.qualifier);
    for index := 0 to |p.children|
      invariant JunctionAllAccepted(p.children[..index], meta)
      invariant c.query == old(c.query) + PrintJoined(AND, JunctionClauses(p.children[..index], meta, c.qualifier))
      invariant c.arguments == old(c.arguments) + AllArgs(JunctionClauses(p.children[..index], meta, c.qualifier))
    {
      assert p.children[index] in p.children;
      ghost var cs, before, beforeArgs := JunctionClauses(p.children[..index], meta, c.qualifier), c.query, c.arguments;
      if index != 0 {
        c.query := c.query + [Word(AND)];
      }
      assert c.query == before + Separator(AND, index > 0);
      ok := WriteJunctionPredicate(c, p.children[index], meta);
      if !ok {
        return;
      }
      JunctionRunGrows(old(c.query), old(c.arguments), p.children, meta, c.qualifier, index);
    }
    assert p.children[..|p.children|] == p.children;
    ok := true;
  }

  lemma NoClauses(ps: seq<Predicate>, meta: Metadata, qualifier: string)
    requires Shaped(meta) && meta.junction.Some?
    ensures JunctionAllAccepted(ps[..0], meta)
    ensures JunctionClauses(ps[..0], meta, qualifier) == [] && PrintJoined(AND, []) == [] && AllArgs([]) == []
  {
  }

  lemma JunctionRunGrows(q: seq<Token>, args: seq<Value>, ps: seq<Predicate>, meta: Metadata,
    qualifier: string, index: nat)
    requires Shaped(meta) && meta.junction.Some? && index < |ps|
    requires JunctionAllAccepted(ps[..index], meta)
    requires JunctionOnly(meta.targetNames, ps[index]) && JunctionAccepted(ps[index], meta)
    ensures JunctionAllAccepted(ps[..index + 1], meta)
    ensures var cs, c := JunctionClauses(ps[..index], meta, qualifier), JunctionClause(ps[index], meta, qualifier);
      && JunctionClauses(ps[..index + 1], meta, qualifier) == cs + [c]
      && ((q + PrintJoined(AND, cs)) + Separator(AND, index > 0)) + Print(c) == q + PrintJoined(AND, cs + [c])
      && (args + AllArgs(cs)) + Args(c) == args + AllArgs(cs + [c])
  {
    hide PrintJoined, Print, AllArgs, Args, JunctionAccepted, JunctionClause, JunctionOnly;
    var cs, c := JunctionClauses(ps[..index], meta, qualifier), JunctionClause(ps[index], meta, qualifier);
    assert JunctionClauses(ps[..index + 1], meta, qualifier) == cs + [c];
    JoinGrows(AND, cs, c);
    ArgsGrow(cs, c);
    Enclose(q, PrintJoined(AND, cs), Separator(AND, index > 0), Print(c));
    Regroup(args, AllArgs(cs), Args(c));
    Regroup(q, PrintJoined(AND, cs), Separator(AND, index > 0) + Print(c));
    Regroup(q + PrintJoined(AND, cs), Separator(AND, index > 0), Print(c));
  }

  /** The caller's conditions, on the junction's columns or on the target, after what the WHERE has. */
  method WriteConditions(c: Compiler, plan: RewritePlan, ghost start: seq<Token>, ghost cs: seq<Clause>, wrote0: bool)
    returns (ok: bool)
    requires Shaped(plan.meta) && (plan.junctionOnly ==> CanFilterJunction(plan.meta, plan.has.children))
    requires At(c, start, cs) && (wrote0 <==> |cs| > 0)
    requires c.Here() == Place(plan.meta.target, c.qualifier, 0, 0) && c.relationAlias == 0
    modifies c
    ensures ok <==> PlanReady(c.catalog, plan)
    ensures ok ==> At(c, start, cs + TargetClauses(c.catalog, plan, old(c.qualifier)))
  {
    if plan.junctionOnly {
      ok := WriteOnJunction(c, plan, start, cs, wrote0);
    } else {
      ok := WriteOnTarget(c, plan, start, cs, wrote0);
    }
  }

  method WriteOnTarget(c: Compiler, plan: RewritePlan, ghost start: seq<Token>, ghost cs: seq<Clause>, wrote0: bool)
    returns (ok: bool)
    requires Shaped(plan.meta) && !plan.junctionOnly
    requires At(c, start, cs) && (wrote0 <==> |cs| > 0)
    requires c.Here() == Place(plan.meta.target, c.qualifier, 0, 0) && c.relationAlias == 0
    modifies c
    ensures ok <==> PlanReady(c.catalog, plan)
    ensures ok ==> At(c, start, cs + TargetClauses(c.catalog, plan, old(c.qualifier)))
  {
    hide PrintJoined, AllArgs, WriteAll, Accepted, WhereText;
    if |plan.has.children| != 0 {
      c.query := c.query + [Word(if wrote0 then AND else WHERE)];
      ok := c.WriteRun(plan.has.children, AND, false);
      if ok {
        WhereGrows(start, cs, TargetClauses(c.catalog, plan, old(c.qualifier)));
        ArgsAppend(cs, TargetClauses(c.catalog, plan, old(c.qualifier)));
      }
    } else {
      NothingWritten(AND, false, plan.has.children, c.catalog, c.Here(), 0);
      assert cs + TargetClauses(c.catalog, plan, c.qualifier) == cs;
      ok := true;
    }
  }

  method WriteOnJunction(c: Compiler, plan: RewritePlan, ghost start: seq<Token>, ghost cs: seq<Clause>, wrote0: bool)
    returns (ok: bool)
    requires Shaped(plan.meta) && plan.junctionOnly && CanFilterJunction(plan.meta, plan.has.children)
    requires At(c, start, cs) && (wrote0 <==> |cs| > 0) && c.descriptor == plan.meta.target
    modifies c`query, c`arguments
    ensures ok <==> PlanReady(c.catalog, plan)
    ensures ok ==> At(c, start, cs + TargetClauses(c.catalog, plan, c.qualifier))
  {
    hide PrintJoined, Print, AllArgs, Args, WhereText, JunctionAccepted, JunctionClause, JunctionOnly;
    var meta, ps, wroteWhere := plan.meta, plan.has.children, wrote0;
    NoClauses(ps, meta, c.qualifier);
    assert cs + JunctionClauses(ps[..0], meta, c.qualifier) == cs;
    for index := 0 to |ps|
      invariant JunctionAllAccepted(ps[..index], meta)
      invariant At(c, start, cs + JunctionClauses(ps[..index], meta, c.qualifier))
      invariant wroteWhere <==> |cs + JunctionClauses(ps[..index], meta, c.qualifier)| > 0
    {
      assert ps[index] in ps;
      ghost var before := cs + JunctionClauses(ps[..index], meta, c.qualifier);
      c.query := c.query + [Word(if wroteWhere then AND else WHERE)];
      wroteWhere := true;
      ok := WriteJunctionPredicate(c, ps[index], meta);
      if !ok {
        return;
      }
      JunctionRunGrows([], [], ps, meta, c.qualifier, index);
      WhereTakes(start, before, JunctionClause(ps[index], meta, c.qualifier));
      assert before + [JunctionClause(ps[index], meta, c.qualifier)]
        == cs + JunctionClauses(ps[..index + 1], meta, c.qualifier);
    }
    assert ps[..|ps|] == ps;
    ok := true;
  }

  /** The whole WHERE of an association query. */
  method WriteWhereOf(c: Compiler, plan: RewritePlan, alias: string, ghost start: seq<Token>) returns (ok: bool)
    requires Shaped(plan.meta) && (plan.junctionOnly ==> CanFilterJunction(plan.meta, plan.has.children))
    requires c.query == start && c.arguments == []
    requires c.Here() == Place(plan.meta.target, c.qualifier, 0, 0) && c.relationAlias == 0
    modifies c
    ensures ok <==> PlanReady(c.catalog, plan)
    ensures ok ==> At(c, start, WhereOf(c.catalog, plan, alias, old(c.qualifier)))
  {
    hide AllArgs, WhereText, TargetClauses, JunctionScope, PlanReady, CanFilterJunction;
    NoWhere(start);
    var softDelete := SoftDeleteColumn(plan.meta.target);
    ghost var live := LiveClause(c.qualifier, softDelete);
    var wroteWhere := false;
    if softDelete.Some? {
      WriteNullTest(c, start, [], c.qualifier, softDelete.value, false, false);
      assert [] + live == live;
      wroteWhere := true;
    }
    wroteWhere := WriteJunctionScope(c, start, live, alias, plan.meta.junction, wroteWhere);
    ok := WriteConditions(c, plan, start, live + JunctionScope(plan.meta.junction, alias), wroteWhere);
  }

  lemma NoWhere(start: seq<Token>)
    ensures start + WhereText([]) == start && AllArgs([]) == []
  {
  }

  /** The text of the TopN rewrite up to its WHERE. */
  method WriteTopNHead(q: AssociationQuery, meta: Metadata, columns: seq<string>) returns (query: seq<Token>)
    requires q.WellFormed() && Shaped(meta)
    requires (q.join.Some? ==> meta.junction.Some? && q.join.value == TargetLink(meta))
    ensures query == TopNHead(q, meta, columns)
  {
    hide ColumnList, PrintJoined, Equalities;
    query := [Word(SELECT)];
    if !IsVia(meta) {
      query := query + [LEADING];
    }
    query := WriteColumns(query, JOIN_ROOT_ALIAS, columns);
    query := query + [Word(FROM), LParen, Word(SELECT)];
    query := WriteColumns(query, q.alias, AssociationColumns(meta));
    query := query + [Word(FROM)] + TableText(q.table, q.alias);
    ghost var before := query;
    if q.join.Some? {
      var writer := new Compiler(map[], meta.target, query, [], "");
      writer.query := writer.query + [Word(JOIN)] + TableText(meta.target.table, MANY_TARGET_ALIAS)
        + [Word(ON), LParen];
      writer.WriteEqualities(MANY_TARGET_ALIAS, meta.targetColumns, ASSOCIATION_ALIAS,
        meta.junction.value.targetColumns);
      query := writer.query + [RParen];
      LinkWritten(before, q.join.value);
    }
    assert query == before + PrintLink(q.join);
  }

  lemma WrittenInTurn(q: seq<Token>, a: seq<Token>, b: seq<Token>, c: seq<Token>, d: seq<Token>)
    ensures (((q + a) + b) + c) + d == q + (a + b + c + d)
  {
    Enclose(q, a, b, c);
    Enclose(q, a + b, c, d);
  }

  method WriteTopNTail(query0: seq<Token>, q: AssociationQuery, d: Descriptor, meta: Metadata, s: Selection)
    returns (query: seq<Token>)
    requires Shaped(meta) && |AssociationColumns(meta)| == |s.orderBy| == |meta.sourceColumns|
    requires s.pagination.limit.Some?
    ensures query == query0 + TopNTail(q, d, meta, s)
  {
    hide LimitedTail, RootTail;
    query := WriteLimitedTail(query0, q, meta, s);
    query := WriteRootTail(query, d, meta, s);
    Regroup(query0, LimitedTail(q, meta, s), RootTail(d, meta, s));
  }

  method WriteLimitedTail(query0: seq<Token>, q: AssociationQuery, meta: Metadata,
    s: Selection) returns (query: seq<Token>)
    requires |AssociationColumns(meta)| == |s.orderBy| && s.pagination.limit.Some?
    ensures query == query0 + LimitedTail(q, meta, s)
  {
    hide KeyOrderList;
    query := WriteKeyOrder(query0, q.alias, AssociationColumns(meta), s.orderBy);
    ghost var ordered := query;
    query := query + [Word(LIMIT), Question];
    if s.pagination.offset.Some? {
      query := query + [Word(OFFSET), Question];
    }
    assert query == ordered + LimitText(s.pagination);
    query := query + [RParen, Word(AS), Ident(KEY_ALIAS), if IsVia(meta) then Literal("STRAIGHT_JOIN") else Word(JOIN)];
    WrittenInTurn(query0, [Word(ORDER), Word(BY)], KeyOrderList(q.alias, AssociationColumns(meta), s.orderBy),
      LimitText(s.pagination),
      [RParen, Word(AS), Ident(KEY_ALIAS), if IsVia(meta) then Literal("STRAIGHT_JOIN") else Word(JOIN)]);
  }

  method WriteRootTail(query0: seq<Token>, d: Descriptor, meta: Metadata, s: Selection) returns (query: seq<Token>)
    requires Shaped(meta) && |meta.sourceColumns| == |s.orderBy|
    ensures query == query0 + RootTail(d, meta, s)
  {
    hide KeyOrderList, PrintJoined, Equalities;
    var opening := TableText(d.table, JOIN_ROOT_ALIAS) + [Word(ON), LParen];
    var writer := new Compiler(map[], d, query0 + opening, [], "");
    writer.WriteEqualities(KEY_ALIAS, AssociationColumns(meta), JOIN_ROOT_ALIAS, meta.sourceColumns);
    query := writer.query + [RParen];
    query := WriteKeyOrder(query, JOIN_ROOT_ALIAS, meta.sourceColumns, s.orderBy);
    var run := PrintJoined(AND, RootJoin(meta));
    Regroup((query0 + opening) + run, [RParen], [Word(ORDER), Word(BY)]);
    assert [RParen] + [Word(ORDER), Word(BY)] == [RParen, Word(ORDER), Word(BY)];
    WrittenInTurn(query0, opening, run, [RParen, Word(ORDER), Word(BY)],
      KeyOrderList(JOIN_ROOT_ALIAS, meta.sourceColumns, s.orderBy));
  }

  /** The TopN statement: refused exactly when the conditions or the pagination are. */
  method CompileTopN(catalog: Catalog, d: Descriptor, s: Selection, plan: RewritePlan, columns: seq<string>)
    returns (ok: bool, query: seq<Token>, arguments: seq<Value>)
    requires TopNAllowed(catalog, d, s, false, plan) && Shaped(plan.meta)
      && |plan.meta.sourceNames| == |plan.meta.sourceColumns|
    ensures ok <==> s.pagination.Valid() && PlanReady(catalog, plan)
    ensures ok ==>
      && |AssociationColumns(plan.meta)| == |s.orderBy| == |plan.meta.sourceColumns|
      && query == TopNText(TopNQuery(catalog, plan), d, plan.meta, s, columns)
      && arguments == AllArgs(TopNQuery(catalog, plan).where) + LimitArgs(s.pagination)
  {
    hide TopNHead, TopNTail, WhereText, AllArgs, WhereOf, UniquePerRoot, MetadataFor, CanFilterJunction, PlanReady;
    query, arguments := [], [];
    if !s.pagination.Valid() {
      return false, query, arguments;
    }
    var meta := plan.meta;
    var joins := meta.junction.Some? && !plan.junctionOnly;
    FilteredHasJunction(catalog, d, s, plan);
    var head := AssociationQuery(AssociationTable(meta), ASSOCIATION_ALIAS,
      if joins then Some(TargetLink(meta)) else None, []);
    query := WriteTopNHead(head, meta, columns);
    ghost var start := query;
    var compiler := new Compiler(catalog, meta.target, query, [],
      if joins then MANY_TARGET_ALIAS else ASSOCIATION_ALIAS);
    ok := WriteWhereOf(compiler, plan, ASSOCIATION_ALIAS, start);
    if !ok {
      return;
    }
    query, arguments := compiler.query, compiler.arguments;
    query := WriteTopNTail(query, head, d, meta, s);
    arguments := arguments + [Int(s.pagination.limit.value)];
    if s.pagination.offset.Some? {
      arguments := arguments + [Int(s.pagination.offset.value)];
    }
    SameHeadAndTail(head, TopNQuery(catalog, plan), d, meta, s, columns);
    Regroup(AllArgs(TopNQuery(catalog, plan).where), [Int(s.pagination.limit.value)],
      if s.pagination.offset.Some? then [Int(s.pagination.offset.value)] else []);
  }

  lemma FilteredHasJunction(catalog: Catalog, d: Descriptor, s: Selection, plan: RewritePlan)
    requires Proven(catalog, d, s, plan)
    ensures plan.junctionOnly ==> plan.meta.junction.Some? && CanFilterJunction(plan.meta, plan.has.children)
  {
  }

  lemma SameHeadAndTail(a: AssociationQuery, b: AssociationQuery, d: Descriptor, meta: Metadata, s: Selection,
    columns: seq<string>)
    requires a.WellFormed() && b.WellFormed() && a.table == b.table && a.alias == b.alias && a.join == b.join
    requires Shaped(meta) && |AssociationColumns(meta)| == |s.orderBy| == |meta.sourceColumns|
    ensures TopNHead(a, meta, columns) == TopNHead(b, meta, columns)
    ensures TopNTail(a, d, meta, s) == TopNTail(b, d, meta, s)
  {
  }

  /** The count statement: refused exactly when the conditions are. */
  method CompileCount(catalog: Catalog, d: Descriptor, s: Selection, plan: RewritePlan)
    returns (ok: bool, query: seq<Token>, arguments: seq<Value>)
    requires CountAllowed(catalog, d, s, false, plan) && Shaped(plan.meta)
    ensures ok <==> PlanReady(catalog, plan)
    ensures !JoinsTarget(plan)
    ensures ok ==> query == CountText(CountQuery(catalog, plan)) && arguments == AllArgs(CountQuery(catalog,
      plan).where)
  {
    hide WhereText, AllArgs, WhereOf, UniquePerRoot, MetadataFor, CanFilterJunction, PlanReady;
    FilteredHasJunction(catalog, d, s, plan);
    query := [Word(SELECT), Literal("COUNT(*)"), Word(FROM), Ident(AssociationTable(plan.meta))];
    ghost var start := query;
    var compiler := new Compiler(catalog, plan.meta.target, query, [], "");
    ok := WriteWhereOf(compiler, plan, "", start);
    query, arguments := compiler.query, compiler.arguments;
  }
}
