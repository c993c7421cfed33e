/** Reading the relation-first statements back whole (orm/relation_topn.go:80-237, orm/relation_count.go:16-85): the
    derived table with its WHERE, ORDER BY, LIMIT and OFFSET, the join to the root, and what the statement answers. */
module TopNReading {
  import opened SqlValues
  import opened SqlText
  import opened SqlClause
  import opened StatementLists
  import opened PredicateCompiler
  import opened Keyset
  import opened SelectClause
  import opened Pagination
  import opened RelationRewrite
  import opened RelationFirst
  import opened RelationFirstWriter
  import opened RelationFirstMeaning
  import opened Ordering
  import opened PredicateMeaning
  import opened LimitFirst

  // ---- lists of columns ----

  function OrderRefs(alias: string, columns: seq<string>, orderBy: seq<OrderTerm>): (refs: seq<OrderedColumn>)
    requires |columns| == |orderBy|
    ensures |refs| == |columns|
  {
    seq(|columns|, i requires 0 <= i < |columns| =>
      OrderedColumn(ColumnRef(alias, columns[i]), orderBy[i].direction == Descending))
  }

  lemma Shifted<T>(a: seq<T>, s: seq<T>, m: seq<T>, b: seq<T>)
    ensures (a + (s + m)) + s + b == a + (s + (m + s + b))
    ensures (a + []) + s + b == a + (s + b) && [] + [] + b == b && a + [] == a
  {
    Regroup(a, s + m, s + b);
    Regroup(s, m, s + b);
    Regroup(m, s, b);
    Regroup(a + (s + m), s, b);
    assert a + [] == a;
    Regroup(a, s, b);
  }

  lemma ListUnfold(alias: string, columns: seq<string>)
    requires |columns| > 0
    ensures var n := |columns| - 1;
      ColumnList(alias, columns) == ColumnList(alias,
        columns[..n]) + (if n > 0 then [Comma] else []) + ColumnText(ColumnRef(alias, columns[n]))
    ensures ColumnList(alias, columns[..0]) == []
  {
    hide ColumnText;
  }

  lemma {:induction false} ListFront(alias: string, columns: seq<string>)
    requires |columns| > 0
    ensures ColumnList(alias, columns)
      == ColumnText(ColumnRef(alias, columns[0])) + if |columns| > 1 then [Comma] + ColumnList(alias,
        columns[1..]) else []
  {
    hide ColumnText, ColumnList;
    var n := |columns| - 1;
    var first, last := ColumnText(ColumnRef(alias, columns[0])), ColumnText(ColumnRef(alias, columns[n]));
    ListUnfold(alias, columns);
    if n == 0 {
      Shifted(first, [], [], first);
    } else {
      ListFront(alias, columns[..n]);
      ListUnfold(alias, columns[1..]);
      assert columns[1..][..n - 1] == columns[..n][1..];
      Shifted(first, [Comma], ColumnList(alias, columns[..n][1..]), last);
    }
  }

  lemma {:induction false} ColumnsRead(alias: string, columns: seq<string>, rest: seq<Token>)
    requires |columns| > 0 && !Starts(rest, Comma) && !Starts(rest, Dot)
    ensures ParseColumns(ColumnList(alias, columns) + rest) == Listed(Refs(alias, columns), rest)
  {
    hide ColumnText, ColumnList, ParseColumn;
    var one := ColumnRef(alias, columns[0]);
    ListFront(alias, columns);
    if |columns| == 1 {
      assert ColumnList(alias, columns) + rest == ColumnText(one) + rest;
      ColumnReads(one, rest, []);
      assert Refs(alias, columns) == [one];
    } else {
      var more := ColumnList(alias, columns[1..]) + rest;
      var after := [Comma] + more;
      assert ColumnList(alias, columns) + rest == ColumnText(one) + after && after[1..] == more;
      ColumnReads(one, after, []);
      ColumnsRead(alias, columns[1..], rest);
      assert Refs(alias, columns) == [one] + Refs(alias, columns[1..]);
    }
  }

  function OrderOne(alias: string, column: string, term: OrderTerm): seq<Token> {
    ColumnText(ColumnRef(alias, column)) + [Word(if term.direction == Descending then DESC else ASC)]
  }

  lemma OrderUnfold(alias: string, columns: seq<string>, orderBy: seq<OrderTerm>)
    requires |columns| == |orderBy| > 0
    ensures var n := |columns| - 1;
      KeyOrderList(alias, columns, orderBy)
      == KeyOrderList(alias, columns[..n], orderBy[..n]) + (if n > 0 then [Comma] else []) + OrderOne(alias,
        columns[n], orderBy[n])
    ensures KeyOrderList(alias, columns[..0], orderBy[..0]) == []
  {
    hide ColumnText;
    var n := |columns| - 1;
    Regroup(KeyOrderList(alias, columns[..n], orderBy[..n]) + (if n > 0 then [Comma] else []),
      ColumnText(ColumnRef(alias, columns[n])), [Word(if orderBy[n].direction == Descending then DESC else ASC)]);
  }

  lemma {:induction false} OrderFront(alias: string, columns: seq<string>, orderBy: seq<OrderTerm>)
    requires |columns| == |orderBy| > 0
    ensures KeyOrderList(alias, columns, orderBy)
      == OrderOne(alias, columns[0], orderBy[0]) + if |columns| > 1 then [Comma] + KeyOrderList(alias, columns[1..],
        orderBy[1..]) else []
  {
    hide OrderOne, KeyOrderList;
    var n := |columns| - 1;
    var first, last := OrderOne(alias, columns[0], orderBy[0]), OrderOne(alias, columns[n], orderBy[n]);
    OrderUnfold(alias, columns, orderBy);
    if n == 0 {
      Shifted(first, [], [], first);
    } else {
      OrderFront(alias, columns[..n], orderBy[..n]);
      OrderUnfold(alias, columns[1..], orderBy[1..]);
      assert columns[1..][..n - 1] == columns[..n][1..] && orderBy[1..][..n - 1] == orderBy[..n][1..];
      Shifted(first, [Comma], KeyOrderList(alias, columns[..n][1..], orderBy[..n][1..]), last);
    }
  }

  lemma OrderedReads(alias: string, column: string, term: OrderTerm, rest: seq<Token>)
    ensures ParseColumn(OrderOne(alias, column, term) + rest, [])
      == Got(ColumnRef(alias, column), [Word(if term.direction == Descending then DESC else ASC)] + rest, [])
  {
    hide ColumnText, ParseColumn;
    var way := [Word(if term.direction == Descending then DESC else ASC)];
    Regroup(ColumnText(ColumnRef(alias, column)), way, rest);
    ColumnReads(ColumnRef(alias, column), way + rest, []);
  }

  lemma {:induction false} OrderReads(alias: string, columns: seq<string>, orderBy: seq<OrderTerm>, rest: seq<Token>)
    requires |columns| == |orderBy| > 0 && !Starts(rest, Comma)
    ensures ParseOrder(KeyOrderList(alias, columns, orderBy) + rest) == Listed(OrderRefs(alias, columns, orderBy), rest)
  {
    hide OrderOne, KeyOrderList, ParseColumn, Refs, OrderRefs;
    OrderRefsFront(alias, columns, orderBy);
    var term := orderBy[0];
    var one := OrderedColumn(ColumnRef(alias, columns[0]), term.direction == Descending);
    var way := [Word(if term.direction == Descending then DESC else ASC)];
    OrderFront(alias, columns, orderBy);
    if |columns| == 1 {
      assert KeyOrderList(alias, columns, orderBy) + rest == OrderOne(alias, columns[0], term) + rest;
      OrderedReads(alias, columns[0], term, rest);
      assert (way + rest)[1..] == rest;
    } else {
      var more := KeyOrderList(alias, columns[1..], orderBy[1..]) + rest;
      var after := [Comma] + more;
      assert KeyOrderList(alias, columns, orderBy) + rest == OrderOne(alias, columns[0], term) + after;
      OrderedReads(alias, columns[0], term, after);
      assert (way + after)[1..] == after && (way + after)[2..] == more;
      OrderReads(alias, columns[1..], orderBy[1..], rest);
    }
  }

  lemma OrderRefsFront(alias: string, columns: seq<string>, orderBy: seq<OrderTerm>)
    requires |columns| == |orderBy| > 0
    ensures var one := OrderedColumn(ColumnRef(alias, columns[0]), orderBy[0].direction == Descending);
      && OrderRefs(alias, columns, orderBy) == [one] + OrderRefs(alias, columns[1..], orderBy[1..])
      && (|columns| == 1 ==> OrderRefs(alias, columns, orderBy) == [one])
  {
  }

  // ---- the derived table ----

  /** FROM table AS alias [JOIN ... ON ...] [WHERE ...]. */
  datatype FromRead = FromRead(table: string, alias: string, join: Option<JoinClause>, where: Option<Condition>)

  datatype LimitRead = LimitRead(limit: Value, offset: Option<Value>)

  datatype DerivedRead = DerivedRead(keys: seq<ColumnRef>, source: FromRead, order: seq<OrderedColumn>, page: LimitRead)

  function ParseWhere(text: seq<Token>, args: seq<Value>): (r: Parsed<Option<Condition>>) {
    if !StartsWord(text, WHERE) then Got(None, text, args)
    else
      match ParseOr(text[1..], args)
      case Bad => Bad
      case Got(where, rest, more) => Got(Some(where), rest, more)
  }

  function ParseFrom(text: seq<Token>, args: seq<Value>): Parsed<FromRead> {
    match ParseTable(text)
    case None => Bad
    case Some(source) =>
      match ParseJoin(source.rest, args)
      case Bad => Bad
      case Got(join, rest, more) =>
        match ParseWhere(rest, more)
        case Bad => Bad
        case Got(where, rest', more') => Got(FromRead(source.table, source.alias, join, where), rest', more')
  }

  function ParseLimit(text: seq<Token>, args: seq<Value>): Parsed<LimitRead> {
    if |args| == 0 || |text| < 2 || text[0] != Word(LIMIT) || text[1] != Question then Bad
    else if |text| >= 4 && text[2] == Word(OFFSET) && text[3] == Question then
      if |args| < 2 then Bad else Got(LimitRead(args[0], Some(args[1])), text[4..], args[2..])
    else Got(LimitRead(args[0], None), text[2..], args[1..])
  }

  function ParseDerived(text: seq<Token>, args: seq<Value>): Parsed<DerivedRead> {
    match ParseColumns(text)
    case NoList => Bad
    case Listed(keys, rest) =>
      if !StartsWord(rest, FROM) then Bad
      else
        match ParseFrom(rest[1..], args)
        case Bad => Bad
        case Got(source, rest', more) =>
          if |rest'| < 2 || rest'[0] != Word(ORDER) || rest'[1] != Word(BY) then Bad
          else
            match ParseOrder(rest'[2..])
            case NoList => Bad
            case Listed(order, rest'') =>
              match ParseLimit(rest'', more)
              case Bad => Bad
              case Got(page, after, left) => Got(DerivedRead(keys, source, order, page), after, left)
  }

  function FromOf(q: AssociationQuery): FromRead
    requires q.WellFormed()
  {
    FromRead(q.table, q.alias, PlainLink(q.join), if |q.where| == 0 then None else Some(PlainJoined(AND, q.where)))
  }

  function FromText(q: AssociationQuery): seq<Token>
    requires q.WellFormed()
  {
    TableText(q.table, q.alias) + (PrintLink(q.join) + WhereText(q.where))
  }

  /** What may follow a WHERE. */
  predicate Closes(rest: seq<Token>) {
    rest == [] || StartsWord(rest, ORDER) || StartsWord(rest, LIMIT)
  }

  lemma WhereReads(cs: seq<Clause>, rest: seq<Token>, more: seq<Value>)
    requires AllWellFormed(cs) && Closes(rest)
    ensures ParseWhere(WhereText(cs) + rest, AllArgs(cs) + more)
      == Got(if |cs| == 0 then None else Some(PlainJoined(AND, cs)), rest, more)
  {
    hide ParseOr, PrintJoined, PlainJoined;
    if |cs| == 0 {
      assert WhereText(cs) + rest == rest && AllArgs(cs) + more == more;
    } else {
      var text := PrintJoined(AND, cs) + rest;
      assert WhereText(cs) + rest == [Word(WHERE)] + text;
      assert ([Word(WHERE)] + text)[1..] == text;
      JoinedTextMeansClauses(cs, rest, more);
    }
  }

  lemma FromReads(q: AssociationQuery, rest: seq<Token>, more: seq<Value>)
    requires q.WellFormed() && q.alias != "" && StartsWord(rest, ORDER) && LinkArgs(q.join) == []
    ensures ParseFrom(FromText(q) + rest, AllArgs(q.where) + more) == Got(FromOf(q), rest, more)
  {
    hide ParseWhere, ParseJoin, ParseTable, PrintLink, WhereText, PlainLink, PlainJoined, AllArgs, TableText;
    var where := WhereText(q.where) + rest;
    var link := PrintLink(q.join) + where;
    Regroup(TableText(q.table, q.alias), PrintLink(q.join) + WhereText(q.where), rest);
    Regroup(PrintLink(q.join), WhereText(q.where), rest);
    TableReads(q.table, q.alias, link);
    WhereStarts(q.where, rest);
    LinkReads(q.join, where, AllArgs(q.where) + more);
    assert [] + (AllArgs(q.where) + more) == AllArgs(q.where) + more;
    WhereReads(q.where, rest, more);
  }

  lemma WhereStarts(cs: seq<Clause>, rest: seq<Token>)
    requires AllWellFormed(cs) && StartsWord(rest, ORDER)
    ensures !StartsWord(WhereText(cs) + rest, JOIN) && !Starts(WhereText(cs) + rest, Dot)
  {
  }

  lemma LimitReads(p: SelectClause.Pagination, rest: seq<Token>, more: seq<Value>)
    requires p.Valid() && p.limit.Some? && !StartsWord(rest, OFFSET)
    ensures ParseLimit(LimitText(p) + rest, LimitArgs(p) + more)
      == Got(LimitRead(Int(p.limit.value), if p.offset.Some? then Some(Int(p.offset.value)) else None), rest, more)
  {
    var text, args := LimitText(p) + rest, LimitArgs(p) + more;
    if p.offset.Some? {
      assert LimitText(p) == [Word(LIMIT), Question, Word(OFFSET), Question];
      assert text[4..] == rest && args[2..] == more;
    } else {
      assert LimitText(p) == [Word(LIMIT), Question];
      assert text[2..] == rest && args[1..] == more;
    }
  }

  function PageOf(p: SelectClause.Pagination): LimitRead
    requires p.limit.Some?
  {
    LimitRead(Int(p.limit.value), if p.offset.Some? then Some(Int(p.offset.value)) else None)
  }

  function DerivedText(q: AssociationQuery, keys: seq<string>, orderBy: seq<OrderTerm>,
    p: SelectClause.Pagination): seq<Token>
    requires q.WellFormed() && |keys| == |orderBy|
  {
    ColumnList(q.alias, keys) + ([Word(FROM)]
      + (FromText(q) + ([Word(ORDER), Word(BY)] + (KeyOrderList(q.alias, keys, orderBy) + LimitText(p)))))
  }

  lemma DerivedReads(
    q: AssociationQuery, keys: seq<string>, orderBy: seq<OrderTerm>, p: SelectClause.Pagination, rest: seq<Token>,
      more: seq<Value>)
    requires q.WellFormed() && q.alias != "" && LinkArgs(q.join) == [] && |keys| == |orderBy| > 0
    requires p.Valid() && p.limit.Some? && Starts(rest, RParen)
    ensures ParseDerived(DerivedText(q, keys, orderBy, p) + rest, AllArgs(q.where) + (LimitArgs(p) + more))
      == Got(DerivedRead(Refs(q.alias, keys), FromOf(q), OrderRefs(q.alias, keys, orderBy), PageOf(p)), rest, more)
  {
    hide ParseColumns, ParseFrom, ParseOrder, ParseLimit, ColumnList, FromText, KeyOrderList, LimitText;
    hide LimitArgs, AllArgs, FromOf;
    var limit := LimitText(p) + rest;
    var order := KeyOrderList(q.alias, keys, orderBy) + limit;
    var ordering := [Word(ORDER), Word(BY)] + order;
    var from := FromText(q) + ordering;
    var text := ColumnList(q.alias, keys) + ([Word(FROM)] + from);
    DerivedRegroups(q, keys, orderBy, p, rest);
    ColumnsRead(q.alias, keys, [Word(FROM)] + from);
    assert ([Word(FROM)] + from)[1..] == from;
    FromReads(q, ordering, LimitArgs(p) + more);
    assert ordering[2..] == order;
    LimitStarts(p, rest);
    OrderReads(q.alias, keys, orderBy, limit);
    LimitReads(p, rest, more);
  }

  lemma LimitStarts(p: SelectClause.Pagination, rest: seq<Token>)
    requires p.limit.Some?
    ensures !Starts(LimitText(p) + rest, Comma)
  {
  }

  lemma DerivedRegroups(
    q: AssociationQuery, keys: seq<string>, orderBy: seq<OrderTerm>, p: SelectClause.Pagination, rest: seq<Token>)
    requires q.WellFormed() && |keys| == |orderBy|
    ensures DerivedText(q, keys, orderBy, p) + rest == ColumnList(q.alias, keys)
      + ([Word(FROM)] + (FromText(q)
        + ([Word(ORDER), Word(BY)] + (KeyOrderList(q.alias, keys, orderBy) + (LimitText(p) + rest)))))
  {
    hide ColumnList, FromText, KeyOrderList, LimitText;
    var a, b, c, d := ColumnList(q.alias, keys), FromText(q), KeyOrderList(q.alias, keys, orderBy), LimitText(p);
    var ordering := [Word(ORDER), Word(BY)];
    Regroup(a, [Word(FROM)] + (b + (ordering + (c + d))), rest);
    Regroup([Word(FROM)], b + (ordering + (c + d)), rest);
    Regroup(b, ordering + (c + d), rest);
    Regroup(ordering, c + d, rest);
    Regroup(c, d, rest);
  }

  // ---- the whole statement ----

  datatype TopNRead = TopNRead(
    columns: seq<ColumnRef>, derived: DerivedRead, derivedAlias: string,
    root: string, rootAlias: string, on: Condition, order: seq<OrderedColumn>)

  function ParseTopN(text: seq<Token>, args: seq<Value>): Parsed<TopNRead> {
    if !StartsWord(text, SELECT) then Bad
    else
      match ParseColumns(SkipHint(text[1..]))
      case NoList => Bad
      case Listed(columns, rest) =>
        match Expect([Word(FROM), LParen, Word(SELECT)], rest)
        case None => Bad
        case Some(inner) =>
          match ParseDerived(inner, args)
          case Bad => Bad
          case Got(derived, rest', more) =>
            match ParseRoot(rest', more)
            case Bad => Bad
            case Got(root, after, left) =>
              Got(TopNRead(columns, derived, root.derivedAlias, root.table, root.alias, root.on, root.order), after,
                left)
  }

  datatype RootRead = RootRead(derivedAlias: string, table: string, alias: string, on: Condition,
    order: seq<OrderedColumn>)

  /** `) AS k JOIN root AS alias ON ( ... ) ORDER BY ...`; STRAIGHT_JOIN is an inner join too. */
  function ParseRoot(text: seq<Token>, args: seq<Value>): Parsed<RootRead> {
    if |text| < 4 || text[0] != RParen || text[1] != Word(AS) || !text[2].Ident? then Bad
    else if text[3] != Word(JOIN) && text[3] != Literal("STRAIGHT_JOIN") then Bad
    else
      match ParseTable(text[4..])
      case None => Bad
      case Some(source) =>
        match Expect([Word(ON), LParen], source.rest)
        case None => Bad
        case Some(body) =>
          match ParseGroup(body, args)
          case Bad => Bad
          case Got(on, rest, more) =>
            match Expect([Word(ORDER), Word(BY)], rest)
            case None => Bad
            case Some(list) =>
              match ParseOrder(list)
              case NoList => Bad
              case Listed(order, after) => Got(RootRead(text[2].name, source.table, source.alias, on, order), after,
                more)
  }

  function JoinWord(meta: Metadata): Token {
    if IsVia(meta) then Literal("STRAIGHT_JOIN") else Word(JOIN)
  }

  function RootText(table: string, meta: Metadata, orderBy: seq<OrderTerm>): seq<Token>
    requires Shaped(meta) && |meta.sourceColumns| == |orderBy|
  {
    [RParen, Word(AS), Ident(KEY_ALIAS), JoinWord(meta)]
    + (TableText(table, JOIN_ROOT_ALIAS)
      + ([Word(ON), LParen]
        + (PrintJoined(AND, RootJoin(meta))
          + ([RParen] + ([Word(ORDER), Word(BY)] + KeyOrderList(JOIN_ROOT_ALIAS, meta.sourceColumns, orderBy))))))
  }

  lemma {:induction false} NoEqualityArguments(cs: seq<Clause>)
    requires AllWellFormed(cs) && forall c <- cs :: c.Atom? && c.test.SameColumn?
    ensures AllArgs(cs) == []
  {
    if |cs| > 0 {
      assert cs[|cs| - 1] in cs && forall c <- cs[..|cs| - 1] :: c in cs;
      NoEqualityArguments(cs[..|cs| - 1]);
    }
  }

  lemma RootReads(table: string, meta: Metadata, orderBy: seq<OrderTerm>)
    requires Shaped(meta) && |meta.sourceColumns| == |AssociationColumns(meta)| == |orderBy|
    ensures ParseRoot(RootText(table, meta, orderBy), [])
      == Got(RootRead(KEY_ALIAS, table, JOIN_ROOT_ALIAS, PlainJoined(AND, RootJoin(meta)),
        OrderRefs(JOIN_ROOT_ALIAS, meta.sourceColumns, orderBy)), [], [])
  {
    hide ParseTable, ParseGroup, ParseOrder, PrintJoined, PlainJoined, KeyOrderList, TableText;
    var order := KeyOrderList(JOIN_ROOT_ALIAS, meta.sourceColumns, orderBy);
    var ordering := [Word(ORDER), Word(BY)] + order;
    var on := PrintJoined(AND, RootJoin(meta)) + ([RParen] + ordering);
    var table' := TableText(table, JOIN_ROOT_ALIAS) + ([Word(ON), LParen] + on);
    var text := RootText(table, meta, orderBy);
    assert text[4..] == table';
    TableReads(table, JOIN_ROOT_ALIAS, [Word(ON), LParen] + on);
    Expected([Word(ON), LParen], on);
    NoEqualityArguments(RootJoin(meta));
    assert AllArgs(RootJoin(meta)) + [] == [];
    GroupReads(AND, RootJoin(meta), ordering, []);
    Expected([Word(ORDER), Word(BY)], order);
    OrderReads(JOIN_ROOT_ALIAS, meta.sourceColumns, orderBy, []);
    assert order + [] == order;
  }

  lemma Chained(a: seq<Token>, b: seq<Token>, c: seq<Token>, d: seq<Token>, e: seq<Token>)
    ensures (((a + b) + c) + d) + e == a + (b + (c + (d + e)))
  {
    Regroup((a + b) + c, d, e);
    Regroup(a + b, c, d + e);
    Regroup(a, b, c + (d + e));
  }

  function WholeText(
    q: AssociationQuery, table: string, meta: Metadata, columns: seq<string>, orderBy: seq<OrderTerm>,
      p: SelectClause.Pagination): seq<Token>
    requires q.WellFormed() && Shaped(meta) && |AssociationColumns(meta)| == |orderBy| == |meta.sourceColumns|
  {
    [Word(SELECT)] + ((if IsVia(meta) then [] else [LEADING]) + (ColumnList(JOIN_ROOT_ALIAS, columns)
      + ([Word(FROM), LParen, Word(SELECT)]
        + (DerivedText(q, AssociationColumns(meta), orderBy, p) + RootText(table, meta, orderBy)))))
  }

  lemma HeadIs(q: AssociationQuery, meta: Metadata, columns: seq<string>, rest: seq<Token>)
    requires q.WellFormed()
    ensures TopNHead(q, meta, columns) + (WhereText(q.where) + rest) ==
      [Word(SELECT)] + ((if IsVia(meta) then [] else [LEADING]) + (ColumnList(JOIN_ROOT_ALIAS, columns)
        + ([Word(FROM), LParen, Word(SELECT)]
          + (ColumnList(q.alias, AssociationColumns(meta)) + ([Word(FROM)] + (FromText(q) + rest))))))
  {
    hide ColumnList, TableText, PrintLink, WhereText;
    var hint := if IsVia(meta) then [] else [LEADING];
    var cols, keys := ColumnList(JOIN_ROOT_ALIAS, columns), ColumnList(q.alias, AssociationColumns(meta));
    var inner, from := [Word(FROM), LParen, Word(SELECT)], [Word(FROM)];
    var table, link, where := TableText(q.table, q.alias), PrintLink(q.join), WhereText(q.where) + rest;
    var front := [Word(SELECT)] + hint + cols + inner;
    assert TopNHead(q, meta, columns) == front + keys + from + table + link;
    Chained(front, keys, from, table, link);
    Regroup(front, keys + (from + (table + link)), where);
    Regroup(keys, from + (table + link), where);
    Regroup(from, table + link, where);
    Regroup(table, link, where);
    Chained([Word(SELECT)], hint, cols, inner, keys + (from + (table + (link + where))));
    Regroup(table, link + WhereText(q.where), rest);
    Regroup(link, WhereText(q.where), rest);
  }

  lemma TailIs(q: AssociationQuery, table: string, meta: Metadata, s: Selection, d: Schema.Descriptor)
    requires Shaped(meta) && |AssociationColumns(meta)| == |s.orderBy| == |meta.sourceColumns| && d.table == table
    ensures TopNTail(q, d, meta, s) ==
      [Word(ORDER), Word(BY)] + (KeyOrderList(q.alias, AssociationColumns(meta), s.orderBy)
        + (LimitText(s.pagination) + RootText(table, meta, s.orderBy)))
  {
    hide TableText, KeyOrderList, LimitText, PrintJoined;
    var ordering, order, limit := [Word(ORDER), Word(BY)], KeyOrderList(q.alias, AssociationColumns(meta), s.orderBy),
      LimitText(s.pagination);
    var close, root := [RParen, Word(AS), Ident(KEY_ALIAS), JoinWord(meta)], RootTail(d, meta, s);
    assert TopNTail(q, d, meta, s) == (((ordering + order) + limit) + close) + root;
    Chained(ordering, order, limit, close, root);
    RootIs(table, meta, s, d);
  }

  lemma RootIs(table: string, meta: Metadata, s: Selection, d: Schema.Descriptor)
    requires Shaped(meta) && |meta.sourceColumns| == |s.orderBy| && d.table == table
    ensures [RParen, Word(AS), Ident(KEY_ALIAS), JoinWord(meta)] + RootTail(d, meta, s)
      == RootText(table, meta, s.orderBy)
  {
    hide TableText, KeyOrderList, PrintJoined;
    var t, on, body := TableText(table, JOIN_ROOT_ALIAS), [Word(ON), LParen], PrintJoined(AND, RootJoin(meta));
    var order := KeyOrderList(JOIN_ROOT_ALIAS, meta.sourceColumns, s.orderBy);
    assert [RParen, Word(ORDER), Word(BY)] == [RParen] + [Word(ORDER), Word(BY)];
    Regroup([RParen], [Word(ORDER), Word(BY)], order);
    Chained(t, on, body, [RParen, Word(ORDER), Word(BY)], order);
  }

  lemma TextIsWhole(q: AssociationQuery, d: Schema.Descriptor, meta: Metadata, s: Selection, columns: seq<string>)
    requires q.WellFormed() && Shaped(meta) && |AssociationColumns(meta)| == |s.orderBy| == |meta.sourceColumns|
    ensures TopNText(q, d, meta, s, columns) == WholeText(q, d.table, meta, columns, s.orderBy, s.pagination)
  {
    hide TopNHead, TopNTail, WhereText, FromText, ColumnList, KeyOrderList, LimitText, RootText;
    var tail := TopNTail(q, d, meta, s);
    Regroup(TopNHead(q, meta, columns), WhereText(q.where), tail);
    HeadIs(q, meta, columns, tail);
    TailIs(q, d.table, meta, s, d);
    DerivedRegroups(q, AssociationColumns(meta), s.orderBy, s.pagination, RootText(d.table, meta, s.orderBy));
  }

  function TopNOf(q: AssociationQuery, table: string, meta: Metadata, columns: seq<string>, s: Selection): TopNRead
    requires q.WellFormed() && Shaped(meta)
    requires |AssociationColumns(meta)| == |s.orderBy| == |meta.sourceColumns| && s.pagination.limit.Some?
  {
    TopNRead(
      Refs(JOIN_ROOT_ALIAS, columns),
      DerivedRead(Refs(q.alias, AssociationColumns(meta)), FromOf(q),
        OrderRefs(q.alias, AssociationColumns(meta), s.orderBy), PageOf(s.pagination)),
      KEY_ALIAS, table, JOIN_ROOT_ALIAS, PlainJoined(AND, RootJoin(meta)),
        OrderRefs(JOIN_ROOT_ALIAS, meta.sourceColumns, s.orderBy))
  }

  /** The whole statement is read, and every argument is taken by its placeholder. */
  lemma TopNReads(q: AssociationQuery, d: Schema.Descriptor, meta: Metadata, s: Selection, columns: seq<string>)
    requires q.WellFormed() && q.alias != "" && LinkArgs(q.join) == [] && |columns| > 0
    requires Shaped(meta) && |AssociationColumns(meta)| == |s.orderBy| == |meta.sourceColumns|
    requires s.pagination.Valid() && s.pagination.limit.Some?
    ensures ParseTopN(TopNText(q, d, meta, s, columns), AllArgs(q.where) + LimitArgs(s.pagination))
      == Got(TopNOf(q, d.table, meta, columns, s), [], [])
  {
    hide ParseColumns, ParseDerived, ParseRoot, ColumnList, DerivedText, RootText, TopNText, FromOf, Refs;
    hide OrderRefs, RootJoin, LimitArgs, AllArgs;
    TextIsWhole(q, d, meta, s, columns);
    var hint := if IsVia(meta) then [] else [LEADING];
    var root := RootText(d.table, meta, s.orderBy);
    var derived := DerivedText(q, AssociationColumns(meta), s.orderBy, s.pagination) + root;
    var inner := [Word(FROM), LParen, Word(SELECT)] + derived;
    var list := ColumnList(JOIN_ROOT_ALIAS, columns) + inner;
    var text := [Word(SELECT)] + (hint + list);
    assert text[1..] == hint + list;
    ListHasNoHint(columns, inner);
    assert SkipHint(hint + list) == list by { HintSkipped(hint, list); }
    ColumnsRead(JOIN_ROOT_ALIAS, columns, inner);
    Expected([Word(FROM), LParen, Word(SELECT)], derived);
    RootStarts(d.table, meta, s.orderBy);
    DerivedReads(q, AssociationColumns(meta), s.orderBy, s.pagination, root, []);
    assert LimitArgs(s.pagination) + [] == LimitArgs(s.pagination);
    RootReads(d.table, meta, s.orderBy);
  }

  /** Join order is asked for in one of two ways: by the hint after SELECT, or for an edge model, whose keys may be
      NULL, by STRAIGHT_JOIN between the derived table and the root. */
  lemma JoinOrderIsAsked(
    catalog: Schema.Catalog, d: Schema.Descriptor, relation: Schema.Relation, meta: Metadata, q: AssociationQuery,
      s: Selection, columns: seq<string>)
    requires MetadataFor(catalog, d, relation) == Some(meta) && q.WellFormed() && Shaped(meta) && |columns| > 0
    requires |AssociationColumns(meta)| == |s.orderBy| == |meta.sourceColumns|
    ensures var edges := relation.kind == Schema.ManyToMany && relation.via != "";
      var text := TopNText(q, d, meta, s, columns);
      && |text| > 1 && (text[1] == LEADING <==> !edges)
      && (RootText(d.table, meta, s.orderBy)[3] == Literal("STRAIGHT_JOIN") <==> edges)
      && (RootText(d.table, meta, s.orderBy)[3] == Word(JOIN) <==> !edges)
  {
    hide ColumnList, FromText, KeyOrderList, LimitText, PrintJoined, TableText, DerivedText, TopNText, RootJoin;
    hide Schema.SoftDeleteColumn, Schema.Columns, Schema.GoNames, DeclaredKeys, KeyNames, PairUnique, Deduplicated;
    TextIsWhole(q, d, meta, s, columns);
    ListHasNoHint(columns, [Word(FROM), LParen, Word(SELECT)]
      + (DerivedText(q, AssociationColumns(meta), s.orderBy, s.pagination) + RootText(d.table, meta, s.orderBy)));
  }

  lemma HintSkipped(hint: seq<Token>, list: seq<Token>)
    requires (hint == [] || hint == [LEADING]) && !(|list| > 0 && list[0].Hint?)
    ensures SkipHint(hint + list) == list
  {
    if hint == [] {
      assert hint + list == list;
    } else {
      assert (hint + list)[1..] == list;
    }
  }

  lemma ListHasNoHint(columns: seq<string>, rest: seq<Token>)
    requires |columns| > 0
    ensures var text := ColumnList(JOIN_ROOT_ALIAS, columns) + rest; |text| > 0 && !text[0].Hint?
  {
    hide ColumnList;
    ListFront(JOIN_ROOT_ALIAS, columns);
  }

  lemma RootStarts(table: string, meta: Metadata, orderBy: seq<OrderTerm>)
    requires Shaped(meta) && |meta.sourceColumns| == |orderBy|
    ensures Starts(RootText(table, meta, orderBy), RParen)
  {
  }

  // ---- what the statement answers ----

  ghost predicate Holds(where: Option<Condition>, scope: Scope, db: Database) {
    where.Some? ==> Eval(where.value, scope, db) == True
  }

  /** The row of the first table, once for each row joined to it that passes. */
  ghost function FromCopies(f: FromRead, row: Row, db: Database): seq<Row> {
    var scope := TableScope(f.table, f.alias, row);
    match f.join
    case None => if Holds(f.where, scope, db) then [row] else []
    case Some(join) =>
      var others := Filter(Rows(db, join.table), other =>
        Eval(join.on, Enter(scope, join.alias, other), db) == True
          && Holds(f.where, Enter(scope, join.alias, other), db));
      seq(|others|, i => row)
  }

  ghost function FromOver(f: FromRead, rows: seq<Row>, db: Database): seq<Row> {
    if |rows| == 0 then [] else FromOver(f, rows[..|rows| - 1], db) + FromCopies(f, rows[|rows| - 1], db)
  }

  /** The columns of the derived table for a row: those that are not NULL. */
  function Derive(keys: seq<ColumnRef>, row: Row): Row {
    if |keys| == 0 then map[]
    else
      var front, last := Derive(keys[..|keys| - 1], row), keys[|keys| - 1];
      if last.name in row then front[last.name := row[last.name]] else front
  }

  function OrderOfColumns(columns: seq<OrderedColumn>): (o: Order)
    ensures o.Valid()
  {
    Order(
      seq(|columns|, i requires 0 <= i < |columns| => columns[i].column.name),
      seq(|columns|, i requires 0 <= i < |columns| => columns[i].descending))
  }

  /** Every reference is to the table with this name. */
  predicate AllOf(alias: string, keys: seq<ColumnRef>, order: seq<OrderedColumn>) {
    && (forall i | 0 <= i < |keys| :: keys[i].qualifier == alias)
    && (forall i | 0 <= i < |order| :: order[i].column.qualifier == alias)
  }

  ghost function JoinedTo(t: TopNRead, page: seq<Row>, db: Database): seq<Row> {
    if |page| == 0 then []
    else
      JoinedTo(t, page[..|page| - 1], db) + Filter(Rows(db, t.root), r =>
        Eval(t.on, map[t.derivedAlias := Derive(t.derived.keys, page[|page| - 1]), t.rootAlias := r], db) == True)
  }

  function Natural(v: Value): nat {
    if v.Int? && v.number >= 0 then v.number else 0
  }

  /** Root rows the server may return: the derived rows ordered and cut to the page, joined to the root, ordered. */
  ghost predicate Answers(t: TopNRead, db: Database, out: seq<Row>) {
    var f := t.derived.source;
    var offset := if t.derived.page.offset.Some? then Natural(t.derived.page.offset.value) else 0;
    && AllOf(f.alias, t.derived.keys, t.derived.order) && AllOf(t.rootAlias, t.columns, t.order)
    && exists full ::
      && IsOrdered(OrderOfColumns(t.derived.order), FromOver(f, Rows(db, f.table), db), full)
      && IsOrdered(OrderOfColumns(t.order), JoinedTo(t, Page(full, offset, Natural(t.derived.page.limit)), db), out)
  }

  // ---- it answers what was meant ----

  lemma CopiesAgree(q: AssociationQuery, row: Row, db: Database)
    requires q.WellFormed()
    ensures FromCopies(FromOf(q), row, db) == q.Copies(row, db)
  {
    hide Eval, PlainJoined;
    if q.join.Some? {
      var link := q.join.value;
      var scope := TableScope(q.table, q.alias, row);
      var p := (other: Row) => Eval(PlainJoined(AND, link.on), Enter(scope, link.alias, other), db) == True
        && Holds(FromOf(q).where, Enter(scope, link.alias, other), db);
      forall other: Row
        ensures p(other) <==> q.PairPasses(row, other, db)
      {
      }
      FilterSame(Rows(db, link.table), p, other => q.PairPasses(row, other, db));
    }
  }

  lemma {:induction false} OverAgrees(q: AssociationQuery, rows: seq<Row>, db: Database)
    requires q.WellFormed()
    ensures FromOver(FromOf(q), rows, db) == q.Over(rows, db)
  {
    hide FromCopies, AssociationQuery.Copies, FromOf;
    if |rows| > 0 {
      OverAgrees(q, rows[..|rows| - 1], db);
      CopiesAgree(q, rows[|rows| - 1], db);
    }
  }

  lemma {:induction false} DeriveIs(alias: string, columns: seq<string>, row: Row, c: string)
    ensures Column(Derive(Refs(alias, columns), row), c) == if c in columns then Column(row, c) else None
  {
    if |columns| > 0 {
      var n := |columns| - 1;
      DeriveIs(alias, columns[..n], row, c);
      assert Refs(alias, columns)[..n] == Refs(alias, columns[..n]);
      assert columns == columns[..n] + [columns[n]];
    }
  }

  lemma DeriveLinks(alias: string, columns: seq<string>, row: Row, other: Row, otherColumns: seq<string>)
    requires |columns| == |otherColumns|
    ensures Linked(Derive(Refs(alias, columns), row), columns, other, otherColumns) <==> Linked(row, columns, other,
      otherColumns)
  {
    forall i | 0 <= i < |columns|
      ensures Column(Derive(Refs(alias, columns), row), columns[i]) == Column(row, columns[i])
    {
      DeriveIs(alias, columns, row, columns[i]);
    }
  }

  lemma OnLinks(meta: Metadata, a: Row, r: Row, db: Database)
    requires Shaped(meta) && |AssociationColumns(meta)| == |meta.sourceColumns|
    ensures Eval(PlainJoined(AND, RootJoin(meta)),
      map[KEY_ALIAS := Derive(Refs(ASSOCIATION_ALIAS, AssociationColumns(meta)), a), JOIN_ROOT_ALIAS := r], db) == True
      <==> Linked(a, AssociationColumns(meta), r, meta.sourceColumns)
  {
    hide Eval, PlainJoined, Linked, Derive;
    var scope := map[KEY_ALIAS := Derive(Refs(ASSOCIATION_ALIAS, AssociationColumns(meta)), a), JOIN_ROOT_ALIAS := r];
    assert KEY_ALIAS[7] == 'k' && JOIN_ROOT_ALIAS[7] == 't';
    EqualitiesMeaning(KEY_ALIAS, AssociationColumns(meta), JOIN_ROOT_ALIAS, meta.sourceColumns, scope, db);
    DeriveLinks(ASSOCIATION_ALIAS, AssociationColumns(meta), a, r, meta.sourceColumns);
  }

  lemma {:induction false} JoinAgrees(w: Setting, t: TopNRead, page: seq<Row>)
    requires Shaped(w.Meta()) && AllAccepted(w.Children(), w.catalog, w.Target())
      && |AssociationColumns(w.Meta())| == |w.Meta().sourceColumns|
    requires t.root == w.d.table && t.derivedAlias == KEY_ALIAS && t.rootAlias == JOIN_ROOT_ALIAS
    requires t.on == PlainJoined(AND, RootJoin(w.Meta()))
    requires t.derived.keys == Refs(ASSOCIATION_ALIAS, AssociationColumns(w.Meta()))
    ensures JoinedTo(t, page, w.db) == w.Scene().JoinRoots(page)
  {
    hide Eval, PlainJoined, Derive, Linked, Accepted;
    if |page| > 0 {
      var a := page[|page| - 1];
      JoinAgrees(w, t, page[..|page| - 1]);
      var p := (r: Row) => Eval(t.on, map[t.derivedAlias := Derive(t.derived.keys, a), t.rootAlias := r], w.db) == True;
      forall r: Row
        ensures p(r) <==> w.Scene().Links(a, r)
      {
        OnLinks(w.Meta(), a, r, w.db);
      }
      FilterSame(Rows(w.db, t.root), p, r => w.Scene().Links(a, r));
    }
  }

  lemma OrderAgrees(alias: string, columns: seq<string>, orderBy: seq<OrderTerm>)
    requires |columns| == |orderBy|
    ensures OrderOfColumns(OrderRefs(alias, columns, orderBy)) == Order(columns, Directions(orderBy))
  {
    var o := OrderOfColumns(OrderRefs(alias, columns, orderBy));
    assert o.columns == columns && o.descending == Directions(orderBy);
  }

  lemma LinkTakesNothing(catalog: Schema.Catalog, plan: RewritePlan)
    requires PlanReady(catalog, plan)
    ensures TopNQuery(catalog, plan).alias == ASSOCIATION_ALIAS && LinkArgs(TopNQuery(catalog, plan).join) == []
  {
    if JoinsTarget(plan) {
      NoEqualityArguments(TargetLink(plan.meta).on);
    }
  }

  function OffsetOf(p: SelectClause.Pagination): nat
    requires p.Valid()
  {
    if p.offset.Some? then p.offset.value else 0
  }

  /** The text of the TopN rewrite, read back whole, answers what the rewrite is proved about: the limited association
      rows joined to their roots. */
  lemma TopNTextAnswers(w: Setting, columns: seq<string>)
    requires TopNSetting(w) && w.s.pagination.Valid() && |columns| > 0
    ensures PlanReady(w.catalog, w.plan) && AllAccepted(w.Children(), w.catalog, w.Target())
    ensures |AssociationColumns(w.Meta())| == |w.s.orderBy| == |w.Meta().sourceColumns| && w.s.pagination.limit.Some?
    ensures var q := TopNQuery(w.catalog, w.plan);
      var read := ParseTopN(TopNText(q, w.d, w.Meta(), w.s, columns), AllArgs(q.where) + LimitArgs(w.s.pagination));
      && read.Got? && read.rest == [] && read.more == [] && read.item.columns == Refs(JOIN_ROOT_ALIAS, columns)
      && forall out :: Answers(read.item, w.db, out) <==> TopNAnswer(w, OffsetOf(w.s.pagination),
        w.s.pagination.limit.value, out)
  {
    TopNReady(w);
    hide Setting.Valid, Setting.Scene, TopNQuery, PlanReady, Accepted, ParseTopN, TopNText, AssociationQuery.Selected;
    var q := TopNQuery(w.catalog, w.plan);
    LinkTakesNothing(w.catalog, w.plan);
    TopNReads(q, w.d, w.Meta(), w.s, columns);
    MeaningAgrees(w, columns);
  }

  lemma MeaningAgrees(w: Setting, columns: seq<string>)
    requires TopNSetting(w) && Shaped(w.Meta()) && w.s.pagination.Valid() && w.s.pagination.limit.Some?
    requires PlanReady(w.catalog, w.plan) && AllAccepted(w.Children(), w.catalog, w.Target())
    requires |AssociationColumns(w.Meta())| == |w.s.orderBy| == |w.Meta().sourceColumns|
    ensures var t := TopNOf(TopNQuery(w.catalog, w.plan), w.d.table, w.Meta(), columns, w.s);
      forall out :: Answers(t, w.db, out) <==> TopNAnswer(w, OffsetOf(w.s.pagination), w.s.pagination.limit.value, out)
  {
    hide Setting.Valid, Setting.Scene, TopNQuery, PlanReady, Accepted, FromOf, FromOver;
    hide AssociationQuery.Over, IsOrdered, Page, JoinedTo, Scene.JoinRoots;
    hide OrderOfColumns, OrderRefs, Refs, AllOf, Directions, TopNAllowed, RootJoin, Shaped, AssociationColumns;
    var q := TopNQuery(w.catalog, w.plan);
    var t := TopNOf(q, w.d.table, w.Meta(), columns, w.s);
    LinkTakesNothing(w.catalog, w.plan);
    OrderAgrees(q.alias, AssociationColumns(w.Meta()), w.s.orderBy);
    OrderAgrees(JOIN_ROOT_ALIAS, w.Meta().sourceColumns, w.s.orderBy);
    OverAgrees(q, Rows(w.db, q.table), w.db);
    AllOfRefs(q.alias, AssociationColumns(w.Meta()), AssociationColumns(w.Meta()), w.s.orderBy);
    AllOfRefs(JOIN_ROOT_ALIAS, columns, w.Meta().sourceColumns, w.s.orderBy);
    forall page
      ensures JoinedTo(t, page, w.db) == w.Scene().JoinRoots(page)
    {
      JoinAgrees(w, t, page);
    }
    FromNames(q);
  }

  lemma AllOfRefs(alias: string, columns: seq<string>, ordered: seq<string>, orderBy: seq<OrderTerm>)
    requires |ordered| == |orderBy|
    ensures AllOf(alias, Refs(alias, columns), OrderRefs(alias, ordered, orderBy))
  {
  }

  lemma FromNames(q: AssociationQuery)
    requires q.WellFormed()
    ensures FromOf(q).table == q.table && FromOf(q).alias == q.alias
  {
  }

  // ---- the count ----

  datatype CountRead = CountRead(table: string, where: Option<Condition>)

  function ParseCount(text: seq<Token>, args: seq<Value>): Parsed<CountRead> {
    if |text| < 4 || text[..3] != [Word(SELECT), Literal("COUNT(*)"), Word(FROM)] || !text[3].Ident? then Bad
    else
      match ParseWhere(text[4..], args)
      case Bad => Bad
      case Got(where, rest, more) => Got(CountRead(text[3].name, where), rest, more)
  }

  /** How many rows of the bare table pass. */
  ghost function CountAnswer(c: CountRead, db: Database): nat {
    |FromOver(FromRead(c.table, "", None, c.where), Rows(db, c.table), db)|
  }

  /** The text of the Count rewrite, read back whole, counts the association rows it is proved to count. */
  lemma CountTextAnswers(w: Setting)
    requires PlanReady(w.catalog, w.plan) && !JoinsTarget(w.plan)
    ensures var q := CountQuery(w.catalog, w.plan);
      var read := ParseCount(CountText(q), AllArgs(q.where));
      && read.Got? && read.rest == [] && read.more == [] && CountAnswer(read.item, w.db) == |q.Selected(w.db)|
  {
    hide PlanReady, ParseWhere, WhereText, AllArgs, PlainJoined, FromOver, AssociationQuery.Over;
    var q := CountQuery(w.catalog, w.plan);
    var text := [Word(SELECT), Literal("COUNT(*)"), Word(FROM), Ident(q.table)] + WhereText(q.where);
    assert text[4..] == WhereText(q.where) + [] && AllArgs(q.where) + [] == AllArgs(q.where);
    assert text[..3] == [Word(SELECT), Literal("COUNT(*)"), Word(FROM)];
    WhereReads(q.where, [], []);
    OverAgrees(q, Rows(w.db, q.table), w.db);
  }
}
