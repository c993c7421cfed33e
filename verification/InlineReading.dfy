/** Reading the select list and the LEFT JOINs of a statement with inlined relations back
    (orm/inline_preload.go:157-189), and the rows they give. */
module InlineReading {
  import opened SqlValues
  import opened SqlText
  import opened SqlClause
  import opened StatementLists
  import opened InlinePreload
  import opened InlineJoin
  import opened InlineWriter

  // ---- the joins ----

  /** LEFT JOIN table AS alias ON ( on ). */
  datatype LeftJoinRead = LeftJoinRead(table: string, alias: string, on: Condition)

  function ParseLeftJoins(text: seq<Token>, args: seq<Value>): (r: Parsed<seq<LeftJoinRead>>)
    decreases |text|
  {
    if !Starts(text, Literal("LEFT")) then Got([], text, args)
    else
      match ParseJoinHead(text[1..])
      case None => Bad
      case Some(source) =>
        match ParseGroup(source.rest, args)
        case Bad => Bad
        case Got(on, rest, more) =>
          match ParseLeftJoins(rest, more)
          case Bad => Bad
          case Got(others, after, left) => Got([LeftJoinRead(source.table, source.alias, on)] + others, after, left)
  }

  function JoinRead(j: Join): LeftJoinRead
    requires Valid(j.plan)
  {
    LeftJoinRead(j.plan.table, j.alias, PlainJoined(AND, On(j)))
  }

  function JoinReads(js: seq<Join>): (rs: seq<LeftJoinRead>)
    requires forall j <- js :: Valid(j.plan)
    ensures |rs| == |js|
  {
    seq(|js|, i requires 0 <= i < |js| => JoinRead(js[i]))
  }

  lemma JoinTextThen(j: Join, rest: seq<Token>)
    requires Valid(j.plan)
    ensures JoinText(j) + rest == [Literal("LEFT")] + ([Word(JOIN)] + (TableText(j.plan.table, j.alias)
      + ([Word(ON), LParen] + (PrintJoined(AND, On(j)) + ([RParen] + rest)))))
  {
    hide TableText, PrintJoined, On;
    var t, o, p := TableText(j.plan.table, j.alias), [Word(ON), LParen], PrintJoined(AND, On(j));
    assert [Literal("LEFT"), Word(JOIN)] == [Literal("LEFT")] + [Word(JOIN)];
    Regroup([Literal("LEFT"), Word(JOIN)], t + (o + (p + [RParen])), rest);
    Regroup(t, o + (p + [RParen]), rest);
    Regroup(o, p + [RParen], rest);
    Regroup(p, [RParen], rest);
    Regroup([Literal("LEFT")], [Word(JOIN)], t + (o + (p + ([RParen] + rest))));
  }

  lemma OneJoinReads(j: Join, rest: seq<Token>, args: seq<Value>)
    requires Valid(j.plan)
    ensures var text := JoinText(j) + rest;
      Starts(text, Literal("LEFT")) && ParseJoinHead(text[1..]).Some? &&
      var source := ParseJoinHead(text[1..]).value;
      source.table == j.plan.table && source.alias == j.alias
        && ParseGroup(source.rest, args) == Got(PlainJoined(AND, On(j)), rest, args)
  {
    hide TableText, PrintJoined, PlainJoined, ParseGroup, ParseJoinHead, On, JoinText;
    JoinTextThen(j, rest);
    var body := PrintJoined(AND, On(j)) + ([RParen] + rest);
    var tail := [Word(JOIN)] + (TableText(j.plan.table, j.alias) + ([Word(ON), LParen] + body));
    assert (JoinText(j) + rest)[1..] == tail;
    JoinHeadReads(j.plan.table, j.alias, body);
    OnTakesNothing(j);
    assert [] + args == args;
    GroupReads(AND, On(j), rest, args);
  }

  lemma OnTakesNothing(j: Join)
    requires Valid(j.plan)
    ensures AllArgs(On(j)) == []
  {
    NoOnArguments(On(j));
  }

  lemma LeftJoinStep(
    text: seq<Token>, source: Source, args: seq<Value>, on: Condition, more: seq<Token>,
    others: seq<LeftJoinRead>, rest: seq<Token>)
    requires Starts(text, Literal("LEFT")) && ParseJoinHead(text[1..]) == Some(source)
    requires ParseGroup(source.rest, args) == Got(on, more, args)
    requires ParseLeftJoins(more, args) == Got(others, rest, args)
    ensures ParseLeftJoins(text, args) == Got([LeftJoinRead(source.table, source.alias, on)] + others, rest, args)
  {
    hide ParseJoinHead, ParseGroup;
  }

  /** The joins are read one by one, no argument is taken, and what follows is left. */
  lemma {:induction false} JoinsAreRead(js: seq<Join>, rest: seq<Token>, args: seq<Value>)
    requires (forall j <- js :: Valid(j.plan)) && !Starts(rest, Literal("LEFT"))
    ensures ParseLeftJoins(JoinsText(js) + rest, args) == Got(JoinReads(js), rest, args)
  {
    hide JoinText, JoinRead, JoinReads, JoinsText, ParseJoinHead, ParseGroup, ParseLeftJoins, Valid, On, PlainJoined;
    if js == [] {
      NothingRead(js, rest, args);
    } else {
      var tail := js[1..];
      assert js == [js[0]] + tail && forall j <- tail :: j in js;
      JoinsTextOn([js[0]], tail);
      OneText(js[0]);
      var more := JoinsText(tail) + rest;
      var text := JoinText(js[0]) + more;
      Regroup(JoinText(js[0]), JoinsText(tail), rest);
      JoinsAreRead(tail, rest, args);
      OneJoinReads(js[0], more, args);
      ReadIs(js[0]);
      var source := ParseJoinHead(text[1..]).value;
      LeftJoinStep(text, source, args, PlainJoined(AND, On(js[0])), more, JoinReads(tail), rest);
      ReadsFront(js);
    }
  }

  lemma ReadsFront(js: seq<Join>)
    requires (forall j <- js :: Valid(j.plan)) && |js| > 0
    ensures (forall j <- js[1..] :: j in js && Valid(j.plan)) && JoinReads(js) == [JoinRead(js[0])] + JoinReads(js[1..])
  {
    hide JoinRead, Valid;
  }

  lemma NothingRead(js: seq<Join>, rest: seq<Token>, args: seq<Value>)
    requires js == [] && !Starts(rest, Literal("LEFT"))
    ensures ParseLeftJoins(JoinsText(js) + rest, args) == Got(JoinReads(js), rest, args)
  {
    assert JoinsText(js) + rest == rest;
  }

  lemma OneText(j: Join)
    requires Valid(j.plan)
    ensures JoinsText([j]) == JoinText(j)
  {
    hide JoinText;
    assert [j][..0] == [];
  }

  lemma ReadIs(j: Join)
    requires Valid(j.plan)
    ensures JoinRead(j) == LeftJoinRead(j.plan.table, j.alias, PlainJoined(AND, On(j)))
  {
  }

  // ---- the rows ----

  /** The rows a LEFT JOIN pairs with one row: those for which ON is TRUE, or a row of NULLs. */
  ghost function Paired(l: LeftJoinRead, rows: seq<Row>, scope: Scope, db: Database): seq<Row> {
    if |rows| == 0 then []
    else
      var n := |rows| - 1;
      Paired(l, rows[..n], scope, db) + if Eval(l.on, Enter(scope, l.alias, rows[n]), db) == True then [rows[n]] else []
  }

  ghost function LeftRows(l: LeftJoinRead, scope: Scope, db: Database): seq<Scope> {
    var rows := Paired(l, Rows(db, l.table), scope, db);
    if |rows| == 0 then [Enter(scope, l.alias, map[])]
    else seq(|rows|, i requires 0 <= i < |rows| => Enter(scope, l.alias, rows[i]))
  }

  ghost function LeftEach(l: LeftJoinRead, scopes: seq<Scope>, db: Database): seq<Scope> {
    if |scopes| == 0 then [] else LeftEach(l, scopes[..|scopes| - 1], db) + LeftRows(l, scopes[|scopes| - 1], db)
  }

  ghost function LeftAll(ls: seq<LeftJoinRead>, scope: Scope, db: Database): seq<Scope> {
    if |ls| == 0 then [scope] else LeftEach(ls[|ls| - 1], LeftAll(ls[..|ls| - 1], scope, db), db)
  }

  lemma {:induction false} PairedIsMatching(j: Join, rows: seq<Row>, scope: Scope, db: Database)
    requires Valid(j.plan)
    ensures Paired(JoinRead(j), rows, scope, db) == Matching(j, rows, scope, db)
  {
    hide Eval, PlainJoined, Valid;
    if |rows| > 0 {
      PairedIsMatching(j, rows[..|rows| - 1], scope, db);
    }
  }

  lemma {:induction false} EachAgrees(j: Join, scopes: seq<Scope>, db: Database)
    requires Valid(j.plan)
    ensures LeftEach(JoinRead(j), scopes, db) == JoinEach(j, scopes, db)
  {
    hide Paired, Matching, Valid;
    if |scopes| > 0 {
      EachAgrees(j, scopes[..|scopes| - 1], db);
      PairedIsMatching(j, Rows(db, j.plan.table), scopes[|scopes| - 1], db);
    }
  }

  /** The joins that are read give the rows that the hydration is proved about. */
  lemma {:induction false} JoinsMeanFrom(js: seq<Join>, scope: Scope, db: Database)
    requires forall j <- js :: Valid(j.plan)
    ensures LeftAll(JoinReads(js), scope, db) == From(js, scope, db)
  {
    hide LeftEach, JoinEach, JoinRead, Valid;
    if |js| > 0 {
      var n := |js| - 1;
      JoinsMeanFrom(js[..n], scope, db);
      EachAgrees(js[n], From(js[..n], scope, db), db);
      assert JoinReads(js)[..n] == JoinReads(js[..n]);
    }
  }

  // ---- the select list ----

  function FieldRefs(alias: string, fields: seq<ScanField>): (refs: seq<ColumnRef>)
    ensures |refs| == |fields|
  {
    seq(|fields|, i requires 0 <= i < |fields| => ColumnRef(alias, fields[i].column))
  }

  /** The emitted columns, join by join. */
  function JoinedRefs(js: seq<Join>): seq<ColumnRef> {
    if |js| == 0 then [] else JoinedRefs(js[..|js| - 1]) + FieldRefs(js[|js| - 1].alias, js[|js| - 1].plan.fields)
  }

  /** Each column after a comma. */
  function CommaText(refs: seq<ColumnRef>): seq<Token> {
    if |refs| == 0 then [] else CommaText(refs[..|refs| - 1]) + ([Comma] + ColumnText(refs[|refs| - 1]))
  }

  lemma {:induction false} CommaTextOn(a: seq<ColumnRef>, b: seq<ColumnRef>)
    ensures CommaText(a + b) == CommaText(a) + CommaText(b)
    decreases |b|
  {
    hide ColumnText;
    if b == [] {
      assert a + b == a;
    } else {
      assert (a + b)[..|a + b| - 1] == a + b[..|b| - 1];
      CommaTextOn(a, b[..|b| - 1]);
      Regroup(CommaText(a), CommaText(b[..|b| - 1]), [Comma] + ColumnText(b[|b| - 1]));
    }
  }

  lemma {:induction false} FieldsAreCommas(alias: string, fields: seq<ScanField>)
    ensures FieldsText(alias, fields) == CommaText(FieldRefs(alias, fields))
  {
    hide ColumnText;
    if |fields| > 0 {
      FieldsAreCommas(alias, fields[..|fields| - 1]);
      assert FieldRefs(alias, fields)[..|fields| - 1] == FieldRefs(alias, fields[..|fields| - 1]);
    }
  }

  lemma {:induction false} ColumnsAreCommas(js: seq<Join>)
    ensures ColumnsText(js) == CommaText(JoinedRefs(js))
  {
    hide CommaText, FieldsText;
    if |js| > 0 {
      var last := js[|js| - 1];
      ColumnsAreCommas(js[..|js| - 1]);
      FieldsAreCommas(last.alias, last.plan.fields);
      CommaTextOn(JoinedRefs(js[..|js| - 1]), FieldRefs(last.alias, last.plan.fields));
    } else {
      NoCommas();
    }
  }

  lemma NoCommas()
    ensures CommaText([]) == []
  {
  }

  /** A column and others after commas are read as one list. */
  lemma {:induction false} ColumnsAreRead(first: ColumnRef, refs: seq<ColumnRef>, rest: seq<Token>)
    requires !Starts(rest, Comma) && !Starts(rest, Dot)
    ensures ParseColumns(ColumnText(first) + (CommaText(refs) + rest)) == Listed([first] + refs, rest)
    decreases |refs|
  {
    hide ColumnText, CommaText, ParseColumn;
    NoCommas();
    if |refs| == 0 {
      assert CommaText(refs) + rest == rest;
      ColumnReads(first, rest, []);
      assert [first] + refs == [first];
    } else {
      var more := ColumnText(refs[0]) + (CommaText(refs[1..]) + rest);
      CommaFront(refs, rest);
      ColumnReads(first, [Comma] + more, []);
      assert ([Comma] + more)[1..] == more;
      ColumnsAreRead(refs[0], refs[1..], rest);
      assert [refs[0]] + refs[1..] == refs;
    }
  }

  lemma CommaFront(refs: seq<ColumnRef>, rest: seq<Token>)
    requires |refs| > 0
    ensures CommaText(refs) + rest == [Comma] + (ColumnText(refs[0]) + (CommaText(refs[1..]) + rest))
  {
    hide ColumnText;
    assert refs == [refs[0]] + refs[1..];
    CommaTextOn([refs[0]], refs[1..]);
    assert [refs[0]][..0] == [] && CommaText([refs[0]]) == [Comma] + ColumnText(refs[0]);
    Regroup([Comma] + ColumnText(refs[0]), CommaText(refs[1..]), rest);
    Regroup([Comma], ColumnText(refs[0]), CommaText(refs[1..]) + rest);
  }

  function CellsAt(refs: seq<ColumnRef>, s: Scope): (cells: Cells)
    ensures |cells| == |refs|
  {
    seq(|refs|, i requires 0 <= i < |refs| => Lookup(s, refs[i]))
  }

  /** The columns that are read, taken from a row of the FROM clause, are the values that are hydrated. */
  lemma {:induction false} RefsAreSelected(js: seq<Join>, s: Scope)
    ensures CellsAt(JoinedRefs(js), s) == Selected(js, s)
  {
    if |js| > 0 {
      var last := js[|js| - 1];
      RefsAreSelected(js[..|js| - 1], s);
      FieldCells(last.alias, last.plan.fields, s);
      var a, b := JoinedRefs(js[..|js| - 1]), FieldRefs(last.alias, last.plan.fields);
      assert CellsAt(a + b, s) == CellsAt(a, s) + CellsAt(b, s);
    }
  }

  lemma FieldCells(alias: string, fields: seq<ScanField>, s: Scope)
    ensures CellsAt(FieldRefs(alias, fields), s) == CellsOf(fields, RowAt(s, alias))
  {
  }

  /** What the written columns and joins return for a root row is hydrated to the rows the root is joined to. */
  lemma WrittenJoinsHydrate(
    plans: seq<InlinePlan>, root: string, next: nat, row: Row, db: Database, first: ColumnRef, rest: seq<Token>,
      args: seq<Value>)
    requires AllValid(plans) && (forall plan <- plans :: StoresFit(plan, db)) && RootName(root, next)
    requires !Starts(rest, Comma) && !Starts(rest, Dot) && !Starts(rest, Literal("LEFT"))
    ensures var js := Joins(plans, root, next);
      var columns, joins := ParseColumns(ColumnText(first) + (ColumnsText(js) + rest)),
        ParseLeftJoins(JoinsText(js) + rest, args);
      && columns.Listed? && columns.rest == rest && |columns.items| > 0
      && joins.Got? && joins.rest == rest && joins.more == args
      && forall s <- LeftAll(joins.item, map[root := row], db) ::
        var ts := TreesOf(plans, s, next);
        UnflattenAll(plans, CellsAt(columns.items[1..], s)) == Hydrated(ts) && AllJoinedTo(plans, row, ts, db)
  {
    hide UnflattenAll, TreesOf, From, LeftAll, ParseColumns, ParseLeftJoins, JoinsText, ColumnsText;
    hide ColumnText, CommaText, Selected, StoresFit, Valid;
    var js := Joins(plans, root, next);
    ColumnsAreCommas(js);
    ColumnsAreRead(first, JoinedRefs(js), rest);
    assert ([first] + JoinedRefs(js))[1..] == JoinedRefs(js);
    JoinsAreRead(js, rest, args);
    JoinsMeanFrom(js, map[root := row], db);
    forall s <- From(js, map[root := row], db)
      ensures UnflattenAll(plans, CellsAt(JoinedRefs(js), s)) == Hydrated(TreesOf(plans, s, next))
      ensures AllJoinedTo(plans, row, TreesOf(plans, s, next), db)
    {
      HydrationIsJoin(plans, root, next, row, db, s);
      RefsAreSelected(js, s);
    }
  }
}
