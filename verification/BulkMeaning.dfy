/** What an UPDATE text means (orm/bulk_update.go:257-320, orm/mutation.go:551-567): a reader of its SET list, CASE
    arms, WHERE tests and IN list, the rows it leaves, and that both statements of a batch mean their batch. */
module BulkMeaning {
  import opened SqlValues
  import opened BulkUpdate
  import opened BulkArguments
  import opened BulkExec

  datatype Test =
    | Equals(column: string, value: Option<Value>)
    | IsNull(column: string)
    | InRows(columns: seq<string>, rows: seq<seq<Option<Value>>>)

  datatype CaseArm = CaseArm(tests: seq<Test>, value: Option<Value>)

  datatype Expression = Fixed(value: Option<Value>) | Case(arms: seq<CaseArm>, otherwise: string)

  datatype Assigned = Assigned(column: string, expression: Expression)

  datatype UpdateText = UpdateText(table: string, sets: seq<Assigned>, where: seq<Test>)

  // ---- reading it ----

  datatype Parsed<+T> = Fails | Reads(item: T, rest: seq<Chunk>)

  predicate Starts(c: seq<Chunk>, text: string) {
    |c| > 0 && c[0] == Text(text)
  }

  function ParseNames(c: seq<Chunk>): (r: Parsed<seq<string>>)
    ensures r.Reads? ==> |r.rest| < |c|
    decreases |c|
  {
    if |c| == 0 || !c[0].Quoted? then Fails
    else if !Starts(c[1..], ", ") then Reads([c[0].name], c[1..])
    else
      match ParseNames(c[2..])
      case Fails => Fails
      case Reads(more, rest) => Reads([c[0].name] + more, rest)
  }

  function ParseValues(c: seq<Chunk>): (r: Parsed<seq<Option<Value>>>)
    ensures r.Reads? ==> |r.rest| < |c|
    decreases |c|
  {
    if |c| == 0 || !c[0].Bound? then Fails
    else if !Starts(c[1..], ", ") then Reads([c[0].value], c[1..])
    else
      match ParseValues(c[2..])
      case Fails => Fails
      case Reads(more, rest) => Reads([c[0].value] + more, rest)
  }

  /** One row of an IN list: a value, or values in parentheses. */
  function ParseRow(width: nat, c: seq<Chunk>): (r: Parsed<seq<Option<Value>>>)
    ensures r.Reads? ==> |r.rest| < |c|
  {
    if width == 1 then (if |c| > 0 && c[0].Bound? then Reads([c[0].value], c[1..]) else Fails)
    else if !Starts(c, "(") then Fails
    else
      match ParseValues(c[1..])
      case Fails => Fails
      case Reads(row, rest) => if |row| == width && Starts(rest, ")") then Reads(row, rest[1..]) else Fails
  }

  function ParseRows(width: nat, c: seq<Chunk>): (r: Parsed<seq<seq<Option<Value>>>>)
    ensures r.Reads? ==> |r.rest| < |c|
    decreases |c|
  {
    match ParseRow(width, c)
    case Fails => Fails
    case Reads(row, rest) =>
      if !Starts(rest, ", ") then Reads([row], rest)
      else
        match ParseRows(width, rest[1..])
        case Fails => Fails
        case Reads(more, after) => Reads([row] + more, after)
  }

  function ParseIn(columns: seq<string>, c: seq<Chunk>): (r: Parsed<Test>)
    ensures r.Reads? ==> |r.rest| < |c|
  {
    match ParseRows(|columns|, c)
    case Fails => Fails
    case Reads(rows, rest) => if Starts(rest, ")") then Reads(InRows(columns, rows), rest[1..]) else Fails
  }

  function ParseTest(c: seq<Chunk>): (r: Parsed<Test>)
    ensures r.Reads? ==> |r.rest| < |c|
  {
    if |c| >= 2 && c[0].Quoted? then
      if c[1] == Text(" = ") then (if |c| >= 3 && c[2].Bound? then Reads(Equals(c[0].name, c[2].value),
        c[3..]) else Fails)
      else if c[1] == Text(" IS NULL") then Reads(IsNull(c[0].name), c[2..])
      else if c[1] == Text(" IN (") then ParseIn([c[0].name], c[2..])
      else Fails
    else if !Starts(c, "(") then Fails
    else
      match ParseNames(c[1..])
      case Fails => Fails
      case Reads(names, rest) =>
        if |rest| >= 2 && rest[0] == Text(")") && rest[1] == Text(" IN (") then ParseIn(names, rest[2..]) else Fails
  }

  function ParseTests(c: seq<Chunk>): (r: Parsed<seq<Test>>)
    ensures r.Reads? ==> |r.rest| < |c|
    decreases |c|
  {
    match ParseTest(c)
    case Fails => Fails
    case Reads(test, rest) =>
      if !Starts(rest, " AND ") then Reads([test], rest)
      else
        match ParseTests(rest[1..])
        case Fails => Fails
        case Reads(more, after) => Reads([test] + more, after)
  }

  /** WHEN value THEN value for a CASE over a column, WHEN tests THEN value otherwise. */
  function ParseArm(operand: Option<string>, c: seq<Chunk>): (r: Parsed<CaseArm>)
    ensures r.Reads? ==> |r.rest| < |c|
  {
    if !Starts(c, "WHEN ") then Fails
    else
      var when: Parsed<seq<Test>> :=
        if operand.None? then ParseTests(c[1..])
        else if |c| >= 2 && c[1].Bound? then Reads([Equals(operand.value, c[1].value)], c[2..])
        else Fails;
      match when
      case Fails => Fails
      case Reads(tests, rest) =>
        if |rest| >= 3 && rest[0] == Text(" THEN ") && rest[1].Bound? && rest[2] == Text(" ")
        then Reads(CaseArm(tests, rest[1].value), rest[3..]) else Fails
  }

  function ParseArms(operand: Option<string>, c: seq<Chunk>): (r: Parsed<seq<CaseArm>>)
    ensures r.Reads? ==> |r.rest| < |c|
    decreases |c|
  {
    match ParseArm(operand, c)
    case Fails => Fails
    case Reads(arm, rest) =>
      if !Starts(rest, "WHEN ") then Reads([arm], rest)
      else
        match ParseArms(operand, rest)
        case Fails => Fails
        case Reads(more, after) => Reads([arm] + more, after)
  }

  function ParseCase(c: seq<Chunk>): (r: Parsed<Expression>)
    ensures r.Reads? ==> |r.rest| < |c|
  {
    var over := |c| >= 2 && c[0].Quoted? && c[1] == Text(" ");
    match ParseArms(if over then Some(c[0].name) else None, if over then c[2..] else c)
    case Fails => Fails
    case Reads(arms, rest) =>
      if |rest| >= 3 && rest[0] == Text("ELSE ") && rest[1].Quoted? && rest[2] == Text(" END")
      then Reads(Case(arms, rest[1].name), rest[3..]) else Fails
  }

  function ParseSet(c: seq<Chunk>): (r: Parsed<Assigned>)
    ensures r.Reads? ==> |r.rest| < |c|
  {
    if |c| < 3 || !c[0].Quoted? then Fails
    else if c[1] == Text(" = ") then (if c[2].Bound? then Reads(Assigned(c[0].name, Fixed(c[2].value)),
      c[3..]) else Fails)
    else if c[1] != Text(" = CASE ") then Fails
    else
      match ParseCase(c[2..])
      case Fails => Fails
      case Reads(e, rest) => Reads(Assigned(c[0].name, e), rest)
  }

  function ParseSets(c: seq<Chunk>): (r: Parsed<seq<Assigned>>)
    ensures r.Reads? ==> |r.rest| < |c|
    decreases |c|
  {
    match ParseSet(c)
    case Fails => Fails
    case Reads(one, rest) =>
      if !Starts(rest, ", ") then Reads([one], rest)
      else
        match ParseSets(rest[1..])
        case Fails => Fails
        case Reads(more, after) => Reads([one] + more, after)
  }

  function ParseUpdate(c: seq<Chunk>): Parsed<UpdateText> {
    if |c| < 3 || c[0] != Text("UPDATE ") || !c[1].Quoted? || c[2] != Text(" SET ") then Fails
    else
      match ParseSets(c[3..])
      case Fails => Fails
      case Reads(sets, rest) =>
        if !Starts(rest, " WHERE ") then Fails
        else
          match ParseTests(rest[1..])
          case Fails => Fails
          case Reads(where, after) => Reads(UpdateText(c[1].name, sets, where), after)
  }

  // ---- running it ----

  function SameCell(row: Row, column: string, value: Option<Value>): Truth {
    if Column(row, column).None? || value.None? then Unknown else Known(Column(row, column) == value)
  }

  function TupleTruth(row: Row, columns: seq<string>, values: seq<Option<Value>>): Truth {
    if |columns| == 0 || |values| == 0 then True
    else And3(SameCell(row, columns[0], values[0]), TupleTruth(row, columns[1..], values[1..]))
  }

  function RowsTruth(row: Row, columns: seq<string>, rows: seq<seq<Option<Value>>>): Truth {
    if |rows| == 0 then False else Or3(TupleTruth(row, columns, rows[0]), RowsTruth(row, columns, rows[1..]))
  }

  function TestTruth(t: Test, row: Row): Truth {
    match t
    case Equals(column, value) => SameCell(row, column, value)
    case IsNull(column) => Known(Column(row, column).None?)
    case InRows(columns, rows) => RowsTruth(row, columns, rows)
  }

  function AllTruth(tests: seq<Test>, row: Row): Truth {
    if |tests| == 0 then True else And3(TestTruth(tests[0], row), AllTruth(tests[1..], row))
  }

  /** The first arm whose tests are TRUE, or the column after ELSE. */
  function ArmsValue(arms: seq<CaseArm>, otherwise: string, row: Row): Option<Value> {
    if |arms| == 0 then Column(row, otherwise)
    else if AllTruth(arms[0].tests, row) == True then arms[0].value
    else ArmsValue(arms[1..], otherwise, row)
  }

  function ExpressionValue(e: Expression, row: Row): Option<Value> {
    match e
    case Fixed(value) => value
    case Case(arms, otherwise) => ArmsValue(arms, otherwise, row)
  }

  /** The assignments from left to right, each on the row as the ones before it left it. */
  function RunSets(sets: seq<Assigned>, row: Row): Row {
    if |sets| == 0 then row
    else
      var before := RunSets(sets[..|sets| - 1], row);
      Store(before, sets[|sets| - 1].column, ExpressionValue(sets[|sets| - 1].expression, before))
  }

  function RunText(u: UpdateText, table: Table): Table {
    seq(|table|, i requires 0 <= i < |table| =>
      if AllTruth(u.where, table[i]) == True then RunSets(u.sets, table[i]) else table[i])
  }

  // ---- lists from their first element ----

  function Tests(keys: seq<string>, values: seq<Value>): (ts: seq<Test>)
    requires |keys| == |values|
    ensures |ts| == |keys|
  {
    seq(|keys|, i requires 0 <= i < |keys| => Equals(keys[i], Some(values[i])))
  }

  function Somes(values: seq<Value>): (vs: seq<Option<Value>>)
    ensures |vs| == |values|
  {
    seq(|values|, i requires 0 <= i < |values| => Some(values[i]))
  }

  lemma Regrouped(a: seq<Chunk>, b: seq<Chunk>, c: seq<Chunk>)
    ensures (a + b) + c == a + (b + c)
  {
  }

  lemma {:induction false} KeyTestsFront(keys: seq<string>, values: seq<Value>)
    requires |keys| == |values| > 0
    ensures KeyTests(keys, values) == [Quoted(keys[0]), Text(" = "), Bound(Some(values[0]))]
      + if |keys| > 1 then [Text(" AND ")] + KeyTests(keys[1..], values[1..]) else []
  {
    var n := |keys| - 1;
    KeyTestsUnfold(keys, values);
    if n == 0 {
      assert KeyTests(keys[..0], values[..0]) == [];
    } else {
      KeyTestsFront(keys[..n], values[..n]);
      KeyTestsUnfold(keys[1..], values[1..]);
      assert keys[1..][..n - 1] == keys[..n][1..] && values[1..][..n - 1] == values[..n][1..];
      if n == 1 {
        assert KeyTests(keys[1..][..0], values[1..][..0]) == [];
      }
    }
  }

  /** A text that ends a list of tests. */
  predicate EndsTests(rest: seq<Chunk>) {
    !Starts(rest, " AND ")
  }

  lemma EqualsReads(column: string, value: Option<Value>, rest: seq<Chunk>)
    ensures ParseTest([Quoted(column), Text(" = "), Bound(value)] + rest) == Reads(Equals(column, value), rest)
  {
    hide ParseIn, ParseNames;
    assert ([Quoted(column), Text(" = "), Bound(value)] + rest)[3..] == rest;
  }

  lemma TestLast(c: seq<Chunk>, test: Test, rest: seq<Chunk>)
    requires ParseTest(c) == Reads(test, rest) && EndsTests(rest)
    ensures ParseTests(c) == Reads([test], rest)
  {
    hide ParseTest;
  }

  lemma TestThen(c: seq<Chunk>, test: Test, more: seq<Chunk>, tests: seq<Test>, rest: seq<Chunk>)
    requires ParseTest(c) == Reads(test, [Text(" AND ")] + more) && ParseTests(more) == Reads(tests, rest)
    ensures ParseTests(c) == Reads([test] + tests, rest)
  {
    hide ParseTest;
    assert ([Text(" AND ")] + more)[1..] == more;
  }

  lemma {:induction false} TestsRead(keys: seq<string>, values: seq<Value>, rest: seq<Chunk>)
    requires |keys| == |values| > 0 && EndsTests(rest)
    ensures ParseTests(KeyTests(keys, values) + rest) == Reads(Tests(keys, values), rest)
  {
    hide ParseTest, ParseTests, KeyTests;
    var test := Equals(keys[0], Some(values[0]));
    var head := [Quoted(keys[0]), Text(" = "), Bound(Some(values[0]))];
    KeyTestsFront(keys, values);
    if |keys| == 1 {
      assert KeyTests(keys, values) + rest == head + rest;
      EqualsReads(keys[0], Some(values[0]), rest);
      TestLast(head + rest, test, rest);
      assert Tests(keys, values) == [test];
    } else {
      var more := KeyTests(keys[1..], values[1..]) + rest;
      var after := [Text(" AND ")] + more;
      assert KeyTests(keys, values) + rest == head + after;
      EqualsReads(keys[0], Some(values[0]), after);
      TestsRead(keys[1..], values[1..], rest);
      TestThen(head + after, test, more, Tests(keys[1..], values[1..]), rest);
      assert Tests(keys, values) == [test] + Tests(keys[1..], values[1..]);
    }
  }

  predicate EndsList(rest: seq<Chunk>) {
    !Starts(rest, ", ")
  }

  lemma {:induction false} NamesFront(columns: seq<string>)
    requires |columns| > 0
    ensures Names(columns) == [Quoted(columns[0])] + if |columns| > 1 then [Text(", ")] + Names(columns[1..]) else []
  {
    var n := |columns| - 1;
    if n == 0 {
      assert Names(columns[..0]) == [];
    } else {
      NamesFront(columns[..n]);
      assert columns[1..][..n - 1] == columns[..n][1..];
    }
  }

  lemma {:induction false} NamesRead(columns: seq<string>, rest: seq<Chunk>)
    requires |columns| > 0 && EndsList(rest)
    ensures ParseNames(Names(columns) + rest) == Reads(columns, rest)
  {
    var c := Names(columns) + rest;
    NamesFront(columns);
    if |columns| == 1 {
      assert c[1..] == rest && columns == [columns[0]];
    } else {
      var more := Names(columns[1..]) + rest;
      assert c[1..] == [Text(", ")] + more && c[2..] == more;
      NamesRead(columns[1..], rest);
      assert columns == [columns[0]] + columns[1..];
    }
  }

  lemma {:induction false} ValuesFront(values: seq<Value>)
    requires |values| > 0
    ensures ValueList(values) == [Bound(Some(values[0]))]
      + if |values| > 1 then [Text(", ")] + ValueList(values[1..]) else []
  {
    var n := |values| - 1;
    if n == 0 {
      assert ValueList(values[..0]) == [];
    } else {
      ValuesFront(values[..n]);
      assert values[1..][..n - 1] == values[..n][1..];
    }
  }

  lemma {:induction false} ValuesRead(values: seq<Value>, rest: seq<Chunk>)
    requires |values| > 0 && EndsList(rest)
    ensures ParseValues(ValueList(values) + rest) == Reads(Somes(values), rest)
  {
    var c := ValueList(values) + rest;
    ValuesFront(values);
    if |values| == 1 {
      assert c[1..] == rest && Somes(values) == [Some(values[0])];
    } else {
      var more := ValueList(values[1..]) + rest;
      assert c[1..] == [Text(", ")] + more && c[2..] == more;
      ValuesRead(values[1..], rest);
      assert Somes(values) == [Some(values[0])] + Somes(values[1..]);
    }
  }

  // ---- the IN list ----

  function KeyRow(input: Input): seq<Chunk> {
    Tuple(|input.keys|, ValueList(input.keys))
  }

  lemma RowReads(input: Input, rest: seq<Chunk>)
    requires |input.keys| > 0
    ensures ParseRow(|input.keys|, KeyRow(input) + rest) == Reads(Somes(input.keys), rest)
  {
    var list := ValueList(input.keys);
    var c := KeyRow(input) + rest;
    if |input.keys| == 1 {
      ValuesFront(input.keys);
      assert c[1..] == rest && Somes(input.keys) == [Some(input.keys[0])];
    } else {
      var after := [Text(")")] + rest;
      assert c[1..] == list + after && after[1..] == rest;
      ValuesRead(input.keys, after);
    }
  }

  lemma Moved(a: seq<Chunk>, s: seq<Chunk>, m: seq<Chunk>, b: seq<Chunk>)
    ensures (a + (s + m)) + s + b == a + (s + (m + s + b))
    ensures (a + []) + s + b == a + (s + b) && [] + [] + b == b
  {
    Regrouped(a, s + m, s + b);
    Regrouped(s, m, s + b);
    Regrouped(m, s, b);
    Regrouped(a + (s + m), s, b);
    assert a + [] == a;
    Regrouped(a, s, b);
  }

  lemma KeyRowsUnfold(inputs: seq<Input>)
    requires |inputs| > 0
    ensures var n := |inputs| - 1; KeyRows(inputs) == KeyRows(inputs[..n]) + Comma(n) + KeyRow(inputs[n])
    ensures KeyRows(inputs[..0]) == []
  {
    hide ValueList;
  }

  lemma {:induction false} KeyRowsFront(inputs: seq<Input>)
    requires |inputs| > 0
    ensures KeyRows(inputs) == KeyRow(inputs[0]) + if |inputs| > 1 then [Text(", ")] + KeyRows(inputs[1..]) else []
  {
    hide KeyRows, KeyRow;
    var n := |inputs| - 1;
    KeyRowsUnfold(inputs);
    if n == 0 {
      Moved(KeyRow(inputs[0]), [], [], KeyRow(inputs[0]));
      assert KeyRow(inputs[0]) + [] == KeyRow(inputs[0]);
    } else {
      KeyRowsFront(inputs[..n]);
      KeyRowsUnfold(inputs[1..]);
      assert inputs[1..][..n - 1] == inputs[..n][1..];
      Moved(KeyRow(inputs[0]), [Text(", ")], KeyRows(inputs[..n][1..]), KeyRow(inputs[n]));
    }
  }

  function KeysOf(inputs: seq<Input>): (rows: seq<seq<Option<Value>>>)
    ensures |rows| == |inputs|
  {
    seq(|inputs|, i requires 0 <= i < |inputs| => Somes(inputs[i].keys))
  }

  lemma {:induction false} RowsRead(width: nat, inputs: seq<Input>, rest: seq<Chunk>)
    requires |inputs| > 0 && width > 0 && (forall i | 0 <= i < |inputs| :: |inputs[i].keys| == width) && EndsList(rest)
    ensures ParseRows(width, KeyRows(inputs) + rest) == Reads(KeysOf(inputs), rest)
  {
    hide KeyRows, KeyRow, ParseRow;
    KeyRowsFront(inputs);
    if |inputs| == 1 {
      assert KeyRow(inputs[0]) + [] == KeyRow(inputs[0]);
      RowReads(inputs[0], rest);
      assert KeysOf(inputs) == [Somes(inputs[0].keys)];
    } else {
      var more := KeyRows(inputs[1..]) + rest;
      var after := [Text(", ")] + more;
      assert KeyRows(inputs) + rest == KeyRow(inputs[0]) + after && after[1..] == more;
      RowReads(inputs[0], after);
      RowsRead(width, inputs[1..], rest);
      assert KeysOf(inputs) == [Somes(inputs[0].keys)] + KeysOf(inputs[1..]);
    }
  }

  lemma InListReads(columns: seq<string>, inputs: seq<Input>, rest: seq<Chunk>)
    requires |inputs| > 0 && |columns| > 0 && forall i | 0 <= i < |inputs| :: |inputs[i].keys| == |columns|
    ensures ParseIn(columns, KeyRows(inputs) + ([Text(")")] + rest)) == Reads(InRows(columns, KeysOf(inputs)), rest)
  {
    hide KeyRows, ParseRows;
    var close := [Text(")")] + rest;
    RowsRead(|columns|, inputs, close);
    assert close[1..] == rest;
  }

  lemma OneIn(column: string, list: seq<Chunk>)
    ensures ParseTest([Quoted(column), Text(" IN (")] + list) == ParseIn([column], list)
  {
    hide ParseIn, ParseNames;
    assert ([Quoted(column), Text(" IN (")] + list)[2..] == list;
  }

  lemma TupleIn(c: seq<Chunk>, names: seq<string>, list: seq<Chunk>)
    requires Starts(c, "(") && ParseNames(c[1..]) == Reads(names, [Text(")"), Text(" IN (")] + list)
    ensures ParseTest(c) == ParseIn(names, list)
  {
    hide ParseIn, ParseNames;
    assert ([Text(")"), Text(" IN (")] + list)[2..] == list;
  }

  lemma TupleText(names: seq<Chunk>, list: seq<Chunk>)
    ensures ([Text("(")] + names + [Text(")")]) + ([Text(" IN (")] + list)
      == [Text("(")] + (names + ([Text(")"), Text(" IN (")] + list))
  {
    var after := [Text(")"), Text(" IN (")] + list;
    assert [Text(")")] + ([Text(" IN (")] + list) == after;
    Regrouped([Text("(")] + names, [Text(")")], [Text(" IN (")] + list);
    Regrouped([Text("(")], names, after);
  }

  lemma SingleIn(columns: seq<string>, list: seq<Chunk>)
    requires |columns| == 1
    ensures ParseTest(Names(columns) + ([Text(" IN (")] + list)) == ParseIn(columns, list)
  {
    hide ParseIn, ParseTest, Names;
    var name := columns[0];
    NamesFront(columns);
    OneIn(name, list);
    assert columns == [name] && [Quoted(name)] + [] == [Quoted(name)];
    assert [Quoted(name)] + ([Text(" IN (")] + list) == [Quoted(name), Text(" IN (")] + list;
  }

  /** A single column, or columns in parentheses, before IN. */
  lemma InStarts(columns: seq<string>, list: seq<Chunk>)
    requires |columns| > 0
    ensures ParseTest(Tuple(|columns|, Names(columns)) + ([Text(" IN (")] + list)) == ParseIn(columns, list)
  {
    hide ParseIn, ParseTest, ParseNames, Names;
    if |columns| == 1 {
      SingleIn(columns, list);
    } else {
      var after := [Text(")"), Text(" IN (")] + list;
      var c := [Text("(")] + (Names(columns) + after);
      TupleText(Names(columns), list);
      assert c[1..] == Names(columns) + after;
      NamesRead(columns, after);
      TupleIn(c, columns, list);
    }
  }

  lemma InReads(plan: UpdatePlan, inputs: seq<Input>, rest: seq<Chunk>)
    requires plan.Valid() && plan.AllFit(inputs) && |inputs| > 0
    ensures ParseTest(Tuple(|plan.keys|, Names(plan.keys))
      + ([Text(" IN (")] + (KeyRows(inputs) + ([Text(")")] + rest))))
      == Reads(InRows(plan.keys, KeysOf(inputs)), rest)
  {
    hide KeyRows, ParseIn, ParseTest, Names, Tuple;
    InStarts(plan.keys, KeyRows(inputs) + ([Text(")")] + rest));
    InListReads(plan.keys, inputs, rest);
  }

  lemma ScopeReads(plan: UpdatePlan)
    ensures plan.softDelete.Some? ==> Scope(plan) == [Text(" AND ")] + Scope(plan)[1..]
    ensures plan.softDelete.Some? ==> ParseTests(Scope(plan)[1..]) == Reads([IsNull(plan.softDelete.value)], [])
    ensures plan.softDelete.None? ==> Scope(plan) == []
  {
  }

  function ScopeTests(plan: UpdatePlan): seq<Test> {
    if plan.softDelete.None? then [] else [IsNull(plan.softDelete.value)]
  }

  lemma WhereReads(plan: UpdatePlan, inputs: seq<Input>)
    requires plan.Valid() && plan.AllFit(inputs) && |inputs| > 0
    ensures ParseTests(Tuple(|plan.keys|, Names(plan.keys))
      + ([Text(" IN (")] + (KeyRows(inputs) + ([Text(")")] + Scope(plan)))))
      == Reads([InRows(plan.keys, KeysOf(inputs))] + ScopeTests(plan), [])
  {
    hide ParseTest, ParseTests, KeyRows, Names, Tuple, Scope;
    var c := Tuple(|plan.keys|, Names(plan.keys)) + ([Text(" IN (")] + (KeyRows(inputs) + ([Text(")")] + Scope(plan))));
    var test := InRows(plan.keys, KeysOf(inputs));
    InReads(plan, inputs, Scope(plan));
    ScopeReads(plan);
    if plan.softDelete.None? {
      TestLast(c, test, []);
      assert [test] + [] == [test];
    } else {
      TestThen(c, test, Scope(plan)[1..], ScopeTests(plan), []);
    }
  }

  // ---- the SET list of a CASE update ----

  function Arm1(plan: UpdatePlan, input: Input, f: nat): CaseArm
    requires plan.Valid() && plan.Fits(input) && f < |plan.fields|
  {
    CaseArm(Tests(plan.keys, input.keys), input.values[f])
  }

  function Operand(plan: UpdatePlan): Option<string>
    requires plan.Valid()
  {
    if |plan.keys| == 1 then Some(plan.keys[0]) else None
  }

  lemma ArmReads(plan: UpdatePlan, input: Input, f: nat, rest: seq<Chunk>)
    requires plan.Valid() && plan.Fits(input) && f < |plan.fields|
    ensures ParseArm(Operand(plan), BulkUpdate.Arm(plan, input, f) + rest) == Reads(Arm1(plan, input, f), rest)
  {
    hide KeyTests;
    var c := BulkUpdate.Arm(plan, input, f) + rest;
    var tail := [Text(" THEN "), Bound(input.values[f]), Text(" ")] + rest;
    assert tail[3..] == rest;
    if |plan.keys| == 1 {
      assert c[2..] == tail;
      assert Tests(plan.keys, input.keys) == [Equals(plan.keys[0], Some(input.keys[0]))];
    } else {
      assert c[1..] == KeyTests(plan.keys, input.keys) + tail;
      TestsRead(plan.keys, input.keys, tail);
    }
  }

  lemma {:induction false} ArmsFront(plan: UpdatePlan, inputs: seq<Input>, f: nat)
    requires plan.Valid() && plan.AllFit(inputs) && f < |plan.fields| && |inputs| > 0
    ensures Arms(plan, inputs, f) == BulkUpdate.Arm(plan, inputs[0], f) + Arms(plan, inputs[1..], f)
  {
    hide BulkUpdate.Arm;
    var n := |inputs| - 1;
    if n == 0 {
      assert Arms(plan, inputs[..0], f) == [] && Arms(plan, inputs[1..], f) == [];
    } else {
      ArmsFront(plan, inputs[..n], f);
      assert inputs[1..][..n - 1] == inputs[..n][1..];
    }
  }

  function AllArms(plan: UpdatePlan, inputs: seq<Input>, f: nat): (arms: seq<CaseArm>)
    requires plan.Valid() && plan.AllFit(inputs) && f < |plan.fields|
    ensures |arms| == |inputs|
  {
    seq(|inputs|, i requires 0 <= i < |inputs| => Arm1(plan, inputs[i], f))
  }

  lemma {:induction false} ArmsRead(plan: UpdatePlan, inputs: seq<Input>, f: nat, rest: seq<Chunk>)
    requires plan.Valid() && plan.AllFit(inputs) && f < |plan.fields| && |inputs| > 0 && !Starts(rest, "WHEN ")
    ensures ParseArms(Operand(plan), Arms(plan, inputs, f) + rest) == Reads(AllArms(plan, inputs, f), rest)
  {
    hide ParseArm, Arms, BulkUpdate.Arm, Arm1;
    ArmsFront(plan, inputs, f);
    var more := Arms(plan, inputs[1..], f) + rest;
    assert Arms(plan, inputs, f) + rest == BulkUpdate.Arm(plan, inputs[0], f) + more;
    ArmReads(plan, inputs[0], f, more);
    if |inputs| == 1 {
      NoArms(plan, inputs[1..], f);
      assert more == rest;
      assert AllArms(plan, inputs, f) == [Arm1(plan, inputs[0], f)];
    } else {
      ArmsStart(plan, inputs[1..], f, rest);
      ArmsRead(plan, inputs[1..], f, rest);
      assert AllArms(plan, inputs, f) == [Arm1(plan, inputs[0], f)] + AllArms(plan, inputs[1..], f);
    }
  }

  lemma NoArms(plan: UpdatePlan, inputs: seq<Input>, f: nat)
    requires plan.Valid() && plan.AllFit(inputs) && f < |plan.fields| && |inputs| == 0
    ensures Arms(plan, inputs, f) == []
  {
  }

  lemma ArmsStart(plan: UpdatePlan, inputs: seq<Input>, f: nat, rest: seq<Chunk>)
    requires plan.Valid() && plan.AllFit(inputs) && f < |plan.fields| && |inputs| > 0
    ensures Starts(Arms(plan, inputs, f) + rest, "WHEN ")
  {
    hide Arms;
    ArmsFront(plan, inputs, f);
  }

  function CaseSet(plan: UpdatePlan, inputs: seq<Input>, f: nat): Assigned
    requires plan.Valid() && plan.AllFit(inputs) && f < |plan.fields|
  {
    Assigned(plan.fields[f], Case(AllArms(plan, inputs, f), plan.fields[f]))
  }

  lemma AssignmentReads(plan: UpdatePlan, inputs: seq<Input>, f: nat, rest: seq<Chunk>)
    requires plan.Valid() && plan.AllFit(inputs) && f < |plan.fields| && |inputs| > 0
    ensures ParseSet(Assignment(plan, inputs, f) + rest) == Reads(CaseSet(plan, inputs, f), rest)
  {
    hide Arms, ParseArms, AllArms;
    var c := Assignment(plan, inputs, f) + rest;
    var end := [Text("ELSE "), Quoted(plan.fields[f]), Text(" END")] + rest;
    var arms := Arms(plan, inputs, f) + end;
    assert end[3..] == rest;
    ArmsRead(plan, inputs, f, end);
    ArmsStart(plan, inputs, f, end);
    if |plan.keys| == 1 {
      assert c[2..] == [Quoted(plan.keys[0]), Text(" ")] + arms;
      assert c[2..][2..] == arms;
    } else {
      assert c[2..] == arms;
    }
  }

  /** The assignments from field `from` on. */
  function AssignmentsFrom(plan: UpdatePlan, inputs: seq<Input>, from: nat): seq<Chunk>
    requires plan.Valid() && plan.AllFit(inputs) && from <= |plan.fields|
    decreases |plan.fields| - from
  {
    if from == |plan.fields| then []
    else
      Assignment(plan, inputs, from)
      + if from + 1 < |plan.fields| then [Text(", ")] + AssignmentsFrom(plan, inputs, from + 1) else []
  }

  lemma {:induction false} AssignmentsSplit(plan: UpdatePlan, inputs: seq<Input>, n: nat)
    requires plan.Valid() && plan.AllFit(inputs) && n < |plan.fields|
    ensures Assignments(plan, inputs, |plan.fields|)
      == Assignments(plan, inputs, n) + Comma(n) + AssignmentsFrom(plan, inputs, n)
    decreases |plan.fields| - n
  {
    hide Assignment;
    var one := Assignment(plan, inputs, n);
    if n + 1 == |plan.fields| {
      assert one + [] == one;
    } else {
      AssignmentsSplit(plan, inputs, n + 1);
      var front, more := Assignments(plan, inputs, n) + Comma(n), AssignmentsFrom(plan, inputs, n + 1);
      assert (front + one) + [Text(", ")] + more == front + (one + ([Text(", ")] + more));
    }
  }

  function CaseSets(plan: UpdatePlan, inputs: seq<Input>, from: nat): (sets: seq<Assigned>)
    requires plan.Valid() && plan.AllFit(inputs) && from <= |plan.fields|
    ensures |sets| == |plan.fields| - from
  {
    seq(|plan.fields| - from, i requires 0 <= i < |plan.fields| - from => CaseSet(plan, inputs, from + i))
  }

  lemma {:induction false} SetsRead(plan: UpdatePlan, inputs: seq<Input>, from: nat, rest: seq<Chunk>)
    requires plan.Valid() && plan.AllFit(inputs) && from < |plan.fields| && |inputs| > 0 && EndsList(rest)
    ensures ParseSets(AssignmentsFrom(plan, inputs, from) + rest) == Reads(CaseSets(plan, inputs, from), rest)
    decreases |plan.fields| - from
  {
    hide ParseSet, Assignment, CaseSet;
    var one := Assignment(plan, inputs, from);
    if from + 1 == |plan.fields| {
      assert one + [] == one;
      AssignmentReads(plan, inputs, from, rest);
      assert CaseSets(plan, inputs, from) == [CaseSet(plan, inputs, from)];
    } else {
      var more := AssignmentsFrom(plan, inputs, from + 1) + rest;
      var after := [Text(", ")] + more;
      assert AssignmentsFrom(plan, inputs, from) + rest == one + after && after[1..] == more;
      AssignmentReads(plan, inputs, from, after);
      SetsRead(plan, inputs, from + 1, rest);
      assert CaseSets(plan, inputs, from) == [CaseSet(plan, inputs, from)] + CaseSets(plan, inputs, from + 1);
    }
  }

  function ManyRead(plan: UpdatePlan, inputs: seq<Input>): UpdateText
    requires plan.Valid() && plan.AllFit(inputs)
  {
    UpdateText(plan.table, CaseSets(plan, inputs, 0), [InRows(plan.keys, KeysOf(inputs))] + ScopeTests(plan))
  }

  lemma ManyReads(plan: UpdatePlan, inputs: seq<Input>)
    requires plan.Valid() && plan.AllFit(inputs) && |inputs| > 0
    ensures ParseUpdate(Many(plan, inputs)) == Reads(ManyRead(plan, inputs), [])
  {
    hide Assignments, AssignmentsFrom, KeyRows, Names, Tuple, Scope, ParseSets, ParseTests, CaseSets, KeysOf;
    var where := Tuple(|plan.keys|, Names(plan.keys))
      + ([Text(" IN (")] + (KeyRows(inputs) + ([Text(")")] + Scope(plan))));
    var sets := AssignmentsFrom(plan, inputs, 0);
    NoComma(plan, inputs);
    AssignmentsSplit(plan, inputs, 0);
    var tail := [Text(" WHERE ")] + where;
    var c := Many(plan, inputs);
    ManyParts(plan, inputs, where);
    assert c[3..] == sets + tail && tail[1..] == where;
    SetsRead(plan, inputs, 0, tail);
    WhereReads(plan, inputs);
  }

  lemma NoComma(plan: UpdatePlan, inputs: seq<Input>)
    requires plan.Valid() && plan.AllFit(inputs)
    ensures Assignments(plan, inputs, 0) == [] && Comma(0) == [] && forall c: seq<Chunk> :: [] + [] + c == c
  {
  }

  lemma ManyParts(plan: UpdatePlan, inputs: seq<Input>, where: seq<Chunk>)
    requires plan.Valid() && plan.AllFit(inputs)
    requires where == Tuple(|plan.keys|, Names(plan.keys))
      + ([Text(" IN (")] + (KeyRows(inputs) + ([Text(")")] + Scope(plan))))
    ensures Many(plan, inputs) == [Text("UPDATE "), Quoted(plan.table), Text(" SET ")]
      + (Assignments(plan, inputs, |plan.fields|) + ([Text(" WHERE ")] + where))
  {
    hide Assignments, KeyRows, Names, Tuple, Scope;
    SixParts([Text("UPDATE "), Quoted(plan.table), Text(" SET ")], Assignments(plan, inputs, |plan.fields|),
      [Text(" WHERE ")],
      Tuple(|plan.keys|, Names(plan.keys)), [Text(" IN (")], KeyRows(inputs), [Text(")")] + Scope(plan));
  }

  lemma SixParts(
    a: seq<Chunk>, b: seq<Chunk>, c: seq<Chunk>, d: seq<Chunk>, e: seq<Chunk>, f: seq<Chunk>, g: seq<Chunk>)
    ensures a + b + (c + d + e) + f + g == a + (b + (c + (d + (e + (f + g)))))
  {
    Regrouped(c, d, e);
    Regrouped(a + b + (c + d + e), f, g);
    Regrouped(a + b, c + d + e, f + g);
    Regrouped(c, d + e, f + g);
    Regrouped(d, e, f + g);
    Regrouped(a, b, c + (d + (e + (f + g))));
  }

  // ---- the statement for one row ----

  function FixedSets(fields: seq<string>, values: seq<Option<Value>>): (sets: seq<Assigned>)
    requires |fields| == |values|
    ensures |sets| == |fields|
  {
    seq(|fields|, i requires 0 <= i < |fields| => Assigned(fields[i], Fixed(values[i])))
  }

  lemma SetsUnfold(fields: seq<string>, values: seq<Option<Value>>)
    requires |fields| == |values| > 0
    ensures var n := |fields| - 1;
      Sets(fields, values) == Sets(fields[..n], values[..n]) + Comma(n)
        + [Quoted(fields[n]), Text(" = "), Bound(values[n])]
    ensures Sets(fields[..0], values[..0]) == []
  {
  }

  lemma {:induction false} SetsFront(fields: seq<string>, values: seq<Option<Value>>)
    requires |fields| == |values| > 0
    ensures Sets(fields, values) == [Quoted(fields[0]), Text(" = "), Bound(values[0])]
      + if |fields| > 1 then [Text(", ")] + Sets(fields[1..], values[1..]) else []
  {
    hide Sets;
    var n := |fields| - 1;
    var first, last := [Quoted(fields[0]), Text(" = "), Bound(values[0])],
      [Quoted(fields[n]), Text(" = "), Bound(values[n])];
    SetsUnfold(fields, values);
    if n == 0 {
      Moved(first, [], [], first);
      assert first + [] == first;
    } else {
      SetsFront(fields[..n], values[..n]);
      SetsUnfold(fields[1..], values[1..]);
      assert fields[1..][..n - 1] == fields[..n][1..] && values[1..][..n - 1] == values[..n][1..];
      Moved(first, [Text(", ")], Sets(fields[..n][1..], values[..n][1..]), last);
    }
  }

  lemma FixedReads(column: string, value: Option<Value>, rest: seq<Chunk>)
    ensures ParseSet([Quoted(column), Text(" = "), Bound(value)] + rest) == Reads(Assigned(column, Fixed(value)), rest)
  {
    hide ParseCase;
    assert ([Quoted(column), Text(" = "), Bound(value)] + rest)[3..] == rest;
  }

  lemma {:induction false} FixedSetsRead(fields: seq<string>, values: seq<Option<Value>>, rest: seq<Chunk>)
    requires |fields| == |values| > 0 && EndsList(rest)
    ensures ParseSets(Sets(fields, values) + rest) == Reads(FixedSets(fields, values), rest)
  {
    hide ParseSet, Sets;
    var head, one := [Quoted(fields[0]), Text(" = "), Bound(values[0])], Assigned(fields[0], Fixed(values[0]));
    SetsFront(fields, values);
    if |fields| == 1 {
      assert Sets(fields, values) + rest == head + rest;
      FixedReads(fields[0], values[0], rest);
      assert FixedSets(fields, values) == [one];
    } else {
      var more := Sets(fields[1..], values[1..]) + rest;
      var after := [Text(", ")] + more;
      assert Sets(fields, values) + rest == head + after && after[1..] == more;
      FixedReads(fields[0], values[0], after);
      FixedSetsRead(fields[1..], values[1..], rest);
      assert FixedSets(fields, values) == [one] + FixedSets(fields[1..], values[1..]);
    }
  }

  function OneRead(plan: UpdatePlan, input: Input): UpdateText
    requires plan.Valid() && plan.Fits(input)
  {
    UpdateText(plan.table, FixedSets(plan.fields, input.values), Tests(plan.keys, input.keys) + ScopeTests(plan))
  }

  lemma {:induction false} TestsThenScope(keys: seq<string>, values: seq<Value>, scope: seq<Chunk>, tests: seq<Test>)
    requires |keys| == |values| > 0 && ParseTests(scope) == Reads(tests, [])
    ensures ParseTests(KeyTests(keys, values) + ([Text(" AND ")] + scope)) == Reads(Tests(keys, values) + tests, [])
  {
    hide ParseTest, ParseTests, KeyTests;
    var rest := [Text(" AND ")] + scope;
    var test := Equals(keys[0], Some(values[0]));
    var head := [Quoted(keys[0]), Text(" = "), Bound(Some(values[0]))];
    KeyTestsFront(keys, values);
    if |keys| == 1 {
      assert KeyTests(keys, values) + rest == head + rest;
      EqualsReads(keys[0], Some(values[0]), rest);
      TestThen(head + rest, test, scope, tests, []);
      assert Tests(keys, values) == [test];
    } else {
      var more := KeyTests(keys[1..], values[1..]) + rest;
      var after := [Text(" AND ")] + more;
      assert KeyTests(keys, values) + rest == head + after;
      EqualsReads(keys[0], Some(values[0]), after);
      TestsThenScope(keys[1..], values[1..], scope, tests);
      TestThen(head + after, test, more, Tests(keys[1..], values[1..]) + tests, []);
      assert Tests(keys, values) + tests == [test] + (Tests(keys[1..], values[1..]) + tests);
    }
  }

  lemma KeyWhereReads(plan: UpdatePlan, input: Input)
    requires plan.Valid() && plan.Fits(input)
    ensures ParseTests(KeyTests(plan.keys, input.keys) + Scope(plan))
      == Reads(Tests(plan.keys, input.keys) + ScopeTests(plan), [])
  {
    hide ParseTests, KeyTests, Scope, Tests;
    ScopeReads(plan);
    if plan.softDelete.None? {
      TestsRead(plan.keys, input.keys, []);
      assert Tests(plan.keys, input.keys) + [] == Tests(plan.keys, input.keys);
    } else {
      TestsThenScope(plan.keys, input.keys, Scope(plan)[1..], ScopeTests(plan));
    }
  }

  lemma OneReads(plan: UpdatePlan, input: Input)
    requires plan.Valid() && plan.Fits(input)
    ensures ParseUpdate(One(plan, input)) == Reads(OneRead(plan, input), [])
  {
    hide Sets, KeyTests, Scope, ParseSets, ParseTests, FixedSets, Tests;
    var where := KeyTests(plan.keys, input.keys) + Scope(plan);
    var tail := [Text(" WHERE ")] + where;
    var head, sets := [Text("UPDATE "), Quoted(plan.table), Text(" SET ")], Sets(plan.fields, input.values);
    var c := One(plan, input);
    assert c == head + (sets + tail);
    assert c[3..] == sets + tail && tail[1..] == where;
    FixedSetsRead(plan.fields, input.values, tail);
    KeyWhereReads(plan, input);
  }

  // ---- what they do ----

  lemma {:induction false} TruthOfAll(tests: seq<Test>, row: Row)
    ensures AllTruth(tests, row) == True <==> forall i | 0 <= i < |tests| :: TestTruth(tests[i], row) == True
  {
    hide TestTruth;
    if |tests| > 0 {
      TruthOfAll(tests[1..], row);
      assert forall i | 1 <= i < |tests| :: tests[i] == tests[1..][i - 1];
    }
  }

  lemma KeyTestsAreTrue(plan: UpdatePlan, row: Row, keys: seq<Value>)
    requires |keys| == |plan.keys|
    ensures AllTruth(Tests(plan.keys, keys), row) == True <==> HasKey(plan, row, keys)
  {
    TruthOfAll(Tests(plan.keys, keys), row);
    assert forall i | 0 <= i < |keys| :: TestTruth(Tests(plan.keys, keys)[i], row) == True <==>
      Column(row, plan.keys[i]) == Some(keys[i]);
  }

  lemma {:induction false} TruthOfTuple(row: Row, columns: seq<string>, values: seq<Option<Value>>)
    requires |columns| == |values|
    ensures TupleTruth(row, columns, values) == True <==>
      forall i | 0 <= i < |columns| :: SameCell(row, columns[i], values[i]) == True
  {
    hide SameCell;
    if |columns| > 0 {
      TruthOfTuple(row, columns[1..], values[1..]);
      assert forall i | 1 <= i < |columns| :: columns[i] == columns[1..][i - 1] && values[i] == values[1..][i - 1];
    }
  }

  lemma {:induction false} TruthOfRows(plan: UpdatePlan, inputs: seq<Input>, row: Row)
    requires plan.AllFit(inputs)
    ensures RowsTruth(row, plan.keys, KeysOf(inputs)) == True <==> exists input <- inputs :: HasKey(plan, row,
      input.keys)
  {
    hide TupleTruth;
    if |inputs| > 0 {
      var first := inputs[0];
      TruthOfRows(plan, inputs[1..], row);
      TruthOfTuple(row, plan.keys, Somes(first.keys));
      assert HasKey(plan, row, first.keys) <==> TupleTruth(row, plan.keys, Somes(first.keys)) == True;
      assert KeysOf(inputs)[1..] == KeysOf(inputs[1..]);
      assert inputs == [first] + inputs[1..];
    }
  }

  lemma {:induction false} ArmsAreCases(plan: UpdatePlan, inputs: seq<Input>, f: nat, row: Row)
    requires plan.Valid() && plan.AllFit(inputs) && f < |plan.fields|
    ensures ArmsValue(AllArms(plan, inputs, f), plan.fields[f], row) == CaseValue(plan, inputs, f, row)
  {
    hide AllTruth, HasKey;
    if |inputs| > 0 {
      KeyTestsAreTrue(plan, row, inputs[0].keys);
      ArmsAreCases(plan, inputs[1..], f, row);
      assert AllArms(plan, inputs, f)[1..] == AllArms(plan, inputs[1..], f);
    }
  }

  lemma {:induction false} CaseSetsRun(plan: UpdatePlan, inputs: seq<Input>, row: Row, n: nat)
    requires plan.Valid() && plan.AllFit(inputs) && n <= |plan.fields|
    ensures RunSets(CaseSets(plan, inputs, 0)[..n], row) == SetCases(plan, inputs, row, n)
  {
    hide ArmsValue, CaseValue, AllArms;
    if n > 0 {
      CaseSetsRun(plan, inputs, row, n - 1);
      var sets := CaseSets(plan, inputs, 0);
      assert sets[..n][..n - 1] == sets[..n - 1] && sets[..n][n - 1] == CaseSet(plan, inputs, n - 1);
      ArmsAreCases(plan, inputs, n - 1, SetCases(plan, inputs, row, n - 1));
    }
  }

  lemma {:induction false} FixedSetsRun(plan: UpdatePlan, input: Input, row: Row, n: nat)
    requires plan.Valid() && plan.Fits(input) && n <= |plan.fields|
    ensures RunSets(FixedSets(plan.fields, input.values)[..n], row) == SetValues(plan, input, row, n)
  {
    if n > 0 {
      FixedSetsRun(plan, input, row, n - 1);
      var sets := FixedSets(plan.fields, input.values);
      assert sets[..n][..n - 1] == sets[..n - 1];
    }
  }

  lemma WhereIsTrue(plan: UpdatePlan, tests: seq<Test>, row: Row)
    ensures AllTruth(tests + ScopeTests(plan), row) == True <==> AllTruth(tests, row) == True && InScope(plan, row)
  {
    TruthOfAll(tests + ScopeTests(plan), row);
    TruthOfAll(tests, row);
    var all := tests + ScopeTests(plan);
    assert forall i | 0 <= i < |tests| :: all[i] == tests[i];
    if plan.softDelete.Some? {
      assert all[|tests|] == IsNull(plan.softDelete.value);
    }
  }

  lemma ManyRuns(plan: UpdatePlan, inputs: seq<Input>, row: Row)
    requires plan.Valid() && plan.AllFit(inputs) && |inputs| > 0
    ensures var u := ManyRead(plan, inputs);
      (if AllTruth(u.where, row) == True then RunSets(u.sets, row) else row) == ManyOnRow(plan, inputs, row)
  {
    hide RowsTruth, CaseSets, SetCases, InScope, HasKey;
    var test := InRows(plan.keys, KeysOf(inputs));
    WhereIsTrue(plan, [test], row);
    TruthOfAll([test], row);
    TruthOfRows(plan, inputs, row);
    CaseSetsRun(plan, inputs, row, |plan.fields|);
    var sets := CaseSets(plan, inputs, 0);
    assert sets[..|plan.fields|] == sets;
  }

  lemma OneRuns(plan: UpdatePlan, input: Input, row: Row)
    requires plan.Valid() && plan.Fits(input)
    ensures var u := OneRead(plan, input);
      (if AllTruth(u.where, row) == True then RunSets(u.sets, row) else row) == OneOnRow(plan, input, row)
  {
    hide FixedSets, SetValues, InScope, HasKey, Tests;
    WhereIsTrue(plan, Tests(plan.keys, input.keys), row);
    KeyTestsAreTrue(plan, row, input.keys);
    FixedSetsRun(plan, input, row, |plan.fields|);
    var sets := FixedSets(plan.fields, input.values);
    assert sets[..|plan.fields|] == sets;
  }

  /** The text of a batch, read and run by the rules of SQL, leaves on every table what the batch means. */
  lemma TextMeansBatch(plan: UpdatePlan, inputs: seq<Input>, table: Table)
    requires plan.Valid() && plan.AllFit(inputs) && |inputs| > 0
    ensures var read := ParseUpdate(Meant(plan, inputs));
      && read.Reads? && read.rest == [] && read.item.table == plan.table
      && RunText(read.item, table) == RunBatch(plan, inputs, table)
  {
    hide ParseUpdate, Many, One, AllTruth, RunSets, ManyOnRow, OneOnRow, CaseSets, FixedSets, Tests;
    if |inputs| == 1 {
      OneReads(plan, inputs[0]);
      forall i | 0 <= i < |table| { OneRuns(plan, inputs[0], table[i]); }
    } else {
      ManyReads(plan, inputs);
      forall i | 0 <= i < |table| { ManyRuns(plan, inputs, table[i]); }
    }
  }

  /** What is sent, bound argument by argument, runs as its batch. */
  lemma SentRuns(plan: UpdatePlan, inputs: seq<Input>, sent: seq<Statement>, i: nat, table: Table)
    requires plan.Valid() && plan.AllFit(inputs) && RowsPerStatement(plan).Some?
    requires SentInOrder(plan, inputs, RowsPerStatement(plan).value, sent) && i < |sent|
    ensures Nth(RowsPerStatement(plan).value, i) < |inputs|
    ensures var batch := Batch(inputs, RowsPerStatement(plan).value, i);
      var read := ParseUpdate(Bind(sent[i].text, sent[i].arguments));
      && batch != [] && plan.AllFit(batch)
      && read.Reads? && read.rest == [] && RunText(read.item, table) == RunBatch(plan, batch, table)
  {
    hide ParseUpdate, RunText, RunBatch, Meant, SentInOrder;
    SentMeans(plan, inputs, sent, i);
    TextMeansBatch(plan, Batch(inputs, RowsPerStatement(plan).value, i), table);
  }
}
