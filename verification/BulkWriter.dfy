/** Rendering a bulk UPDATE and filling its arguments by index (orm/bulk_update.go:207-357). */
module BulkWriter {
  import opened SqlValues
  import opened BulkUpdate

  // ---- the template depends only on the number of rows ----

  lemma {:induction false} SameKeyTests(keys: seq<string>, a: seq<Value>, b: seq<Value>)
    requires |keys| == |a| == |b|
    ensures Template(KeyTests(keys, a)) == Template(KeyTests(keys, b))
  {
    if |keys| > 0 {
      var n := |keys| - 1;
      SameKeyTests(keys[..n], a[..n], b[..n]);
      TemplateOfKeyTests(keys, a);
      TemplateOfKeyTests(keys, b);
    }
  }

  lemma TemplateOfKeyTests(keys: seq<string>, values: seq<Value>)
    requires |keys| == |values| > 0
    ensures var n := |keys| - 1;
      Template(KeyTests(keys, values)) ==
        Template(KeyTests(keys[..n], values[..n])) + (if n > 0 then [Text(" AND ")] else []) + [Quoted(keys[n]),
          Text(" = "), Mark]
  {
    hide Template;
    var n := |keys| - 1;
    var front, and := KeyTests(keys[..n], values[..n]), if n > 0 then [Text(" AND ")] else [];
    var last := [Quoted(keys[n]), Text(" = "), Bound(Some(values[n]))];
    assert KeyTests(keys, values) == front + and + last;
    TemplateJoins(front + and, last);
    TemplateJoins(front, and);
    TemplateOfTest(keys[n], values[n], n > 0);
  }

  lemma TemplateOfTest(name: string, value: Value, more: bool)
    ensures var and := if more then [Text(" AND ")] else []; Template(and) == and
    ensures Template([Quoted(name), Text(" = "), Bound(Some(value))]) == [Quoted(name), Text(" = "), Mark]
  {
  }

  // ---- rendering ----

  method WriteKeyPredicates(query0: seq<Chunk>, keys: seq<string>, ghost values: seq<Value>) returns (query: seq<Chunk>)
    requires |values| == |keys|
    ensures query == query0 + Template(KeyTests(keys, values))
  {
    query := query0;
    for index := 0 to |keys|
      invariant query == query0 + Template(KeyTests(keys[..index], values[..index]))
    {
      if index != 0 {
        query := query + [Text(" AND ")];
      }
      query := query + [Quoted(keys[index]), Text(" = "), Mark];
      TemplateOfKeyTests(keys[..index + 1], values[..index + 1]);
      assert keys[..index + 1][..index] == keys[..index] && values[..index + 1][..index] == values[..index];
    }
    assert keys[..|keys|] == keys && values[..|keys|] == values;
  }

  /** One field of the SET list. */
  method WriteAssignment(query0: seq<Chunk>, plan: UpdatePlan, ghost inputs: seq<Input>, rows: nat,
    f: nat) returns (query: seq<Chunk>)
    requires plan.Valid() && plan.AllFit(inputs) && rows == |inputs| && f < |plan.fields|
    ensures query == query0 + Template(Assignment(plan, inputs, f))
  {
    hide Template, KeyTests;
    query := query0 + [Quoted(plan.fields[f]), Text(" = CASE ")];
    if |plan.keys| == 1 {
      query := query + [Quoted(plan.keys[0]), Text(" ")];
    }
    ghost var head := query;
    assert head == query0 + CaseHead(plan, f);
    NoArms(plan, inputs, f);
    for row := 0 to rows
      invariant query == head + Template(Arms(plan, inputs[..row], f))
    {
      ghost var before := query;
      query := query + [Text("WHEN ")];
      if |plan.keys| == 1 {
        query := query + [Mark];
      } else {
        query := WriteKeyPredicates(query, plan.keys, inputs[row].keys);
      }
      query := query + [Text(" THEN "), Mark, Text(" ")];
      ArmWritten(before, plan, inputs[row], f);
      ArmsGrow(head, plan, inputs, f, row);
    }
    assert inputs[..rows] == inputs;
    query := query + [Text("ELSE "), Quoted(plan.fields[f]), Text(" END")];
    AssignmentWritten(query0, plan, inputs, f);
  }

  lemma NoArms(plan: UpdatePlan, inputs: seq<Input>, f: nat)
    requires plan.Valid() && plan.AllFit(inputs) && f < |plan.fields|
    ensures plan.AllFit(inputs[..0]) && Template(Arms(plan, inputs[..0], f)) == []
  {
  }

  lemma ArmWritten(q: seq<Chunk>, plan: UpdatePlan, input: Input, f: nat)
    requires plan.Valid() && plan.Fits(input) && f < |plan.fields|
    ensures |plan.keys| == 1 ==>
      ((q + [Text("WHEN ")]) + [Mark]) + [Text(" THEN "), Mark, Text(" ")] == q + Template(Arm(plan, input, f))
    ensures |plan.keys| != 1 ==>
      ((q + [Text("WHEN ")]) + Template(KeyTests(plan.keys, input.keys))) + [Text(" THEN "), Mark, Text(" ")]
      == q + Template(Arm(plan, input, f))
  {
    hide KeyTests;
    var when, then_ := When(plan.keys, input.keys), [Text(" THEN "), Bound(input.values[f]), Text(" ")];
    TemplateJoins([Text("WHEN ")] + when, then_);
    TemplateJoins([Text("WHEN ")], when);
    assert Template([Text("WHEN ")]) == [Text("WHEN ")] && Template(then_) == [Text(" THEN "), Mark, Text(" ")];
    assert |plan.keys| == 1 ==> Template(when) == [Mark];
  }

  lemma ArmsGrow(q: seq<Chunk>, plan: UpdatePlan, inputs: seq<Input>, f: nat, row: nat)
    requires plan.Valid() && plan.AllFit(inputs) && f < |plan.fields| && row < |inputs|
    ensures (q + Template(Arms(plan, inputs[..row], f))) + Template(Arm(plan, inputs[row], f))
      == q + Template(Arms(plan, inputs[..row + 1], f))
  {
    hide Arm, Template;
    assert inputs[..row + 1][..row] == inputs[..row];
    TemplateJoins(Arms(plan, inputs[..row], f), Arm(plan, inputs[row], f));
  }

  lemma AssignmentWritten(q: seq<Chunk>, plan: UpdatePlan, inputs: seq<Input>, f: nat)
    requires plan.Valid() && plan.AllFit(inputs) && f < |plan.fields|
    ensures ((q + CaseHead(plan, f)) + Template(Arms(plan, inputs, f)))
      + [Text("ELSE "), Quoted(plan.fields[f]), Text(" END")]
      == q + Template(Assignment(plan, inputs, f))
  {
    hide Arms;
    var end := [Text("ELSE "), Quoted(plan.fields[f]), Text(" END")];
    TemplateJoins(CaseHead(plan, f) + Arms(plan, inputs, f), end);
    TemplateJoins(CaseHead(plan, f), Arms(plan, inputs, f));
    assert Template(CaseHead(plan, f)) == CaseHead(plan, f) && Template(end) == end;
  }

  method WriteNames(query0: seq<Chunk>, columns: seq<string>) returns (query: seq<Chunk>)
    ensures query == query0 + Names(columns)
  {
    query := query0;
    for index := 0 to |columns|
      invariant query == query0 + Names(columns[..index])
    {
      if index != 0 {
        query := query + [Text(", ")];
      }
      query := query + [Quoted(columns[index])];
      assert columns[..index + 1][..index] == columns[..index];
    }
    assert columns[..|columns|] == columns;
  }

  /** `n` placeholders separated by commas. */
  function Marks(n: nat): seq<Chunk> {
    if n == 0 then [] else Marks(n - 1) + Comma(n - 1) + [Mark]
  }

  lemma {:induction false} ListOfMarks(values: seq<Value>)
    ensures Template(ValueList(values)) == Marks(|values|)
  {
    if |values| > 0 {
      var n := |values| - 1;
      ListOfMarks(values[..n]);
      TemplateJoins(ValueList(values[..n]) + Comma(n), [Bound(Some(values[n]))]);
      TemplateJoins(ValueList(values[..n]), Comma(n));
      assert Template(Comma(n)) == Comma(n) && Template([Bound(Some(values[n]))]) == [Mark];
    }
  }

  lemma TupleTemplate(n: nat, list: seq<Chunk>)
    ensures Template(Tuple(n, list)) == Tuple(n, Template(list))
  {
    if n > 1 {
      TemplateJoins([Text("(")], list);
      TemplateJoins([Text("(")] + list, [Text(")")]);
      assert Template([Text("(")]) == [Text("(")] && Template([Text(")")]) == [Text(")")];
    }
  }

  method WriteKeyRow(query0: seq<Chunk>, width: nat, ghost values: seq<Value>) returns (query: seq<Chunk>)
    requires width == |values|
    ensures query == query0 + Template(Tuple(width, ValueList(values)))
  {
    query := query0;
    if width > 1 {
      query := query + [Text("(")];
    }
    ghost var open := query;
    for index := 0 to width
      invariant query == open + Marks(index)
    {
      if index != 0 {
        query := query + [Text(", ")];
      }
      query := query + [Mark];
    }
    if width > 1 {
      query := query + [Text(")")];
    }
    ListOfMarks(values);
    TupleTemplate(width, ValueList(values));
  }

  method WriteKeyRows(query0: seq<Chunk>, plan: UpdatePlan, ghost inputs: seq<Input>,
    rows: nat) returns (query: seq<Chunk>)
    requires plan.Valid() && plan.AllFit(inputs) && rows == |inputs|
    ensures query == query0 + Template(KeyRows(inputs))
  {
    hide Template, ValueList;
    query := query0;
    NoRows(inputs);
    for row := 0 to rows
      invariant query == query0 + Template(KeyRows(inputs[..row]))
    {
      if row != 0 {
        query := query + [Text(", ")];
      }
      query := WriteKeyRow(query, |plan.keys|, inputs[row].keys);
      KeyRowsGrow(query0, inputs, row);
    }
    assert inputs[..rows] == inputs;
  }

  lemma NoRows(inputs: seq<Input>)
    ensures Template(KeyRows(inputs[..0])) == []
  {
  }

  lemma KeyRowsGrow(q: seq<Chunk>, inputs: seq<Input>, row: nat)
    requires row < |inputs|
    ensures var front, last := q + Template(KeyRows(inputs[..row])),
      Template(Tuple(|inputs[row].keys|, ValueList(inputs[row].keys)));
      (if row != 0 then front + [Text(", ")] else front) + last == q + Template(KeyRows(inputs[..row + 1]))
  {
    hide ValueList, Tuple;
    assert inputs[..row + 1][..row] == inputs[..row];
    var last := Tuple(|inputs[row].keys|, ValueList(inputs[row].keys));
    TemplateJoins(KeyRows(inputs[..row]) + Comma(row), last);
    TemplateJoins(KeyRows(inputs[..row]), Comma(row));
    assert Template(Comma(row)) == Comma(row);
  }

  method WriteScope(query0: seq<Chunk>, plan: UpdatePlan) returns (query: seq<Chunk>)
    ensures query == query0 + Scope(plan)
  {
    query := query0;
    if plan.softDelete.Some? {
      query := query + [Text(" AND "), Quoted(plan.softDelete.value), Text(" IS NULL")];
    }
  }

  /** The CASE update for any input of this many rows. */
  method RenderUpdateMany(plan: UpdatePlan, rows: nat, ghost inputs: seq<Input>) returns (query: seq<Chunk>)
    requires plan.Valid() && plan.AllFit(inputs) && rows == |inputs|
    ensures query == Template(Many(plan, inputs))
  {
    hide Template, Assignment, KeyRows, Names;
    query := [Text("UPDATE "), Quoted(plan.table), Text(" SET ")];
    ghost var head := query;
    NoAssignments(plan, inputs);
    for index := 0 to |plan.fields|
      invariant query == head + Template(Assignments(plan, inputs, index))
    {
      if index != 0 {
        query := query + [Text(", ")];
      }
      query := WriteAssignment(query, plan, inputs, rows, index);
      AssignmentsGrow(head, plan, inputs, index);
    }
    ghost var afterSet := query;
    query := query + [Text(" WHERE ")];
    if |plan.keys| > 1 {
      query := query + [Text("(")];
    }
    query := WriteNames(query, plan.keys);
    if |plan.keys| > 1 {
      query := query + [Text(")")];
    }
    query := query + [Text(" IN (")];
    assert query == afterSet + ([Text(" WHERE ")] + Tuple(|plan.keys|, Names(plan.keys)) + [Text(" IN (")]);
    query := WriteKeyRows(query, plan, inputs, rows);
    ghost var keyed := query;
    query := query + [Text(")")];
    query := WriteScope(query, plan);
    assert query == keyed + ([Text(")")] + Scope(plan));
    ManyWritten(plan, inputs);
  }

  lemma NoAssignments(plan: UpdatePlan, inputs: seq<Input>)
    requires plan.Valid() && plan.AllFit(inputs)
    ensures Template(Assignments(plan, inputs, 0)) == []
  {
  }

  lemma AssignmentsGrow(q: seq<Chunk>, plan: UpdatePlan, inputs: seq<Input>, n: nat)
    requires plan.Valid() && plan.AllFit(inputs) && n < |plan.fields|
    ensures var front := q + Template(Assignments(plan, inputs, n));
      (if n != 0 then front + [Text(", ")] else front) + Template(Assignment(plan, inputs, n))
      == q + Template(Assignments(plan, inputs, n + 1))
  {
    hide Assignment;
    TemplateJoins(Assignments(plan, inputs, n) + Comma(n), Assignment(plan, inputs, n));
    TemplateJoins(Assignments(plan, inputs, n), Comma(n));
    assert Template(Comma(n)) == Comma(n);
  }

  lemma {:induction false} NamesAreText(columns: seq<string>)
    ensures Template(Names(columns)) == Names(columns)
  {
    if |columns| > 0 {
      var n := |columns| - 1;
      NamesAreText(columns[..n]);
      TemplateJoins(Names(columns[..n]) + Comma(n), [Quoted(columns[n])]);
      TemplateJoins(Names(columns[..n]), Comma(n));
      assert Template(Comma(n)) == Comma(n) && Template([Quoted(columns[n])]) == [Quoted(columns[n])];
    }
  }

  lemma ManyWritten(plan: UpdatePlan, inputs: seq<Input>)
    requires plan.Valid() && plan.AllFit(inputs)
    ensures Template(Many(plan, inputs)) ==
      [Text("UPDATE "), Quoted(plan.table), Text(" SET ")] + Template(Assignments(plan, inputs, |plan.fields|))
      + ([Text(" WHERE ")] + Tuple(|plan.keys|, Names(plan.keys)) + [Text(" IN (")])
      + Template(KeyRows(inputs)) + ([Text(")")] + Scope(plan))
  {
    hide Assignments, KeyRows, Names, Template;
    var head, sets := [Text("UPDATE "), Quoted(plan.table), Text(" SET ")], Assignments(plan, inputs, |plan.fields|);
    var condition, rows := [Text(" WHERE ")] + Tuple(|plan.keys|, Names(plan.keys)) + [Text(" IN (")], KeyRows(inputs);
    var end := [Text(")")] + Scope(plan);
    TemplateJoins(head + sets + condition + rows, end);
    TemplateJoins(head + sets + condition, rows);
    TemplateJoins(head + sets, condition);
    TemplateJoins(head, sets);
    FixedText(plan);
  }

  lemma FixedText(plan: UpdatePlan)
    ensures var head := [Text("UPDATE "), Quoted(plan.table), Text(" SET ")]; Template(head) == head
    ensures var condition := [Text(" WHERE ")] + Tuple(|plan.keys|, Names(plan.keys))
      + [Text(" IN (")]; Template(condition) == condition
    ensures var end := [Text(")")] + Scope(plan); Template(end) == end
  {
    hide Names;
    NamesAreText(plan.keys);
    TupleTemplate(|plan.keys|, Names(plan.keys));
    TemplateJoins([Text(" WHERE ")] + Tuple(|plan.keys|, Names(plan.keys)), [Text(" IN (")]);
    TemplateJoins([Text(" WHERE ")], Tuple(|plan.keys|, Names(plan.keys)));
  }
}
