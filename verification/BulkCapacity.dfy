/** The capacity reserved for a bulk UPDATE is its exact length (orm/bulk_update.go:322-357). */
module BulkCapacity {
  import opened SqlValues
  import opened BulkUpdate
  import opened BulkArguments

  function TestsWidth(keys: seq<string>): nat {
    if |keys| == 0 then 0
    else TestsWidth(keys[..|keys| - 1]) + (if |keys| > 1 then 5 else 0) + |keys[|keys| - 1]| + 6
  }

  lemma {:induction false} WidthOfTests(keys: seq<string>, values: seq<Value>)
    requires |keys| == |values|
    ensures Width(KeyTests(keys, values)) == TestsWidth(keys)
  {
    if |keys| > 0 {
      var n := |keys| - 1;
      WidthOfTests(keys[..n], values[..n]);
      LastTest(keys, values);
    }
  }

  lemma LastTest(keys: seq<string>, values: seq<Value>)
    requires |keys| == |values| > 0
    ensures var n := |keys| - 1;
      Width(KeyTests(keys, values)) == Width(KeyTests(keys[..n],
        values[..n])) + (if n > 0 then 5 else 0) + |keys[n]| + 6
  {
    hide Width;
    var n := |keys| - 1;
    var front, and := KeyTests(keys[..n], values[..n]), if n > 0 then [Text(" AND ")] else [];
    var last := [Quoted(keys[n]), Text(" = "), Bound(Some(values[n]))];
    assert KeyTests(keys, values) == front + and + last;
    WidthJoins(front + and, last);
    WidthJoins(front, and);
    ThreeWide(Quoted(keys[n]), Text(" = "), Bound(Some(values[n])));
    MaybeWide(n > 0, Text(" AND "));
  }

  lemma OneWide(a: Chunk)
    ensures Width([a]) == WidthOf(a)
  {
  }

  lemma TwoWide(a: Chunk, b: Chunk)
    ensures Width([a, b]) == WidthOf(a) + WidthOf(b)
  {
    WidthJoins([a], [b]);
    assert [a] + [b] == [a, b];
    OneWide(a);
    OneWide(b);
  }

  lemma ThreeWide(a: Chunk, b: Chunk, c: Chunk)
    ensures Width([a, b, c]) == WidthOf(a) + WidthOf(b) + WidthOf(c)
  {
    WidthJoins([a, b], [c]);
    assert [a, b] + [c] == [a, b, c];
    TwoWide(a, b);
    OneWide(c);
  }

  lemma MaybeWide(some: bool, c: Chunk)
    ensures Width(if some then [c] else []) == if some then WidthOf(c) else 0
  {
    OneWide(c);
  }

  function ArmWidth(keys: seq<string>): nat {
    if |keys| == 1 then 1 else TestsWidth(keys)
  }

  lemma WidthOfArm(plan: UpdatePlan, input: Input, f: nat)
    requires plan.Valid() && plan.Fits(input) && f < |plan.fields|
    ensures Width(Arm(plan, input, f)) == 13 + ArmWidth(plan.keys)
  {
    hide Width, KeyTests, TestsWidth;
    var when := When(plan.keys, input.keys);
    WidthJoins([Text("WHEN ")] + when, [Text(" THEN "), Bound(input.values[f]), Text(" ")]);
    WidthJoins([Text("WHEN ")], when);
    OneWide(Text("WHEN "));
    OneWide(Bound(Some(input.keys[0])));
    ThreeWide(Text(" THEN "), Bound(input.values[f]), Text(" "));
    WidthOfTests(plan.keys, input.keys);
  }

  lemma {:induction false} WidthOfArms(plan: UpdatePlan, inputs: seq<Input>, f: nat)
    requires plan.Valid() && plan.AllFit(inputs) && f < |plan.fields|
    ensures Width(Arms(plan, inputs, f)) == Nth(13 + ArmWidth(plan.keys), |inputs|)
  {
    hide Arm, ArmWidth, Nth;
    var w := 13 + ArmWidth(plan.keys);
    if |inputs| == 0 {
      NthStep(w, 0);
    } else {
      var n := |inputs| - 1;
      NthStep(w, n);
      WidthOfArms(plan, inputs[..n], f);
      WidthJoins(Arms(plan, inputs[..n], f), Arm(plan, inputs[n], f));
      WidthOfArm(plan, inputs[n], f);
    }
  }

  lemma WidthOfAssignment(plan: UpdatePlan, inputs: seq<Input>, f: nat)
    requires plan.Valid() && plan.AllFit(inputs) && f < |plan.fields|
    ensures Width(Assignment(plan, inputs, f)) ==
      2 * (|plan.fields[f]| + 2) + 17 + (if |plan.keys| == 1 then |plan.keys[0]| + 3 else 0)
      + Nth(13 + ArmWidth(plan.keys), |inputs|)
  {
    hide Width, Arms, ArmWidth, Nth;
    var field := Quoted(plan.fields[f]);
    var end := [Text("ELSE "), field, Text(" END")];
    WidthJoins(CaseHead(plan, f) + Arms(plan, inputs, f), end);
    WidthJoins(CaseHead(plan, f), Arms(plan, inputs, f));
    WidthJoins([field, Text(" = CASE ")], if |plan.keys| == 1 then [Quoted(plan.keys[0]), Text(" ")] else []);
    TwoWide(field, Text(" = CASE "));
    TwoWide(Quoted(plan.keys[0]), Text(" "));
    MaybeWide(false, Text(""));
    ThreeWide(Text("ELSE "), field, Text(" END"));
    WidthOfArms(plan, inputs, f);
  }

  function NamesWidth(columns: seq<string>): nat {
    if |columns| == 0 then 0
    else NamesWidth(columns[..|columns| - 1]) + (if |columns| > 1 then 2 else 0) + |columns[|columns| - 1]| + 2
  }

  lemma {:induction false} WidthOfNames(columns: seq<string>)
    ensures Width(Names(columns)) == NamesWidth(columns)
  {
    if |columns| > 0 {
      var n := |columns| - 1;
      WidthOfNames(columns[..n]);
      LastName(Names(columns[..n]), n, Quoted(columns[n]));
    }
  }

  lemma LastName(front: seq<Chunk>, n: nat, last: Chunk)
    ensures Width(front + Comma(n) + [last]) == Width(front) + (if n > 0 then 2 else 0) + WidthOf(last)
  {
    hide Width;
    WidthJoins(front + Comma(n), [last]);
    WidthJoins(front, Comma(n));
    MaybeWide(n > 0, Text(", "));
    OneWide(last);
  }

  lemma {:induction false} WidthOfList(values: seq<Value>)
    ensures Width(ValueList(values)) == if |values| == 0 then 0 else 3 * |values| - 2
  {
    if |values| > 0 {
      var n := |values| - 1;
      WidthOfList(values[..n]);
      LastName(ValueList(values[..n]), n, Bound(Some(values[n])));
    }
  }

  lemma WidthOfTuple(n: nat, list: seq<Chunk>)
    ensures Width(Tuple(n, list)) == Width(list) + if n > 1 then 2 else 0
  {
    hide Width;
    WidthJoins([Text("(")] + list, [Text(")")]);
    WidthJoins([Text("(")], list);
    OneWide(Text("("));
    OneWide(Text(")"));
  }

  function KeyRowWidth(keys: nat): nat
    requires keys > 0
  {
    3 * keys - 2 + if keys > 1 then 2 else 0
  }

  lemma {:induction false} WidthOfKeyRows(plan: UpdatePlan, inputs: seq<Input>)
    requires plan.Valid() && plan.AllFit(inputs)
    ensures Width(KeyRows(inputs)) == Nth(KeyRowWidth(|plan.keys|),
      |inputs|) + if |inputs| == 0 then 0 else 2 * (|inputs| - 1)
  {
    hide Tuple, ValueList, Nth;
    var w := KeyRowWidth(|plan.keys|);
    if |inputs| == 0 {
      NthStep(w, 0);
    } else {
      var n := |inputs| - 1;
      var last := Tuple(|inputs[n].keys|, ValueList(inputs[n].keys));
      NthStep(w, n);
      WidthOfKeyRows(plan, inputs[..n]);
      WidthJoins(KeyRows(inputs[..n]) + Comma(n), last);
      WidthJoins(KeyRows(inputs[..n]), Comma(n));
      MaybeWide(n > 0, Text(", "));
      WidthOfTuple(|inputs[n].keys|, ValueList(inputs[n].keys));
      WidthOfList(inputs[n].keys);
    }
  }

  function AssignmentsWidth(plan: UpdatePlan, rows: nat, n: nat): nat
    requires plan.Valid() && n <= |plan.fields|
  {
    if n == 0 then 0
    else
      AssignmentsWidth(plan, rows, n - 1) + (if n > 1 then 2 else 0) + 2 * (|plan.fields[n - 1]| + 2) + 17
      + (if |plan.keys| == 1 then |plan.keys[0]| + 3 else 0) + Nth(13 + ArmWidth(plan.keys), rows)
  }

  lemma {:induction false} WidthOfAssignments(plan: UpdatePlan, inputs: seq<Input>, n: nat)
    requires plan.Valid() && plan.AllFit(inputs) && n <= |plan.fields|
    ensures Width(Assignments(plan, inputs, n)) == AssignmentsWidth(plan, |inputs|, n)
  {
    hide Assignment, Nth, ArmWidth;
    if n > 0 {
      WidthOfAssignments(plan, inputs, n - 1);
      WidthJoins(Assignments(plan, inputs, n - 1) + Comma(n - 1), Assignment(plan, inputs, n - 1));
      WidthJoins(Assignments(plan, inputs, n - 1), Comma(n - 1));
      MaybeWide(n > 1, Text(", "));
      WidthOfAssignment(plan, inputs, n - 1);
    }
  }

  lemma WidthOfMany(plan: UpdatePlan, inputs: seq<Input>)
    requires plan.Valid() && plan.AllFit(inputs) && |inputs| > 0
    ensures Width(Many(plan, inputs)) ==
      14 + |plan.table| + AssignmentsWidth(plan, |inputs|, |plan.fields|)
      + 13 + NamesWidth(plan.keys) + (if |plan.keys| > 1 then 2 else 0)
      + Nth(KeyRowWidth(|plan.keys|), |inputs|) + 2 * (|inputs| - 1)
      + if plan.softDelete.Some? then 15 + |plan.softDelete.value| else 0
  {
    hide Width, Assignments, KeyRows, Names, AssignmentsWidth, Nth, KeyRowWidth, NamesWidth, Tuple;
    var head, sets := [Text("UPDATE "), Quoted(plan.table), Text(" SET ")], Assignments(plan, inputs, |plan.fields|);
    var names := Tuple(|plan.keys|, Names(plan.keys));
    var condition, rows := [Text(" WHERE ")] + names + [Text(" IN (")], KeyRows(inputs);
    var end := [Text(")")] + Scope(plan);
    WidthJoins(head + sets + condition + rows, end);
    WidthJoins(head + sets + condition, rows);
    WidthJoins(head + sets, condition);
    WidthJoins(head, sets);
    ThreeWide(Text("UPDATE "), Quoted(plan.table), Text(" SET "));
    WidthOfAssignments(plan, inputs, |plan.fields|);
    WidthJoins([Text(" WHERE ")] + names, [Text(" IN (")]);
    WidthJoins([Text(" WHERE ")], names);
    OneWide(Text(" WHERE "));
    OneWide(Text(" IN ("));
    WidthOfTuple(|plan.keys|, Names(plan.keys));
    WidthOfNames(plan.keys);
    WidthOfKeyRows(plan, inputs);
    WidthJoins([Text(")")], Scope(plan));
    OneWide(Text(")"));
    ScopeWide(plan);
  }

  lemma ScopeWide(plan: UpdatePlan)
    ensures Width(Scope(plan)) == if plan.softDelete.Some? then 15 + |plan.softDelete.value| else 0
  {
    if plan.softDelete.Some? {
      ThreeWide(Text(" AND "), Quoted(plan.softDelete.value), Text(" IS NULL"));
    }
  }

  /** The capacity arithmetic counts the rendered statement exactly. */
  method UpdateManySQLCapacity(plan: UpdatePlan, rows: nat, ghost inputs: seq<Input>) returns (capacity: nat)
    requires plan.Valid() && plan.AllFit(inputs) && rows == |inputs| > 0
    ensures capacity == Width(Template(Many(plan, inputs)))
  {
    hide Width, Many, Nth, Template;
    var keyWidth, predicateWidth := 0, 0;
    for index := 0 to |plan.keys|
      invariant keyWidth == NamesWidth(plan.keys[..index]) && predicateWidth == TestsWidth(plan.keys[..index])
    {
      var width := |plan.keys[index]| + 2;
      keyWidth := keyWidth + width;
      predicateWidth := predicateWidth + width + 4;
      if index != 0 {
        keyWidth := keyWidth + 2;
        predicateWidth := predicateWidth + 5;
      }
      assert plan.keys[..index + 1][..index] == plan.keys[..index];
    }
    assert plan.keys[..|plan.keys|] == plan.keys;
    SingleName(plan.keys);
    capacity := 14 + |plan.table|;
    for index := 0 to |plan.fields|
      invariant capacity == 14 + |plan.table| + AssignmentsWidth(plan, rows, index)
    {
      if index != 0 {
        capacity := capacity + 2;
      }
      capacity := capacity + 2 * (|plan.fields[index]| + 2) + 17;
      var armWidth := predicateWidth;
      if |plan.keys| == 1 {
        capacity := capacity + keyWidth + 1;
        armWidth := 1;
      }
      NthIs(13 + armWidth, rows);
      capacity := capacity + rows * (13 + armWidth);
    }
    var keyRowWidth := |plan.keys| * 3 - 2;
    if |plan.keys| > 1 {
      keyWidth := keyWidth + 2;
      keyRowWidth := keyRowWidth + 2;
    }
    NthIs(keyRowWidth, rows);
    capacity := capacity + 13 + keyWidth + rows * keyRowWidth + (rows - 1) * 2;
    if plan.softDelete.Some? {
      capacity := capacity + 15 + |plan.softDelete.value|;
    }
    WidthOfMany(plan, inputs);
    WidthOfTemplate(Many(plan, inputs));
  }

  lemma NthIs(w: nat, n: nat)
    ensures Nth(w, n) == n * w >= 0
  {
  }

  lemma SingleName(keys: seq<string>)
    requires |keys| > 0
    ensures |keys| == 1 ==> NamesWidth(keys) == |keys[0]| + 2
  {
  }
}
