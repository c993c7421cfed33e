/** Running a bulk UPDATE in batches (orm/bulk_mutation.go, orm/bulk_update.go): the placeholder limit, the
    statements sent, and the table they leave, also when one of them fails. */
module BulkExec {
  import opened SqlValues
  import opened BulkUpdate
  import opened BulkWriter
  import opened BulkArguments

  const MAX_PARAMETERS := 65535

  // ---- the placeholder limit ----

  function Marked(t: seq<Chunk>): nat {
    if |t| == 0 then 0 else Marked(t[..|t| - 1]) + if t[|t| - 1].Mark? then 1 else 0
  }

  /** A statement has as many placeholders as arguments. */
  lemma {:induction false} MarkedIsSlots(m: seq<Chunk>)
    requires NoMarks(m)
    ensures Marked(Template(m)) == |Slots(m)|
  {
    if |m| > 0 {
      var front := m[..|m| - 1];
      forall c <- front
        ensures c != Mark
      {
        assert c in m;
      }
      MarkedIsSlots(front);
      assert Template(m)[..|m| - 1] == Template(front);
      assert m[|m| - 1] in m;
    }
  }

  /** How many rows go into one statement, if even one row fits. */
  function RowsPerStatement(plan: UpdatePlan): (rows: Option<nat>)
    requires plan.Valid()
    ensures rows.Some? <==> |plan.keys| + |plan.fields| <= MAX_PARAMETERS
    ensures rows.Some? ==> rows.value >= 1 && (rows.value > 1 ==> rows.value * plan.PerRow() <= MAX_PARAMETERS)
    ensures rows.Some? ==> (rows.value + 1) * plan.PerRow() > MAX_PARAMETERS
  {
    if |plan.keys| + |plan.fields| > MAX_PARAMETERS then None
    else
      PerRowPositive(plan);
      var fit := MAX_PARAMETERS / plan.PerRow();
      QuotientIsLargest(MAX_PARAMETERS, plan.PerRow());
      Some(if fit < 1 then 1 else fit)
  }

  lemma PerRowPositive(plan: UpdatePlan)
    requires plan.Valid()
    ensures plan.PerRow() > 0
  {
  }

  lemma QuotientIsLargest(total: nat, width: nat)
    requires width > 0
    ensures total / width * width <= total < (total / width + 1) * width
    ensures total < width ==> total < 2 * width
  {
  }

  /** Every batch stays within the limit, the one-row statement included, which binds its key once only. */
  lemma BatchFits(plan: UpdatePlan, inputs: seq<Input>)
    requires plan.Valid() && plan.AllFit(inputs) && RowsPerStatement(plan).Some?
    requires 0 < |inputs| <= RowsPerStatement(plan).value
    ensures |Slots(Meant(plan, inputs))| <= 65535
  {
    hide Slots, Many, BulkUpdate.One;
    if |inputs| == 1 {
      SlotsOfOne(plan, inputs[0]);
    } else {
      SlotCount(plan, inputs);
      Shrinks(|inputs|, RowsPerStatement(plan).value, plan.PerRow());
    }
  }

  /** One row more than a batch holds is too many for a statement. */
  lemma BatchIsLargest(plan: UpdatePlan, inputs: seq<Input>)
    requires plan.Valid() && plan.AllFit(inputs) && RowsPerStatement(plan).Some?
    requires |inputs| > RowsPerStatement(plan).value
    ensures |Slots(Meant(plan, inputs))| > 65535
  {
    hide Slots, Many, BulkUpdate.One;
    SlotCount(plan, inputs);
    Shrinks(RowsPerStatement(plan).value + 1, |inputs|, plan.PerRow());
  }

  lemma Shrinks(a: nat, b: nat, w: nat)
    requires a <= b
    ensures a * w <= b * w
  {
  }

  // ---- statements with values in place have no placeholder of their own ----

  lemma {:induction false} TestsUnmarked(keys: seq<string>, values: seq<Value>)
    requires |keys| == |values|
    ensures NoMarks(KeyTests(keys, values))
  {
    if |keys| > 0 {
      TestsUnmarked(keys[..|keys| - 1], values[..|keys| - 1]);
    }
  }

  lemma {:induction false} ArmsUnmarked(plan: UpdatePlan, inputs: seq<Input>, f: nat)
    requires plan.Valid() && plan.AllFit(inputs) && f < |plan.fields|
    ensures NoMarks(Arms(plan, inputs, f))
  {
    hide KeyTests;
    if |inputs| > 0 {
      ArmsUnmarked(plan, inputs[..|inputs| - 1], f);
      TestsUnmarked(plan.keys, inputs[|inputs| - 1].keys);
    }
  }

  lemma {:induction false} AssignmentsUnmarked(plan: UpdatePlan, inputs: seq<Input>, n: nat)
    requires plan.Valid() && plan.AllFit(inputs) && n <= |plan.fields|
    ensures NoMarks(Assignments(plan, inputs, n))
  {
    hide Arms;
    if n > 0 {
      AssignmentsUnmarked(plan, inputs, n - 1);
      ArmsUnmarked(plan, inputs, n - 1);
    }
  }

  lemma {:induction false} NamesUnmarked(columns: seq<string>)
    ensures NoMarks(Names(columns))
  {
    if |columns| > 0 {
      NamesUnmarked(columns[..|columns| - 1]);
    }
  }

  lemma {:induction false} ListUnmarked(values: seq<Value>)
    ensures NoMarks(ValueList(values))
  {
    if |values| > 0 {
      ListUnmarked(values[..|values| - 1]);
    }
  }

  lemma {:induction false} RowsUnmarked(inputs: seq<Input>)
    ensures NoMarks(KeyRows(inputs))
  {
    hide ValueList;
    if |inputs| > 0 {
      RowsUnmarked(inputs[..|inputs| - 1]);
      ListUnmarked(inputs[|inputs| - 1].keys);
    }
  }

  lemma {:induction false} SetsUnmarked(fields: seq<string>, values: seq<Option<Value>>)
    requires |fields| == |values|
    ensures NoMarks(Sets(fields, values))
  {
    if |fields| > 0 {
      SetsUnmarked(fields[..|fields| - 1], values[..|fields| - 1]);
    }
  }

  lemma MeantUnmarked(plan: UpdatePlan, inputs: seq<Input>)
    requires plan.Valid() && plan.AllFit(inputs) && |inputs| > 0
    ensures NoMarks(Meant(plan, inputs))
  {
    hide KeyTests, Sets, Names, KeyRows, Assignments;
    if |inputs| == 1 {
      SetsUnmarked(plan.fields, inputs[0].values);
      TestsUnmarked(plan.keys, inputs[0].keys);
    } else {
      AssignmentsUnmarked(plan, inputs, |plan.fields|);
      NamesUnmarked(plan.keys);
      RowsUnmarked(inputs);
    }
  }

  // ---- batches of equal size share their text ----

  lemma {:induction false} SameArms(plan: UpdatePlan, a: seq<Input>, b: seq<Input>, f: nat)
    requires plan.Valid() && plan.AllFit(a) && plan.AllFit(b) && |a| == |b| && f < |plan.fields|
    ensures Template(Arms(plan, a, f)) == Template(Arms(plan, b, f))
  {
    hide Template, Arm;
    if |a| > 0 {
      var n := |a| - 1;
      SameArms(plan, a[..n], b[..n], f);
      TemplateJoins(Arms(plan, a[..n], f), Arm(plan, a[n], f));
      TemplateJoins(Arms(plan, b[..n], f), Arm(plan, b[n], f));
      SameArm(plan, a[n], b[n], f);
    }
  }

  lemma SameArm(plan: UpdatePlan, a: Input, b: Input, f: nat)
    requires plan.Valid() && plan.Fits(a) && plan.Fits(b) && f < |plan.fields|
    ensures Template(Arm(plan, a, f)) == Template(Arm(plan, b, f))
  {
    hide Template, Arm, KeyTests;
    ArmWritten([], plan, a, f);
    ArmWritten([], plan, b, f);
    SameKeyTests(plan.keys, a.keys, b.keys);
    assert [] + Template(Arm(plan, a, f)) == Template(Arm(plan, a, f));
    assert [] + Template(Arm(plan, b, f)) == Template(Arm(plan, b, f));
  }

  lemma {:induction false} SameAssignments(plan: UpdatePlan, a: seq<Input>, b: seq<Input>, n: nat)
    requires plan.Valid() && plan.AllFit(a) && plan.AllFit(b) && |a| == |b| && n <= |plan.fields|
    ensures Template(Assignments(plan, a, n)) == Template(Assignments(plan, b, n))
  {
    hide Template, Assignment;
    if n > 0 {
      SameAssignments(plan, a, b, n - 1);
      SameAssignment(plan, a, b, n - 1);
      AssignmentsGrow([], plan, a, n - 1);
      AssignmentsGrow([], plan, b, n - 1);
      assert forall m: seq<Chunk> :: [] + m == m;
    }
  }

  lemma SameAssignment(plan: UpdatePlan, a: seq<Input>, b: seq<Input>, f: nat)
    requires plan.Valid() && plan.AllFit(a) && plan.AllFit(b) && |a| == |b| && f < |plan.fields|
    ensures Template(Assignment(plan, a, f)) == Template(Assignment(plan, b, f))
  {
    hide Template, Assignment, Arms, CaseHead;
    SameArms(plan, a, b, f);
    AssignmentWritten([], plan, a, f);
    AssignmentWritten([], plan, b, f);
    assert forall m: seq<Chunk> :: [] + m == m;
  }

  lemma {:induction false} SameKeyRows(plan: UpdatePlan, a: seq<Input>, b: seq<Input>)
    requires plan.Valid() && plan.AllFit(a) && plan.AllFit(b) && |a| == |b|
    ensures Template(KeyRows(a)) == Template(KeyRows(b))
  {
    hide Template, ValueList, Tuple;
    if |a| > 0 {
      var n := |a| - 1;
      SameKeyRows(plan, a[..n], b[..n]);
      KeyRowsGrow([], a, n);
      KeyRowsGrow([], b, n);
      ListOfMarks(a[n].keys);
      ListOfMarks(b[n].keys);
      TupleTemplate(|plan.keys|, ValueList(a[n].keys));
      TupleTemplate(|plan.keys|, ValueList(b[n].keys));
      assert a[..n + 1] == a && b[..n + 1] == b;
      assert forall m: seq<Chunk> :: [] + m == m;
    }
  }

  lemma {:induction false} SameSets(fields: seq<string>, a: seq<Option<Value>>, b: seq<Option<Value>>)
    requires |fields| == |a| == |b|
    ensures Template(Sets(fields, a)) == Template(Sets(fields, b))
  {
    if |fields| > 0 {
      var n := |fields| - 1;
      SameSets(fields[..n], a[..n], b[..n]);
      TemplateOfSets(fields, a);
      TemplateOfSets(fields, b);
    }
  }

  lemma TemplateOfSets(fields: seq<string>, values: seq<Option<Value>>)
    requires |fields| == |values| > 0
    ensures var n := |fields| - 1;
      Template(Sets(fields, values))
        == Template(Sets(fields[..n], values[..n])) + Comma(n) + [Quoted(fields[n]), Text(" = "), Mark]
  {
    hide Template;
    var n := |fields| - 1;
    var front, last := Sets(fields[..n], values[..n]), [Quoted(fields[n]), Text(" = "), Bound(values[n])];
    assert Sets(fields, values) == front + Comma(n) + last;
    TemplateJoins(front + Comma(n), last);
    TemplateJoins(front, Comma(n));
    TemplateOfSet(fields[n], values[n], n);
  }

  lemma TemplateOfSet(name: string, value: Option<Value>, n: nat)
    ensures Template(Comma(n)) == Comma(n)
    ensures Template([Quoted(name), Text(" = "), Bound(value)]) == [Quoted(name), Text(" = "), Mark]
  {
  }

  lemma OneWritten(plan: UpdatePlan, input: Input)
    requires plan.Valid() && plan.Fits(input)
    ensures Template(BulkUpdate.One(plan, input)) ==
      [Text("UPDATE "), Quoted(plan.table), Text(" SET ")] + Template(Sets(plan.fields, input.values))
        + [Text(" WHERE ")]
      + Template(KeyTests(plan.keys, input.keys)) + Scope(plan)
  {
    hide Template, Sets, KeyTests, Scope;
    var head, sets, tests := [Text("UPDATE "), Quoted(plan.table), Text(" SET ")], Sets(plan.fields, input.values),
      KeyTests(plan.keys, input.keys);
    TemplateJoins(head + sets + [Text(" WHERE ")] + tests, Scope(plan));
    TemplateJoins(head + sets + [Text(" WHERE ")], tests);
    TemplateJoins(head + sets, [Text(" WHERE ")]);
    TemplateJoins(head, sets);
    OneFixedText(plan);
  }

  lemma OneFixedText(plan: UpdatePlan)
    ensures var head := [Text("UPDATE "), Quoted(plan.table), Text(" SET ")]; Template(head) == head
    ensures Template([Text(" WHERE ")]) == [Text(" WHERE ")] && Template(Scope(plan)) == Scope(plan)
  {
  }

  /** A statement text can be reused for any batch with as many rows. */
  lemma SameText(plan: UpdatePlan, a: seq<Input>, b: seq<Input>)
    requires plan.Valid() && plan.AllFit(a) && plan.AllFit(b) && |a| == |b| > 0
    ensures Template(Meant(plan, a)) == Template(Meant(plan, b))
  {
    hide Template, Sets, KeyTests, Scope, Many, BulkUpdate.One, Assignments, KeyRows, Names, Tuple;
    if |a| == 1 {
      OneWritten(plan, a[0]);
      OneWritten(plan, b[0]);
      SameSets(plan.fields, a[0].values, b[0].values);
      SameKeyTests(plan.keys, a[0].keys, b[0].keys);
    } else {
      ManyWritten(plan, a);
      ManyWritten(plan, b);
      SameAssignments(plan, a, b, |plan.fields|);
      SameKeyRows(plan, a, b);
    }
  }

  // ---- compiling a batch ----

  datatype Statement = Statement(text: seq<Chunk>, arguments: seq<Option<Value>>)

  method RenderPrimaryKeyUpdate(plan: UpdatePlan, ghost input: Input) returns (query: seq<Chunk>)
    requires plan.Valid() && plan.Fits(input)
    ensures query == Template(BulkUpdate.One(plan, input))
  {
    hide Template, KeyTests, Scope, BulkUpdate.One;
    query := [Text("UPDATE "), Quoted(plan.table), Text(" SET ")];
    ghost var head := query;
    NoSets();
    for index := 0 to |plan.fields|
      invariant query == head + Template(Sets(plan.fields[..index], input.values[..index]))
    {
      ghost var before := query;
      if index != 0 {
        query := query + [Text(", ")];
      }
      query := query + [Quoted(plan.fields[index]), Text(" = "), Mark];
      SetsGrow(head, before, plan.fields, input.values, index);
    }
    assert plan.fields[..|plan.fields|] == plan.fields && input.values[..|plan.fields|] == input.values;
    query := query + [Text(" WHERE ")];
    query := WriteKeyPredicates(query, plan.keys, input.keys);
    query := WriteScope(query, plan);
    OneWritten(plan, input);
  }

  lemma NoSets()
    ensures Template(Sets([], [])) == []
  {
  }

  lemma SetsGrow(head: seq<Chunk>, before: seq<Chunk>, fields: seq<string>, values: seq<Option<Value>>, index: nat)
    requires |fields| == |values| && index < |fields|
    requires before == head + Template(Sets(fields[..index], values[..index]))
    ensures (if index != 0 then before + [Text(", ")] else before) + [Quoted(fields[index]), Text(" = "), Mark]
      == head + Template(Sets(fields[..index + 1], values[..index + 1]))
  {
    hide Template, Sets;
    TemplateOfSets(fields[..index + 1], values[..index + 1]);
    assert fields[..index + 1][..index] == fields[..index] && values[..index + 1][..index] == values[..index];
  }

  function Values(slots: seq<Slot>): (r: seq<Option<Value>>)
    requires forall s <- slots :: s.Given?
  {
    seq(|slots|, i requires 0 <= i < |slots| => assert slots[i] in slots; slots[i].value)
  }

  lemma ValuesOfGiven(values: seq<Option<Value>>)
    ensures (forall s <- AllGiven(values) :: s.Given?) && Values(AllGiven(values)) == values
  {
  }

  /** One batch: its arguments, and its text unless the text of the batch before can be used again. */
  method CompileRange(plan: UpdatePlan, inputs: seq<Input>, start: nat, end: nat, statement: Option<seq<Chunk>>)
    returns (compiled: Statement)
    requires plan.Valid() && plan.AllFit(inputs) && start < end <= |inputs|
    requires statement.Some? ==> statement.value == Template(Meant(plan, inputs[start..end]))
    ensures compiled.text == Template(Meant(plan, inputs[start..end]))
    ensures compiled.arguments == Slots(Meant(plan, inputs[start..end]))
  {
    hide Template, Slots, Many, BulkUpdate.One;
    var rows, batch := end - start, inputs[start..end];
    var arguments;
    if rows == 1 {
      arguments := FillOne(plan, batch[0]);
    } else {
      arguments := FillMany(plan, batch);
    }
    ValuesOfGiven(Slots(Meant(plan, batch)));
    var text;
    if statement.Some? {
      text := statement.value;
    } else if rows == 1 {
      text := RenderPrimaryKeyUpdate(plan, batch[0]);
    } else {
      text := RenderUpdateMany(plan, rows, batch);
    }
    compiled := Statement(text, Values(arguments[..]));
  }

  // ---- batches ----

  function Least(a: nat, b: nat): nat {
    if a < b then a else b
  }

  /** The rows of statement `i` when each takes `rows`. */
  function Batch(inputs: seq<Input>, rows: nat, i: nat): seq<Input>
    requires Nth(rows, i) <= |inputs|
  {
    inputs[Nth(rows, i)..Least(Nth(rows, i) + rows, |inputs|)]
  }

  /** The statements that are sent when none of the first `n` fails. */
  ghost predicate SentInOrder(plan: UpdatePlan, inputs: seq<Input>, rows: nat, sent: seq<Statement>)
    requires plan.Valid() && plan.AllFit(inputs)
  {
    forall i | 0 <= i < |sent| ::
      && Nth(rows, i) < |inputs|
      && Batch(inputs, rows, i) != []
      && sent[i] == Statement(Template(Meant(plan, Batch(inputs, rows, i))), Slots(Meant(plan, Batch(inputs, rows, i))))
  }

  function Sum(counts: seq<Option<nat>>): nat {
    if |counts| == 0 then 0
    else Sum(counts[..|counts| - 1]) + if counts[|counts| - 1].Some? then counts[|counts| - 1].value else 0
  }

  /** The loop over the batches. `outcomes` is what the database reports, statement by statement: the affected
      count, or a failure, after which nothing more is sent. */
  method Exec(plan: UpdatePlan, inputs: seq<Input>, outcomes: seq<Option<nat>>)
    returns (ok: bool, sent: seq<Statement>, affected: nat, completed: nat)
    requires plan.Valid() && plan.AllFit(inputs) && |outcomes| >= |inputs|
    ensures RowsPerStatement(plan).None? ==> sent == [] && affected == 0 && completed == 0 && (ok <==> inputs == [])
    ensures RowsPerStatement(plan).Some? ==>
      var rows := RowsPerStatement(plan).value;
      && SentInOrder(plan, inputs, rows, sent)
      && |sent| <= |outcomes| && completed <= |sent| && affected == Sum(outcomes[..completed])
      && (forall i | 0 <= i < completed :: outcomes[i].Some?)
      && (ok ==> completed == |sent| && Nth(rows, completed) >= |inputs|)
      && (!ok ==> |sent| == completed + 1 && outcomes[completed].None?)
  {
    hide Template, Slots, Meant, Nth, SentInOrder, SameSizeText, Sum, RowsPerStatement, UpdatePlan.AllFit;
    NothingSent(plan, inputs, if RowsPerStatement(plan).Some? then RowsPerStatement(plan).value else 0);
    sent, affected, completed := [], 0, 0;
    if |inputs| == 0 {
      NthStep(if RowsPerStatement(plan).Some? then RowsPerStatement(plan).value else 0, 0);
      return true, sent, affected, completed;
    }
    var limit := RowsPerStatement(plan);
    if limit.None? {
      return false, sent, affected, completed;
    }
    var rows := limit.value;
    var previous: seq<Chunk>, previousRows, start := [], 0, 0;
    NthStep(rows, 0);
    while start < |inputs|
      invariant start == Nth(rows, completed) && |sent| == completed <= start
      invariant SentInOrder(plan, inputs, rows, sent)
      invariant completed <= |outcomes| && affected == Sum(outcomes[..completed])
      invariant forall i | 0 <= i < completed :: outcomes[i].Some?
      invariant previousRows > 0 ==> SameSizeText(plan, inputs, previous, previousRows)
      decreases |inputs| - start
    {
      var end := Least(start + rows, |inputs|);
      var statement := if end - start == previousRows then Some(previous) else None;
      if statement.Some? {
        TextFits(plan, inputs, previous, previousRows, start, end);
      }
      var compiled := CompileRange(plan, inputs, start, end, statement);
      previous, previousRows := compiled.text, end - start;
      FromBatch(plan, inputs, start, end);
      NthStep(rows, completed);
      SentGrows(plan, inputs, rows, sent, compiled);
      sent := sent + [compiled];
      if outcomes[completed].None? {
        return false, sent, affected, completed;
      }
      affected := affected + outcomes[completed].value;
      completed := completed + 1;
      SumGrows(outcomes, completed - 1);
      start := start + rows;
    }
    ok := true;
  }

  /** What each statement says once its arguments are bound in order, and that it is within the limit. */
  lemma SentMeans(plan: UpdatePlan, inputs: seq<Input>, sent: seq<Statement>, i: nat)
    requires plan.Valid() && plan.AllFit(inputs) && RowsPerStatement(plan).Some?
    requires SentInOrder(plan, inputs, RowsPerStatement(plan).value, sent) && i < |sent|
    ensures Nth(RowsPerStatement(plan).value, i) < |inputs|
    ensures var batch := Batch(inputs, RowsPerStatement(plan).value, i);
      && batch != [] && plan.AllFit(batch)
      && Bind(sent[i].text, sent[i].arguments) == Meant(plan, batch)
      && Marked(sent[i].text) == |sent[i].arguments| <= MAX_PARAMETERS
  {
    hide Template, Slots, Meant, Nth, Bind, NoMarks, Marked;
    var rows := RowsPerStatement(plan).value;
    var batch := Batch(inputs, rows, i);
    BatchFitsPlan(plan, inputs, rows, i);
    MeantUnmarked(plan, batch);
    BindsInOrder(Meant(plan, batch));
    MarkedIsSlots(Meant(plan, batch));
    BatchFits(plan, batch);
  }

  lemma NothingSent(plan: UpdatePlan, inputs: seq<Input>, rows: nat)
    requires plan.Valid() && plan.AllFit(inputs)
    ensures SentInOrder(plan, inputs, rows, []) && Sum([]) == 0
    ensures RowsPerStatement(plan).Some? ==> RowsPerStatement(plan).value >= 1
  {
  }

  lemma SumGrows(counts: seq<Option<nat>>, n: nat)
    requires n < |counts| && counts[n].Some?
    ensures Sum(counts[..n + 1]) == Sum(counts[..n]) + counts[n].value
  {
    assert counts[..n + 1][..n] == counts[..n];
  }

  lemma SentGrows(plan: UpdatePlan, inputs: seq<Input>, rows: nat, sent: seq<Statement>, compiled: Statement)
    requires plan.Valid() && plan.AllFit(inputs) && rows > 0 && SentInOrder(plan, inputs, rows, sent)
    requires Nth(rows, |sent|) < |inputs|
    requires var batch := inputs[Nth(rows, |sent|)..Least(Nth(rows, |sent|) + rows, |inputs|)];
      compiled.text == Template(Meant(plan, batch)) && compiled.arguments == Slots(Meant(plan, batch))
    ensures SentInOrder(plan, inputs, rows, sent + [compiled])
  {
    hide Template, Slots, Meant, Nth;
  }

  /** The text kept from the batch before belongs to any batch of its size. */
  ghost predicate SameSizeText(plan: UpdatePlan, inputs: seq<Input>, text: seq<Chunk>, rows: nat)
    requires plan.Valid() && plan.AllFit(inputs)
  {
    exists from: nat, to: nat | from < to <= |inputs| :: to - from == rows && text == Template(Meant(plan,
      inputs[from..to]))
  }

  lemma FromBatch(plan: UpdatePlan, inputs: seq<Input>, from: nat, to: nat)
    requires plan.Valid() && plan.AllFit(inputs) && from < to <= |inputs|
    ensures SameSizeText(plan, inputs, Template(Meant(plan, inputs[from..to])), to - from)
  {
    hide Template, Meant;
  }

  lemma TextFits(plan: UpdatePlan, inputs: seq<Input>, text: seq<Chunk>, rows: nat, start: nat, end: nat)
    requires plan.Valid() && plan.AllFit(inputs) && start < end <= |inputs| && end - start == rows
    requires SameSizeText(plan, inputs, text, rows)
    ensures text == Template(Meant(plan, inputs[start..end]))
  {
    hide Template, Meant;
    var from: nat, to: nat :| from < to <= |inputs| && to - from == rows
      && text == Template(Meant(plan, inputs[from..to]));
    SameText(plan, inputs[from..to], inputs[start..end]);
  }

  // ---- the table afterwards ----

  lemma EarlierStarts(rows: nat, n: nat, total: nat)
    requires n > 1 && Nth(rows, n - 1) < total
    ensures Nth(rows, n - 2) < total
  {
    hide Nth;
    NthStep(rows, n - 2);
  }

  lemma BatchFitsPlan(plan: UpdatePlan, inputs: seq<Input>, rows: nat, i: nat)
    requires plan.AllFit(inputs) && rows > 0 && Nth(rows, i) < |inputs|
    ensures 0 < |Batch(inputs, rows, i)| <= rows && plan.AllFit(Batch(inputs, rows, i))
  {
    hide Nth;
  }

  /** The table after the first `n` statements. */
  ghost function AfterBatches(plan: UpdatePlan, inputs: seq<Input>, rows: nat, n: nat, table: Table): Table
    requires plan.Valid() && plan.AllFit(inputs) && rows > 0
    requires n > 0 ==> Nth(rows, n - 1) < |inputs|
  {
    if n == 0 then table
    else
      if n > 1 then EarlierStarts(rows, n, |inputs|); BatchFitsPlan(plan, inputs, rows, n - 1);
        RunBatch(plan, Batch(inputs, rows, n - 1), AfterBatches(plan, inputs, rows, n - 1, table))
      else BatchFitsPlan(plan, inputs, rows, 0); RunBatch(plan, Batch(inputs, rows, 0), table)
  }

  lemma {:induction false} RowByRowJoins(plan: UpdatePlan, a: seq<Input>, b: seq<Input>, table: Table)
    requires plan.AllFit(a) && plan.AllFit(b)
    ensures plan.AllFit(a + b)
    ensures RowByRow(plan, a + b, table) == RowByRow(plan, b, RowByRow(plan, a, table))
  {
    hide RunOne;
    if |b| == 0 {
      assert a + b == a;
    } else {
      RowByRowJoins(plan, a, b[..|b| - 1], table);
      assert (a + b)[..|a + b| - 1] == a + b[..|b| - 1];
    }
  }

  /** After any number of statements the table is what single-row updates of the inputs sent so far leave. */
  lemma {:induction false} BatchesAreRowByRow(plan: UpdatePlan, inputs: seq<Input>, rows: nat, n: nat, table: Table)
    requires plan.Valid() && plan.AllFit(inputs) && rows > 0 && DistinctInputs(inputs)
    requires n > 0 ==> Nth(rows, n - 1) < |inputs|
    ensures AfterBatches(plan, inputs, rows, n, table) == RowByRow(plan, inputs[..Least(Nth(rows, n), |inputs|)], table)
  {
    hide Nth, RunBatch, RowByRow;
    NthStep(rows, 0);
    if n == 0 {
      NothingToDo(plan, table);
    } else {
      if n > 1 { EarlierStarts(rows, n, |inputs|); }
      NthStep(rows, n - 1);
      BatchesAreRowByRow(plan, inputs, rows, n - 1, table);
      var done, batch := inputs[..Nth(rows, n - 1)], Batch(inputs, rows, n - 1);
      BatchFitsPlan(plan, inputs, rows, n - 1);
      BatchIsRowByRow(plan, batch, RowByRow(plan, done, table));
      RowByRowJoins(plan, done, batch, table);
      assert done + batch == inputs[..Least(Nth(rows, n), |inputs|)];
      if n == 1 { NothingToDo(plan, table); }
    }
  }

  lemma NothingToDo(plan: UpdatePlan, table: Table)
    ensures RowByRow(plan, [], table) == table
  {
  }

  // ---- the batches are a partition ----

  ghost function Joined(inputs: seq<Input>, rows: nat, n: nat): seq<Input>
    requires n > 0 ==> Nth(rows, n - 1) < |inputs|
  {
    if n == 0 then []
    else if n == 1 then Batch(inputs, rows, 0)
    else EarlierStarts(rows, n, |inputs|); Joined(inputs, rows, n - 1) + Batch(inputs, rows, n - 1)
  }

  /** The batches, one after another, are the inputs in their order. */
  lemma {:induction false} BatchesPartition(inputs: seq<Input>, rows: nat, n: nat)
    requires rows > 0 && (n > 0 ==> Nth(rows, n - 1) < |inputs|)
    ensures Joined(inputs, rows, n) == inputs[..Least(Nth(rows, n), |inputs|)]
  {
    hide Nth;
    NthStep(rows, 0);
    if n > 0 {
      NthStep(rows, n - 1);
      if n > 1 {
        EarlierStarts(rows, n, |inputs|);
        BatchesPartition(inputs, rows, n - 1);
      }
    }
  }

  function StatementCount(rowCount: nat, rows: nat): nat
    requires rowCount > 0 && rows > 0
  {
    (rowCount - 1) / rows + 1
  }

  /** The announced statement count is how many are sent when none fails. */
  lemma CountIsExact(rowCount: nat, rows: nat, n: nat)
    requires rowCount > 0 && rows > 0 && n > 0 && Nth(rows, n - 1) < rowCount <= Nth(rows, n)
    ensures StatementCount(rowCount, rows) == n
  {
    NthStep(rows, n - 1);
    Quotient(rowCount - 1, rows, n - 1);
  }

  lemma Quotient(a: nat, w: nat, q: nat)
    requires w > 0 && q * w <= a < q * w + w
    ensures a / w == q
  {
    assert (a / w) * w <= a < (a / w) * w + w;
    if a / w < q {
      Shrinks(a / w + 1, q, w);
    } else if a / w > q {
      Shrinks(q + 1, a / w, w);
    }
  }
}
