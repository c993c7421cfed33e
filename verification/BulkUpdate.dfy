/** UpdateMany (orm/bulk_update.go, orm/mutation.go): one UPDATE with a CASE per field for many rows, its text,
    its arguments by position, and its meaning against single-row updates by primary key. */
module BulkUpdate {
  import opened SqlValues

  // ---- text with placeholders and with values ----

  /** A piece of a statement as it is appended to the builder; `Bound` stands where a value is meant. */
  datatype Chunk = Text(text: string) | Quoted(name: string) | Mark | Bound(value: Option<Value>)

  function WidthOf(c: Chunk): nat {
    match c
    case Text(text) => |text|
    case Quoted(name) => |name| + 2
    case _ => 1
  }

  function Width(m: seq<Chunk>): nat {
    if |m| == 0 then 0 else Width(m[..|m| - 1]) + WidthOf(m[|m| - 1])
  }

  /** The same text with a placeholder for every value. */
  function Template(m: seq<Chunk>): (t: seq<Chunk>)
    ensures |t| == |m|
  {
    seq(|m|, i requires 0 <= i < |m| => if m[i].Bound? then Mark else m[i])
  }

  /** The values, left to right. */
  function Slots(m: seq<Chunk>): (s: seq<Option<Value>>)
    ensures |s| <= |m|
  {
    if |m| == 0 then []
    else Slots(m[..|m| - 1]) + if m[|m| - 1].Bound? then [m[|m| - 1].value] else []
  }

  /** What the server sees: the next argument in place of each placeholder, left to right. */
  function Bind(t: seq<Chunk>, args: seq<Option<Value>>): seq<Chunk> {
    if |t| == 0 then []
    else if t[0].Mark? && |args| > 0 then [Bound(args[0])] + Bind(t[1..], args[1..])
    else [t[0]] + Bind(t[1..], args)
  }

  lemma {:induction false} SlotsJoin(a: seq<Chunk>, b: seq<Chunk>)
    ensures Slots(a + b) == Slots(a) + Slots(b)
  {
    if |b| == 0 {
      assert a + b == a;
    } else {
      SlotsJoin(a, b[..|b| - 1]);
      assert (a + b)[..|a + b| - 1] == a + b[..|b| - 1];
    }
  }

  lemma {:induction false} WidthJoins(a: seq<Chunk>, b: seq<Chunk>)
    ensures Width(a + b) == Width(a) + Width(b)
  {
    if |b| == 0 {
      assert a + b == a;
    } else {
      WidthJoins(a, b[..|b| - 1]);
      assert (a + b)[..|a + b| - 1] == a + b[..|b| - 1];
    }
  }

  lemma TemplateJoins(a: seq<Chunk>, b: seq<Chunk>)
    ensures Template(a + b) == Template(a) + Template(b)
  {
  }

  lemma {:induction false} WidthOfTemplate(m: seq<Chunk>)
    ensures Width(Template(m)) == Width(m)
  {
    if |m| > 0 {
      WidthOfTemplate(m[..|m| - 1]);
      assert Template(m)[..|m| - 1] == Template(m[..|m| - 1]);
    }
  }

  predicate NoMarks(m: seq<Chunk>) {
    forall c <- m :: c != Mark
  }

  /** Binding the values of a statement to its placeholders gives the statement back. */
  lemma {:induction false} BindsInOrder(m: seq<Chunk>)
    requires NoMarks(m)
    ensures Bind(Template(m), Slots(m)) == m
  {
    if |m| > 0 {
      var rest := m[1..];
      assert m == [m[0]] + rest;
      SlotsJoin([m[0]], rest);
      assert Slots([m[0]]) == if m[0].Bound? then [m[0].value] else [];
      assert Template(m)[1..] == Template(rest);
      forall c <- rest
        ensures c != Mark
      {
        assert c in m;
      }
      BindsInOrder(rest);
      assert m[0] in m;
      BindStep(m[0], Template(rest), Slots(rest));
      assert Template(m) == Template([m[0]]) + Template(rest);
    }
  }

  lemma BindStep(c: Chunk, t: seq<Chunk>, args: seq<Option<Value>>)
    requires c != Mark
    ensures Bind(Template([c]) + t, (if c.Bound? then [c.value] else []) + args) == [c] + Bind(t, args)
  {
    hide Slots;
    assert (Template([c]) + t)[1..] == t;
    if c.Bound? {
      assert ([c.value] + args)[1..] == args;
    } else {
      assert [] + args == args;
    }
  }

  // ---- the plan and its input ----

  /** Column names: the primary key, the fields to write, and the soft-delete scope if it applies. */
  datatype UpdatePlan = UpdatePlan(table: string, keys: seq<string>, fields: seq<string>, softDelete: Option<string>)
  {
    /** The primary key is declared, and only non-key fields are written. */
    predicate Valid() {
      |keys| > 0 && |fields| > 0 && forall f <- fields :: f !in keys
    }

    predicate Fits(input: Input) {
      |input.keys| == |keys| && |input.values| == |fields|
    }

    predicate AllFit(inputs: seq<Input>) {
      forall i | 0 <= i < |inputs| :: Fits(inputs[i])
    }

    function PerRow(): nat {
      (|keys| + 1) * |fields| + |keys|
    }
  }

  /** The primary key of one input row, never NULL, and the new values. */
  datatype Input = Input(keys: seq<Value>, values: seq<Option<Value>>)

  // ---- the statement for several rows, with values in place ----

  function Comma(n: nat): seq<Chunk> {
    if n > 0 then [Text(", ")] else []
  }

  function KeyTests(keys: seq<string>, values: seq<Value>): seq<Chunk>
    requires |keys| == |values|
  {
    if |keys| == 0 then []
    else
      var n := |keys| - 1;
      KeyTests(keys[..n], values[..n]) + (if n > 0 then [Text(" AND ")] else [])
      + [Quoted(keys[n]), Text(" = "), Bound(Some(values[n]))]
  }

  function When(keys: seq<string>, values: seq<Value>): seq<Chunk>
    requires |keys| == |values| > 0
  {
    if |keys| == 1 then [Bound(Some(values[0]))] else KeyTests(keys, values)
  }

  function Arm(plan: UpdatePlan, input: Input, f: nat): seq<Chunk>
    requires plan.Valid() && plan.Fits(input) && f < |plan.fields|
  {
    [Text("WHEN ")] + When(plan.keys, input.keys) + [Text(" THEN "), Bound(input.values[f]), Text(" ")]
  }

  function Arms(plan: UpdatePlan, inputs: seq<Input>, f: nat): seq<Chunk>
    requires plan.Valid() && plan.AllFit(inputs) && f < |plan.fields|
  {
    if |inputs| == 0 then [] else Arms(plan, inputs[..|inputs| - 1], f) + Arm(plan, inputs[|inputs| - 1], f)
  }

  function CaseHead(plan: UpdatePlan, f: nat): seq<Chunk>
    requires plan.Valid() && f < |plan.fields|
  {
    [Quoted(plan.fields[f]), Text(" = CASE ")] + if |plan.keys| == 1 then [Quoted(plan.keys[0]), Text(" ")] else []
  }

  function Assignment(plan: UpdatePlan, inputs: seq<Input>, f: nat): seq<Chunk>
    requires plan.Valid() && plan.AllFit(inputs) && f < |plan.fields|
  {
    CaseHead(plan, f) + Arms(plan, inputs, f) + [Text("ELSE "), Quoted(plan.fields[f]), Text(" END")]
  }

  function Assignments(plan: UpdatePlan, inputs: seq<Input>, n: nat): seq<Chunk>
    requires plan.Valid() && plan.AllFit(inputs) && n <= |plan.fields|
  {
    if n == 0 then [] else Assignments(plan, inputs, n - 1) + Comma(n - 1) + Assignment(plan, inputs, n - 1)
  }

  function Names(columns: seq<string>): seq<Chunk> {
    if |columns| == 0 then []
    else Names(columns[..|columns| - 1]) + Comma(|columns| - 1) + [Quoted(columns[|columns| - 1])]
  }

  function ValueList(values: seq<Value>): seq<Chunk> {
    if |values| == 0 then []
    else ValueList(values[..|values| - 1]) + Comma(|values| - 1) + [Bound(Some(values[|values| - 1]))]
  }

  function Tuple(n: nat, list: seq<Chunk>): seq<Chunk> {
    if n > 1 then [Text("(")] + list + [Text(")")] else list
  }

  function KeyRows(inputs: seq<Input>): seq<Chunk> {
    if |inputs| == 0 then []
    else
      var n := |inputs| - 1;
      KeyRows(inputs[..n]) + Comma(n) + Tuple(|inputs[n].keys|, ValueList(inputs[n].keys))
  }

  function Scope(plan: UpdatePlan): seq<Chunk> {
    if plan.softDelete.None? then [] else [Text(" AND "), Quoted(plan.softDelete.value), Text(" IS NULL")]
  }

  function Many(plan: UpdatePlan, inputs: seq<Input>): seq<Chunk>
    requires plan.Valid() && plan.AllFit(inputs)
  {
    [Text("UPDATE "), Quoted(plan.table), Text(" SET ")] + Assignments(plan, inputs, |plan.fields|)
    + ([Text(" WHERE ")] + Tuple(|plan.keys|, Names(plan.keys)) + [Text(" IN (")])
    + KeyRows(inputs) + ([Text(")")] + Scope(plan))
  }

  // ---- the statement for one row ----

  function Sets(fields: seq<string>, values: seq<Option<Value>>): seq<Chunk>
    requires |fields| == |values|
  {
    if |fields| == 0 then []
    else
      var n := |fields| - 1;
      Sets(fields[..n], values[..n]) + Comma(n) + [Quoted(fields[n]), Text(" = "), Bound(values[n])]
  }

  function One(plan: UpdatePlan, input: Input): seq<Chunk>
    requires plan.Valid() && plan.Fits(input)
  {
    [Text("UPDATE "), Quoted(plan.table), Text(" SET ")] + Sets(plan.fields, input.values)
    + [Text(" WHERE ")] + KeyTests(plan.keys, input.keys) + Scope(plan)
  }

  /** The statement of a batch: a plain update for one row, a CASE update for more. */
  function Meant(plan: UpdatePlan, inputs: seq<Input>): seq<Chunk>
    requires plan.Valid() && plan.AllFit(inputs) && |inputs| > 0
  {
    if |inputs| == 1 then One(plan, inputs[0]) else Many(plan, inputs)
  }

  // ---- what the statements do to a table ----

  function Store(row: Row, column: string, value: Option<Value>): Row {
    if value.None? then row - {column} else row[column := value.value]
  }

  predicate HasKey(plan: UpdatePlan, row: Row, keys: seq<Value>)
    requires |keys| == |plan.keys|
  {
    forall i | 0 <= i < |keys| :: Column(row, plan.keys[i]) == Some(keys[i])
  }

  predicate InScope(plan: UpdatePlan, row: Row) {
    plan.softDelete.Some? ==> plan.softDelete.value !in row
  }

  /** CASE key WHEN ... THEN ... ELSE column END on the row as it is then: the first arm that matches. */
  function CaseValue(plan: UpdatePlan, inputs: seq<Input>, f: nat, row: Row): Option<Value>
    requires plan.Valid() && plan.AllFit(inputs) && f < |plan.fields|
  {
    if |inputs| == 0 then Column(row, plan.fields[f])
    else if HasKey(plan, row, inputs[0].keys) then inputs[0].values[f]
    else CaseValue(plan, inputs[1..], f, row)
  }

  /** The SET list, evaluated left to right: an assignment sees the fields assigned before it. */
  function SetCases(plan: UpdatePlan, inputs: seq<Input>, row: Row, n: nat): Row
    requires plan.Valid() && plan.AllFit(inputs) && n <= |plan.fields|
  {
    if n == 0 then row
    else
      var before := SetCases(plan, inputs, row, n - 1);
      Store(before, plan.fields[n - 1], CaseValue(plan, inputs, n - 1, before))
  }

  function SetValues(plan: UpdatePlan, input: Input, row: Row, n: nat): Row
    requires plan.Fits(input) && n <= |plan.fields|
  {
    if n == 0 then row else Store(SetValues(plan, input, row, n - 1), plan.fields[n - 1], input.values[n - 1])
  }

  function ManyOnRow(plan: UpdatePlan, inputs: seq<Input>, row: Row): Row
    requires plan.Valid() && plan.AllFit(inputs)
  {
    if (exists input <- inputs :: HasKey(plan, row, input.keys)) && InScope(plan, row)
    then SetCases(plan, inputs, row, |plan.fields|) else row
  }

  function OneOnRow(plan: UpdatePlan, input: Input, row: Row): Row
    requires plan.Fits(input)
  {
    if HasKey(plan, row, input.keys) && InScope(plan, row) then SetValues(plan, input, row, |plan.fields|) else row
  }

  function RunMany(plan: UpdatePlan, inputs: seq<Input>, table: Table): (t: Table)
    requires plan.Valid() && plan.AllFit(inputs)
    ensures |t| == |table|
  {
    seq(|table|, i requires 0 <= i < |table| => ManyOnRow(plan, inputs, table[i]))
  }

  function RunOne(plan: UpdatePlan, input: Input, table: Table): (t: Table)
    requires plan.Fits(input)
    ensures |t| == |table|
  {
    seq(|table|, i requires 0 <= i < |table| => OneOnRow(plan, input, table[i]))
  }

  function RunBatch(plan: UpdatePlan, inputs: seq<Input>, table: Table): (t: Table)
    requires plan.Valid() && plan.AllFit(inputs) && |inputs| > 0
  {
    if |inputs| == 1 then RunOne(plan, inputs[0], table) else RunMany(plan, inputs, table)
  }

  /** Single-row updates by primary key, one input after another. */
  function RowByRow(plan: UpdatePlan, inputs: seq<Input>, table: Table): (t: Table)
    requires plan.AllFit(inputs)
    ensures |t| == |table|
  {
    if |inputs| == 0 then table
    else RunOne(plan, inputs[|inputs| - 1], RowByRow(plan, inputs[..|inputs| - 1], table))
  }

  predicate DistinctInputs(inputs: seq<Input>) {
    forall i, j | 0 <= i < j < |inputs| :: inputs[i].keys != inputs[j].keys
  }

  // ---- one CASE update is row-by-row updates ----

  lemma {:induction false} ValuesKeepKey(plan: UpdatePlan, input: Input, row: Row, n: nat, keys: seq<Value>)
    requires plan.Valid() && plan.Fits(input) && n <= |plan.fields| && |keys| == |plan.keys|
    ensures HasKey(plan, SetValues(plan, input, row, n), keys) <==> HasKey(plan, row, keys)
  {
    if n > 0 {
      ValuesKeepKey(plan, input, row, n - 1, keys);
      StoreKeepsKey(plan, SetValues(plan, input, row, n - 1), n - 1, input.values[n - 1], keys);
    }
  }

  lemma StoreKeepsKey(plan: UpdatePlan, row: Row, f: nat, value: Option<Value>, keys: seq<Value>)
    requires plan.Valid() && f < |plan.fields| && |keys| == |plan.keys|
    ensures HasKey(plan, Store(row, plan.fields[f], value), keys) <==> HasKey(plan, row, keys)
  {
    assert plan.fields[f] in plan.fields;
    forall i | 0 <= i < |keys|
      ensures Column(Store(row, plan.fields[f], value), plan.keys[i]) == Column(row, plan.keys[i])
    {
      assert plan.keys[i] in plan.keys;
    }
  }

  lemma OneKey(plan: UpdatePlan, row: Row, a: seq<Value>, b: seq<Value>)
    requires |a| == |b| == |plan.keys| && HasKey(plan, row, a) && HasKey(plan, row, b)
    ensures a == b
  {
  }

  /** When the row has the key of input `j`, every CASE takes its value. */
  lemma {:induction false} CaseTakes(plan: UpdatePlan, inputs: seq<Input>, f: nat, row: Row, j: nat)
    requires plan.Valid() && plan.AllFit(inputs) && f < |plan.fields| && DistinctInputs(inputs)
    requires j < |inputs| && HasKey(plan, row, inputs[j].keys)
    ensures CaseValue(plan, inputs, f, row) == inputs[j].values[f]
  {
    hide HasKey;
    if j > 0 {
      if HasKey(plan, row, inputs[0].keys) {
        OneKey(plan, row, inputs[0].keys, inputs[j].keys);
      }
      CaseTakes(plan, inputs[1..], f, row, j - 1);
    }
  }

  lemma {:induction false} CasesAreValues(plan: UpdatePlan, inputs: seq<Input>, row: Row, j: nat, n: nat)
    requires plan.Valid() && plan.AllFit(inputs) && DistinctInputs(inputs) && n <= |plan.fields|
    requires j < |inputs| && HasKey(plan, row, inputs[j].keys)
    ensures SetCases(plan, inputs, row, n) == SetValues(plan, inputs[j], row, n)
  {
    hide HasKey, CaseValue;
    if n > 0 {
      CasesAreValues(plan, inputs, row, j, n - 1);
      ValuesKeepKey(plan, inputs[j], row, n - 1, inputs[j].keys);
      CaseTakes(plan, inputs, n - 1, SetCases(plan, inputs, row, n - 1), j);
    }
  }

  /** Row-by-row updates, seen from one row. */
  function RowByRowOn(plan: UpdatePlan, inputs: seq<Input>, row: Row): Row
    requires plan.AllFit(inputs)
  {
    if |inputs| == 0 then row
    else OneOnRow(plan, inputs[|inputs| - 1], RowByRowOn(plan, inputs[..|inputs| - 1], row))
  }

  lemma {:induction false} RowByRowAt(plan: UpdatePlan, inputs: seq<Input>, table: Table, i: nat)
    requires plan.AllFit(inputs) && i < |table|
    ensures RowByRow(plan, inputs, table)[i] == RowByRowOn(plan, inputs, table[i])
  {
    hide OneOnRow;
    if |inputs| > 0 {
      RowByRowAt(plan, inputs[..|inputs| - 1], table, i);
    }
  }

  /** With distinct keys at most one input changes a row. */
  lemma {:induction false} OnlyItsInput(plan: UpdatePlan, inputs: seq<Input>, row: Row)
    requires plan.Valid() && plan.AllFit(inputs) && DistinctInputs(inputs)
    ensures RowByRowOn(plan, inputs, row) == ManyOnRow(plan, inputs, row)
    ensures (forall keys: seq<Value> | |keys| == |plan.keys| ::
               HasKey(plan, RowByRowOn(plan, inputs, row), keys) <==> HasKey(plan, row, keys))
  {
    hide HasKey, SetValues, SetCases;
    if |inputs| > 0 {
      var n := |inputs| - 1;
      var front, last := inputs[..n], inputs[n];
      OnlyItsInput(plan, front, row);
      assert inputs == front + [last];
      var before := RowByRowOn(plan, front, row);
      forall keys: seq<Value> | |keys| == |plan.keys|
        ensures HasKey(plan, OneOnRow(plan, last, before), keys) <==> HasKey(plan, before, keys)
      {
        ValuesKeepKey(plan, last, before, |plan.fields|, keys);
      }
      LastInput(plan, inputs, row);
    }
  }

  lemma LastInput(plan: UpdatePlan, inputs: seq<Input>, row: Row)
    requires plan.Valid() && plan.AllFit(inputs) && DistinctInputs(inputs) && |inputs| > 0
    ensures OneOnRow(plan, inputs[|inputs| - 1], ManyOnRow(plan, inputs[..|inputs| - 1], row))
      == ManyOnRow(plan, inputs, row)
  {
    hide HasKey, SetValues, SetCases, InScope;
    var n := |inputs| - 1;
    var front, last := inputs[..n], inputs[n];
    if exists input <- front :: HasKey(plan, row, input.keys) {
      var j :| 0 <= j < n && HasKey(plan, row, inputs[j].keys);
      assert front[j] == inputs[j] && inputs[j] in inputs;
      CasesAreValues(plan, front, row, j, |plan.fields|);
      CasesAreValues(plan, inputs, row, j, |plan.fields|);
      NotTheLast(plan, inputs, row, j);
    } else {
      assert forall input <- inputs :: input in front || input == last;
      assert last in inputs;
      if HasKey(plan, row, last.keys) {
        CasesAreValues(plan, inputs, row, n, |plan.fields|);
      }
    }
  }

  lemma NotTheLast(plan: UpdatePlan, inputs: seq<Input>, row: Row, j: nat)
    requires plan.Valid() && plan.AllFit(inputs) && DistinctInputs(inputs) && j < |inputs| - 1
    requires HasKey(plan, row, inputs[j].keys)
    ensures !HasKey(plan, row, inputs[|inputs| - 1].keys)
    ensures !HasKey(plan, SetValues(plan, inputs[j], row, |plan.fields|), inputs[|inputs| - 1].keys)
  {
    hide HasKey;
    var last := inputs[|inputs| - 1];
    ValuesKeepKey(plan, inputs[j], row, |plan.fields|, last.keys);
    if HasKey(plan, row, last.keys) {
      OneKey(plan, row, inputs[j].keys, last.keys);
    }
  }

  /** For inputs with distinct keys, one statement leaves the table that single-row primary-key updates
      leave one after another. */
  lemma BatchIsRowByRow(plan: UpdatePlan, inputs: seq<Input>, table: Table)
    requires plan.Valid() && plan.AllFit(inputs) && DistinctInputs(inputs) && |inputs| > 0
    ensures RunBatch(plan, inputs, table) == RowByRow(plan, inputs, table)
  {
    if |inputs| == 1 {
      assert RowByRow(plan, inputs[..0], table) == table;
    } else {
      forall i | 0 <= i < |table|
        ensures RunMany(plan, inputs, table)[i] == RowByRow(plan, inputs, table)[i]
      {
        RowByRowAt(plan, inputs, table, i);
        OnlyItsInput(plan, inputs, table[i]);
      }
    }
  }

  /** What the updates do to one row: the input with its key, if it is in scope, sets the named fields and
      nothing else; every other row stays as it is. No row appears or disappears. */
  lemma RowAfterwards(plan: UpdatePlan, inputs: seq<Input>, table: Table, i: nat)
    requires plan.Valid() && plan.AllFit(inputs) && DistinctInputs(inputs) && i < |table|
    requires forall a, b | 0 <= a < b < |plan.fields| :: plan.fields[a] != plan.fields[b]
    ensures |RowByRow(plan, inputs, table)| == |table|
    ensures var after := RowByRow(plan, inputs, table)[i];
      && (!InScope(plan, table[i]) || (forall input <- inputs :: !HasKey(plan, table[i], input.keys)) ==>
        after == table[i])
      && (forall j | 0 <= j < |inputs| && HasKey(plan, table[i], inputs[j].keys) && InScope(plan, table[i]) ::
            && (forall f | 0 <= f < |plan.fields| :: Column(after, plan.fields[f]) == inputs[j].values[f])
            && (forall c | c !in plan.fields :: Column(after, c) == Column(table[i], c)))
  {
    hide HasKey, SetCases, SetValues;
    RowByRowAt(plan, inputs, table, i);
    OnlyItsInput(plan, inputs, table[i]);
    forall j | 0 <= j < |inputs| && HasKey(plan, table[i], inputs[j].keys) && InScope(plan, table[i])
      ensures RowByRow(plan, inputs, table)[i] == SetValues(plan, inputs[j], table[i], |plan.fields|)
    {
      assert inputs[j] in inputs;
      CasesAreValues(plan, inputs, table[i], j, |plan.fields|);
    }
    forall j | 0 <= j < |inputs|
      ensures var after := SetValues(plan, inputs[j], table[i], |plan.fields|);
        && (forall f | 0 <= f < |plan.fields| :: Column(after, plan.fields[f]) == inputs[j].values[f])
        && (forall c | c !in plan.fields :: Column(after, c) == Column(table[i], c))
    {
      ValuesStored(plan, inputs[j], table[i], |plan.fields|);
    }
  }

  lemma {:induction false} ValuesStored(plan: UpdatePlan, input: Input, row: Row, n: nat)
    requires plan.Fits(input) && n <= |plan.fields|
    requires forall a, b | 0 <= a < b < |plan.fields| :: plan.fields[a] != plan.fields[b]
    ensures var after := SetValues(plan, input, row, n);
      && (forall f | 0 <= f < n :: Column(after, plan.fields[f]) == input.values[f])
      && (forall c | c !in plan.fields[..n] :: Column(after, c) == Column(row, c))
  {
    if n > 0 {
      ValuesStored(plan, input, row, n - 1);
      assert plan.fields[..n] == plan.fields[..n - 1] + [plan.fields[n - 1]];
    } else {
      assert SetValues(plan, input, row, 0) == row;
    }
    assert plan.fields[..|plan.fields|] == plan.fields;
  }
}
