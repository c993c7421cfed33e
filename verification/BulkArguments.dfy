/** The argument array of a bulk UPDATE: every slot written once, in the order of the placeholders
    (orm/bulk_update.go:207-255). */
module BulkArguments {
  import opened SqlValues
  import opened BulkUpdate

  // ---- the slots of the statement, by position ----

  /** What slot `j` of an arm binds: the key, then the new value. */
  function ArmSlot(plan: UpdatePlan, input: Input, f: nat, j: nat): Option<Value>
    requires plan.Fits(input) && f < |plan.fields| && j <= |plan.keys|
  {
    if j < |plan.keys| then Some(input.keys[j]) else input.values[f]
  }

  /** Where block `n` of blocks of width `w` starts. */
  function Nth(w: nat, n: nat): nat {
    n * w
  }

  lemma NthStep(w: nat, n: nat)
    ensures Nth(w, 0) == 0 && Nth(w, n + 1) == Nth(w, n) + w
  {
  }

  lemma {:induction false} NthBelow(w: nat, r: nat, n: nat)
    requires r < n
    ensures Nth(w, r) + w <= Nth(w, n)
    decreases n
  {
    hide Nth;
    NthStep(w, n - 1);
    if r < n - 1 {
      NthBelow(w, r, n - 1);
    }
  }

  /** Blocks of blocks: block `r` of width `w` in group `f` of `rows` blocks. */
  lemma NthNested(w: nat, rows: nat, f: nat, r: nat)
    ensures Nth(w, Nth(rows, f) + r) == Nth(Nth(w, rows), f) + Nth(w, r)
  {
  }

  /** Where the arm of field `f` and row `r` starts, among `rows` rows. */
  function ArmStart(plan: UpdatePlan, rows: nat, f: nat, r: nat): nat {
    Nth(|plan.keys| + 1, Nth(rows, f) + r)
  }

  /** Where the key of row `r` starts in the IN list. */
  function KeyStart(plan: UpdatePlan, rows: nat, r: nat): nat {
    Nth(|plan.keys| + 1, Nth(rows, |plan.fields|)) + Nth(|plan.keys|, r)
  }

  lemma {:induction false} SlotsOfTests(keys: seq<string>, values: seq<Value>)
    requires |keys| == |values|
    ensures |Slots(KeyTests(keys, values))| == |keys|
    ensures forall j | 0 <= j < |keys| :: Slots(KeyTests(keys, values))[j] == Some(values[j])
  {
    if |keys| > 0 {
      var n := |keys| - 1;
      SlotsOfTests(keys[..n], values[..n]);
      TestSlots(keys, values);
    }
  }

  lemma TestSlots(keys: seq<string>, values: seq<Value>)
    requires |keys| == |values| > 0
    ensures var n := |keys| - 1;
      Slots(KeyTests(keys, values)) == Slots(KeyTests(keys[..n], values[..n])) + [Some(values[n])]
  {
    hide Slots, KeyTests;
    var n := |keys| - 1;
    var front, and := KeyTests(keys[..n], values[..n]), if n > 0 then [Text(" AND ")] else [];
    var last := [Quoted(keys[n]), Text(" = "), Bound(Some(values[n]))];
    KeyTestsUnfold(keys, values);
    SlotsJoin(front + and, last);
    SlotsJoin(front, and);
    NoSlots(n > 0, " AND ");
    SlotsOfTest(keys[n], Some(values[n]));
    NothingBetween(Slots(front), Slots(and), Slots(last));
  }

  lemma NothingBetween(a: seq<Option<Value>>, none: seq<Option<Value>>, b: seq<Option<Value>>)
    requires none == []
    ensures a + none + b == a + b
  {
  }

  lemma KeyTestsUnfold(keys: seq<string>, values: seq<Value>)
    requires |keys| == |values| > 0
    ensures var n := |keys| - 1;
      KeyTests(keys, values) == KeyTests(keys[..n], values[..n]) + (if n > 0 then [Text(" AND ")] else [])
        + [Quoted(keys[n]), Text(" = "), Bound(Some(values[n]))]
  {
  }

  lemma NoSlots(some: bool, text: string)
    ensures Slots(if some then [Text(text)] else []) == []
  {
    NothingBound(if some then [Text(text)] else []);
  }

  lemma SlotsOfTest(name: string, value: Option<Value>)
    ensures Slots([Quoted(name), Text(" = "), Bound(value)]) == [value]
  {
    var front := [Quoted(name), Text(" = ")];
    NothingBound(front);
    assert [Quoted(name), Text(" = "), Bound(value)][..2] == front;
  }

  lemma SlotsOfArm(plan: UpdatePlan, input: Input, f: nat)
    requires plan.Valid() && plan.Fits(input) && f < |plan.fields|
    ensures |Slots(Arm(plan, input, f))| == |plan.keys| + 1
    ensures forall j | 0 <= j <= |plan.keys| :: Slots(Arm(plan, input, f))[j] == ArmSlot(plan, input, f, j)
  {
    hide KeyTests, Slots;
    var when := When(plan.keys, input.keys);
    SlotsJoin([Text("WHEN ")] + when, [Text(" THEN "), Bound(input.values[f]), Text(" ")]);
    SlotsJoin([Text("WHEN ")], when);
    NoSlots(true, "WHEN ");
    SlotsOfThen(input.values[f]);
    SlotsOfTests(plan.keys, input.keys);
    OneSlot(input.keys[0]);
  }

  lemma OneSlot(value: Value)
    ensures Slots([Bound(Some(value))]) == [Some(value)]
  {
  }

  lemma SlotsOfThen(value: Option<Value>)
    ensures Slots([Text(" THEN "), Bound(value), Text(" ")]) == [value]
  {
    NothingBound([Text(" THEN ")]);
    assert [Text(" THEN "), Bound(value), Text(" ")][..2] == [Text(" THEN "), Bound(value)];
    assert [Text(" THEN "), Bound(value)][..1] == [Text(" THEN ")];
  }

  lemma SlotsOfCase(plan: UpdatePlan, f: nat)
    requires plan.Valid() && f < |plan.fields|
    ensures Slots(CaseHead(plan, f)) == []
    ensures Slots([Text("ELSE "), Quoted(plan.fields[f]), Text(" END")]) == []
  {
    NothingBound(CaseHead(plan, f));
    NothingBound([Text("ELSE "), Quoted(plan.fields[f]), Text(" END")]);
  }

  lemma {:induction false} NothingBound(m: seq<Chunk>)
    requires forall c <- m :: !c.Bound?
    ensures Slots(m) == []
  {
    if |m| > 0 {
      NothingBound(m[..|m| - 1]);
    }
  }

  lemma {:induction false} SlotsOfArms(plan: UpdatePlan, inputs: seq<Input>, f: nat)
    requires plan.Valid() && plan.AllFit(inputs) && f < |plan.fields|
    ensures |Slots(Arms(plan, inputs, f))| == Nth(|plan.keys| + 1, |inputs|)
    ensures forall r, j | 0 <= r < |inputs| && 0 <= j <= |plan.keys| ::
      Nth(|plan.keys| + 1, r) + j < |Slots(Arms(plan, inputs, f))| &&
      Slots(Arms(plan, inputs, f))[Nth(|plan.keys| + 1, r) + j] == ArmSlot(plan, inputs[r], f, j)
  {
    hide Arm, Slots, ArmSlot, Nth;
    var w := |plan.keys| + 1;
    if |inputs| == 0 {
      NothingBound([]);
      NthStep(w, 0);
    } else {
      var n := |inputs| - 1;
      NthStep(w, n);
      SlotsOfArms(plan, inputs[..n], f);
      SlotsJoin(Arms(plan, inputs[..n], f), Arm(plan, inputs[n], f));
      SlotsOfArm(plan, inputs[n], f);
      forall r, j | 0 <= r < |inputs| && 0 <= j < w
        ensures Nth(w, r) + j < |Slots(Arms(plan, inputs, f))| &&
          Slots(Arms(plan, inputs, f))[Nth(w, r) + j] == ArmSlot(plan, inputs[r], f, j)
      {
        if r < n {
          NthBelow(w, r, n);
          assert inputs[..n][r] == inputs[r];
        }
      }
    }
  }

  lemma {:induction false} SlotsOfAssignments(plan: UpdatePlan, inputs: seq<Input>, n: nat)
    requires plan.Valid() && plan.AllFit(inputs) && n <= |plan.fields|
    ensures |Slots(Assignments(plan, inputs, n))| == Nth(Nth(|plan.keys| + 1, |inputs|), n)
    ensures forall f, q | 0 <= f < n && 0 <= q < |Slots(Arms(plan, inputs, f))| ::
      Nth(Nth(|plan.keys| + 1, |inputs|), f) + q < |Slots(Assignments(plan, inputs, n))| &&
      Slots(Assignments(plan, inputs, n))[Nth(Nth(|plan.keys| + 1, |inputs|), f) + q] == Slots(Arms(plan, inputs, f))[q]
  {
    hide Assignment, Slots, Arms, Nth;
    var block := Nth(|plan.keys| + 1, |inputs|);
    if n == 0 {
      NothingBound([]);
      NthStep(block, 0);
    } else {
      NthStep(block, n - 1);
      SlotsOfAssignments(plan, inputs, n - 1);
      AssignmentSlots(plan, inputs, n - 1);
      SlotsJoin(Assignments(plan, inputs, n - 1) + Comma(n - 1), Assignment(plan, inputs, n - 1));
      SlotsJoin(Assignments(plan, inputs, n - 1), Comma(n - 1));
      NothingBound(Comma(n - 1));
      SlotsOfArms(plan, inputs, n - 1);
      forall f, q | 0 <= f < n && 0 <= q < |Slots(Arms(plan, inputs, f))|
        ensures Nth(Nth(|plan.keys| + 1, |inputs|), f) + q < |Slots(Assignments(plan, inputs, n))| &&
          Slots(Assignments(plan, inputs, n))[Nth(Nth(|plan.keys| + 1, |inputs|), f) + q]
          == Slots(Arms(plan, inputs, f))[q]
      {
        if f < n - 1 {
          SlotsOfArms(plan, inputs, f);
          NthBelow(block, f, n - 1);
        }
      }
    }
  }

  lemma AssignmentSlots(plan: UpdatePlan, inputs: seq<Input>, f: nat)
    requires plan.Valid() && plan.AllFit(inputs) && f < |plan.fields|
    ensures Slots(Assignment(plan, inputs, f)) == Slots(Arms(plan, inputs, f))
  {
    hide Arms, Slots;
    SlotsJoin(CaseHead(plan, f) + Arms(plan, inputs, f), [Text("ELSE "), Quoted(plan.fields[f]), Text(" END")]);
    SlotsJoin(CaseHead(plan, f), Arms(plan, inputs, f));
    SlotsOfCase(plan, f);
  }

  lemma {:induction false} SlotsOfList(values: seq<Value>)
    ensures |Slots(ValueList(values))| == |values|
    ensures forall j | 0 <= j < |values| :: Slots(ValueList(values))[j] == Some(values[j])
  {
    hide Slots;
    if |values| == 0 {
      NothingBound([]);
    } else {
      var n := |values| - 1;
      SlotsOfList(values[..n]);
      SlotsJoin(ValueList(values[..n]) + Comma(n), [Bound(Some(values[n]))]);
      SlotsJoin(ValueList(values[..n]), Comma(n));
      NothingBound(Comma(n));
      OneSlot(values[n]);
    }
  }

  lemma SlotsOfTuple(n: nat, list: seq<Chunk>)
    ensures Slots(Tuple(n, list)) == Slots(list)
  {
    hide Slots;
    SlotsJoin([Text("(")] + list, [Text(")")]);
    SlotsJoin([Text("(")], list);
    NoSlots(true, "(");
    NoSlots(true, ")");
  }

  lemma {:induction false} SlotsOfKeyRows(plan: UpdatePlan, inputs: seq<Input>)
    requires plan.Valid() && plan.AllFit(inputs)
    ensures |Slots(KeyRows(inputs))| == Nth(|plan.keys|, |inputs|)
    ensures forall r, j | 0 <= r < |inputs| && 0 <= j < |plan.keys| ::
      Nth(|plan.keys|, r) + j < |Slots(KeyRows(inputs))| &&
      Slots(KeyRows(inputs))[Nth(|plan.keys|, r) + j] == Some(inputs[r].keys[j])
  {
    hide Slots, Tuple, ValueList, Nth;
    var w := |plan.keys|;
    if |inputs| == 0 {
      NothingBound([]);
      NthStep(w, 0);
    } else {
      var n := |inputs| - 1;
      var last := Tuple(|inputs[n].keys|, ValueList(inputs[n].keys));
      NthStep(w, n);
      SlotsOfKeyRows(plan, inputs[..n]);
      SlotsJoin(KeyRows(inputs[..n]) + Comma(n), last);
      SlotsJoin(KeyRows(inputs[..n]), Comma(n));
      NothingBound(Comma(n));
      SlotsOfTuple(|inputs[n].keys|, ValueList(inputs[n].keys));
      SlotsOfList(inputs[n].keys);
      forall r, j | 0 <= r < |inputs| && 0 <= j < |plan.keys|
        ensures Nth(|plan.keys|, r) + j < |Slots(KeyRows(inputs))| &&
          Slots(KeyRows(inputs))[Nth(|plan.keys|, r) + j] == Some(inputs[r].keys[j])
      {
        if r < n {
          NthBelow(w, r, n);
          assert inputs[..n][r] == inputs[r];
        }
      }
    }
  }

  /** The statement of several rows has the arms' slots, field by field, then the keys. */
  lemma SlotsOfMany(plan: UpdatePlan, inputs: seq<Input>)
    requires plan.Valid() && plan.AllFit(inputs)
    ensures Slots(Many(plan, inputs)) == Slots(Assignments(plan, inputs, |plan.fields|)) + Slots(KeyRows(inputs))
  {
    hide Assignments, KeyRows, Names, Slots;
    var head, sets := [Text("UPDATE "), Quoted(plan.table), Text(" SET ")], Assignments(plan, inputs, |plan.fields|);
    var condition, rows := [Text(" WHERE ")] + Tuple(|plan.keys|, Names(plan.keys)) + [Text(" IN (")], KeyRows(inputs);
    var end := [Text(")")] + Scope(plan);
    SlotsJoin(head + sets + condition + rows, end);
    SlotsJoin(head + sets + condition, rows);
    SlotsJoin(head + sets, condition);
    SlotsJoin(head, sets);
    NothingBound(head);
    NamesBindNothing(plan.keys);
    NothingBound(condition);
    NothingBound(end);
  }

  lemma {:induction false} NamesBindNothing(columns: seq<string>)
    ensures forall c <- Names(columns) :: !c.Bound?
  {
    if |columns| > 0 {
      NamesBindNothing(columns[..|columns| - 1]);
    }
  }

  lemma ArmAt(plan: UpdatePlan, inputs: seq<Input>, f: nat, r: nat, j: nat)
    requires plan.Valid() && plan.AllFit(inputs) && f < |plan.fields| && r < |inputs| && j <= |plan.keys|
    ensures ArmStart(plan, |inputs|, f, r) + j < KeyStart(plan, |inputs|, 0) <= |Slots(Many(plan, inputs))|
    ensures Slots(Many(plan, inputs))[ArmStart(plan, |inputs|, f, r) + j] == ArmSlot(plan, inputs[r], f, j)
  {
    hide Slots, Many, Assignments, Arms, KeyRows, ArmSlot, Nth;
    var w, rows := |plan.keys| + 1, |inputs|;
    SlotsOfMany(plan, inputs);
    SlotsOfAssignments(plan, inputs, |plan.fields|);
    SlotsOfArms(plan, inputs, f);
    NthNested(w, rows, f, r);
    NthNested(w, rows, |plan.fields|, 0);
    NthStep(w, 0);
    NthStep(|plan.keys|, 0);
    var q := Nth(w, r) + j;
    var slot := ArmSlot(plan, inputs[r], f, j);
    assert Slots(Arms(plan, inputs, f))[q] == slot;
  }

  lemma KeyAt(plan: UpdatePlan, inputs: seq<Input>, r: nat, j: nat)
    requires plan.Valid() && plan.AllFit(inputs) && r < |inputs| && j < |plan.keys|
    ensures KeyStart(plan, |inputs|, r) + j < |Slots(Many(plan, inputs))|
    ensures Slots(Many(plan, inputs))[KeyStart(plan, |inputs|, r) + j] == Some(inputs[r].keys[j])
  {
    hide Slots, Many, Assignments, KeyRows, Nth;
    SlotsOfMany(plan, inputs);
    SlotsOfAssignments(plan, inputs, |plan.fields|);
    SlotsOfKeyRows(plan, inputs);
    NthNested(|plan.keys| + 1, |inputs|, |plan.fields|, 0);
    NthStep(|plan.keys| + 1, 0);
    var key := inputs[r].keys[j];
    assert Slots(KeyRows(inputs))[Nth(|plan.keys|, r) + j] == Some(key);
  }

  /** A statement of several rows takes this many arguments. */
  lemma SlotCount(plan: UpdatePlan, inputs: seq<Input>)
    requires plan.Valid() && plan.AllFit(inputs)
    ensures |Slots(Many(plan, inputs))| == |inputs| * plan.PerRow() == KeyStart(plan, |inputs|, |inputs|)
  {
    hide Slots, Many, Assignments, KeyRows, Nth;
    SlotsOfMany(plan, inputs);
    SlotsOfAssignments(plan, inputs, |plan.fields|);
    SlotsOfKeyRows(plan, inputs);
    CountIndex(|plan.fields|, |inputs|, |plan.keys|);
  }

  lemma CountIndex(fields: nat, rows: nat, keys: nat)
    ensures Nth(keys + 1, Nth(rows, fields)) + Nth(keys, rows) == rows * ((keys + 1) * fields + keys)
    ensures Nth(Nth(keys + 1, rows), fields) == Nth(keys + 1, Nth(rows, fields))
  {
  }

  lemma SlotsOfOne(plan: UpdatePlan, input: Input)
    requires plan.Valid() && plan.Fits(input)
    ensures |Slots(One(plan, input))| == |plan.fields| + |plan.keys|
    ensures forall f | 0 <= f < |plan.fields| :: Slots(One(plan, input))[f] == input.values[f]
    ensures forall j | 0 <= j < |plan.keys| :: Slots(One(plan, input))[|plan.fields| + j] == Some(input.keys[j])
  {
    hide Slots, Sets, KeyTests;
    var head, sets, tests := [Text("UPDATE "), Quoted(plan.table), Text(" SET ")], Sets(plan.fields, input.values),
      KeyTests(plan.keys, input.keys);
    SlotsJoin(head + sets + [Text(" WHERE ")] + tests, Scope(plan));
    SlotsJoin(head + sets + [Text(" WHERE ")], tests);
    SlotsJoin(head + sets, [Text(" WHERE ")]);
    SlotsJoin(head, sets);
    NothingBound(head);
    NothingBound([Text(" WHERE ")]);
    NothingBound(Scope(plan));
    SlotsOfTests(plan.keys, input.keys);
    SlotsOfSets(plan.fields, input.values);
  }

  lemma {:induction false} SlotsOfSets(fields: seq<string>, values: seq<Option<Value>>)
    requires |fields| == |values|
    ensures Slots(Sets(fields, values)) == values
  {
    hide Slots;
    if |fields| == 0 {
      NothingBound([]);
    } else {
      var n := |fields| - 1;
      var last := [Quoted(fields[n]), Text(" = "), Bound(values[n])];
      SlotsOfSets(fields[..n], values[..n]);
      SlotsJoin(Sets(fields[..n], values[..n]) + Comma(n), last);
      SlotsJoin(Sets(fields[..n], values[..n]), Comma(n));
      NothingBound(Comma(n));
      SlotsOfTest(fields[n], values[n]);
      assert values == values[..n] + [values[n]];
    }
  }

  // ---- different slots are different places ----

  /** The ranges of two arms do not overlap, and all arms end before the keys. */
  lemma ArmsApart(plan: UpdatePlan, rows: nat, f: nat, r: nat)
    requires f < |plan.fields| && r < rows
    ensures ArmStart(plan, rows, f, r) + |plan.keys| < KeyStart(plan, rows, 0)
    ensures forall g: nat, s: nat | s < rows && (g != f || s != r) ::
      ArmStart(plan, rows, g, s) + |plan.keys| < ArmStart(plan, rows, f, r) ||
      ArmStart(plan, rows, f, r) + |plan.keys| < ArmStart(plan, rows, g, s)
  {
    hide Nth;
    forall g: nat, s: nat | s < rows && (g != f || s != r)
      ensures ArmStart(plan, rows, g, s) + |plan.keys| < ArmStart(plan, rows, f, r) ||
        ArmStart(plan, rows, f, r) + |plan.keys| < ArmStart(plan, rows, g, s)
    {
      TwoArmsApart(plan, rows, f, r, g, s);
    }
    NthBelow(rows, f, |plan.fields|);
    NthBelow(|plan.keys| + 1, Nth(rows, f) + r, Nth(rows, |plan.fields|));
  }

  lemma TwoArmsApart(plan: UpdatePlan, rows: nat, f: nat, r: nat, g: nat, s: nat)
    requires r < rows && s < rows && (g != f || s != r)
    ensures ArmStart(plan, rows, g, s) + |plan.keys| < ArmStart(plan, rows, f, r) ||
      ArmStart(plan, rows, f, r) + |plan.keys| < ArmStart(plan, rows, g, s)
  {
    hide Nth;
    var a, b := Nth(rows, f) + r, Nth(rows, g) + s;
    if f < g {
      NthBelow(rows, f, g);
    } else if g < f {
      NthBelow(rows, g, f);
    }
    if a < b {
      NthBelow(|plan.keys| + 1, a, b);
    } else {
      NthBelow(|plan.keys| + 1, b, a);
    }
  }

  /** Every place before the end belongs to an arm or a key. */
  lemma PlaceOf(plan: UpdatePlan, rows: nat, p: nat) returns (arm: bool, f: nat, r: nat, j: nat)
    requires plan.Valid() && p < KeyStart(plan, rows, rows)
    ensures r < rows
    ensures arm ==> f < |plan.fields| && j <= |plan.keys| && p == ArmStart(plan, rows, f, r) + j
    ensures !arm ==> j < |plan.keys| && p == KeyStart(plan, rows, r) + j
  {
    hide Nth;
    var w := |plan.keys| + 1;
    var arms := Nth(w, Nth(rows, |plan.fields|));
    arm := p < arms;
    if arm {
      var block;
      block, j := Divide(w, Nth(rows, |plan.fields|), p);
      f, r := Divide(rows, |plan.fields|, block);
    } else {
      f := 0;
      r, j := Divide(|plan.keys|, rows, p - arms);
    }
  }

  lemma {:induction false} Divide(w: nat, n: nat, p: nat) returns (q: nat, rest: nat)
    requires p < Nth(w, n)
    ensures q < n && rest < w && p == Nth(w, q) + rest
    decreases n
  {
    hide Nth;
    NthStep(w, 0);
    NthStep(w, n - 1);
    if p >= Nth(w, n - 1) {
      q, rest := n - 1, p - Nth(w, n - 1);
    } else {
      q, rest := Divide(w, n - 1, p);
    }
  }

  // ---- filling the array ----

  datatype Slot = Empty | Given(value: Option<Value>)

  function AllGiven(values: seq<Option<Value>>): (s: seq<Slot>)
    ensures |s| == |values|
  {
    seq(|values|, i requires 0 <= i < |values| => Given(values[i]))
  }

  function KeySlots(keys: seq<Value>): (s: seq<Option<Value>>)
    ensures |s| == |keys|
  {
    seq(|keys|, i requires 0 <= i < |keys| => Some(keys[i]))
  }

  predicate Blank(a: seq<Slot>, start: nat, end: nat)
    requires end <= |a|
  {
    forall i | start <= i < end :: a[i] == Empty
  }

  ghost predicate ArmIs(a: seq<Slot>, plan: UpdatePlan, input: Input, f: nat, start: nat, filled: bool)
    requires plan.Fits(input) && f < |plan.fields|
  {
    var end := start + |plan.keys| + 1;
    end <= |a| &&
    if filled then a[start..end] == AllGiven(KeySlots(input.keys) + [input.values[f]]) else Blank(a, start, end)
  }

  ghost predicate KeyIs(a: seq<Slot>, plan: UpdatePlan, input: Input, start: nat, filled: bool)
    requires plan.Fits(input)
  {
    var end := start + |plan.keys|;
    end <= |a| && if filled then a[start..end] == AllGiven(KeySlots(input.keys)) else Blank(a, start, end)
  }

  /** The arms of the first `done` rows, and of the row after them the first `fields`, are filled and no other. */
  ghost predicate ArmsAre(a: seq<Slot>, plan: UpdatePlan, inputs: seq<Input>, done: nat, fields: nat)
    requires plan.AllFit(inputs)
  {
    forall f: nat, r: nat | f < |plan.fields| && r < |inputs| ::
      ArmIs(a, plan, inputs[r], f, ArmStart(plan, |inputs|, f, r), r < done || (r == done && f < fields))
  }

  ghost predicate KeysAre(a: seq<Slot>, plan: UpdatePlan, inputs: seq<Input>, done: nat)
    requires plan.AllFit(inputs)
  {
    forall r: nat | r < |inputs| :: KeyIs(a, plan, inputs[r], KeyStart(plan, |inputs|, r), r < done)
  }

  /** Only places of one range differ. */
  ghost predicate SameOutside(a: seq<Slot>, b: seq<Slot>, start: nat, end: nat) {
    |a| == |b| && forall i | 0 <= i < |a| && !(start <= i < end) :: a[i] == b[i]
  }

  /** The key of a row goes into the IN list; none of its slots was written before. */
  method FillKey(arguments: array<Slot>, start: nat, keys: seq<Value>)
    requires start + |keys| <= arguments.Length && Blank(arguments[..], start, start + |keys|)
    modifies arguments
    ensures SameOutside(old(arguments[..]), arguments[..], start, start + |keys|)
    ensures arguments[start..start + |keys|] == AllGiven(KeySlots(keys))
  {
    ghost var slots := AllGiven(KeySlots(keys));
    for j := start to start + |keys|
      invariant forall i | 0 <= i < arguments.Length && !(start <= i < j) :: arguments[i] == old(arguments[i])
      invariant forall i | start <= i < j :: arguments[i] == slots[i - start]
    {
      assert arguments[j] == old(arguments[..])[j] == Empty;
      arguments[j] := Given(Some(keys[j - start]));
    }
  }

  /** An arm: the key is copied from the IN list, then the new value follows. */
  method FillArm(arguments: array<Slot>, start: nat, keyStart: nat, width: nat, value: Option<Value>)
    requires start + width < keyStart && keyStart + width <= arguments.Length
    requires Blank(arguments[..], start, start + width + 1)
    modifies arguments
    ensures SameOutside(old(arguments[..]), arguments[..], start, start + width + 1)
    ensures arguments[start..start + width + 1] == old(arguments[keyStart..keyStart + width]) + [Given(value)]
  {
    for j := start to start + width
      invariant forall i | 0 <= i < arguments.Length && !(start <= i < j) :: arguments[i] == old(arguments[i])
      invariant forall i | start <= i < j :: arguments[i] == old(arguments[i - start + keyStart])
    {
      assert arguments[j] == old(arguments[..])[j] == Empty;
      arguments[j] := arguments[j - start + keyStart];
    }
    assert arguments[start + width] == old(arguments[..])[start + width] == Empty;
    arguments[start + width] := Given(value);
  }

  lemma KeptArm(a: seq<Slot>, b: seq<Slot>, start: nat, end: nat, plan: UpdatePlan, input: Input, f: nat,
    place: nat, filled: bool)
    requires plan.Fits(input) && f < |plan.fields| && ArmIs(a, plan, input, f, place, filled)
    requires SameOutside(a, b, start, end) && (place + |plan.keys| < start || end <= place)
    ensures ArmIs(b, plan, input, f, place, filled)
  {
    assert a[place..place + |plan.keys| + 1] == b[place..place + |plan.keys| + 1];
  }

  lemma KeptKey(a: seq<Slot>, b: seq<Slot>, start: nat, end: nat, plan: UpdatePlan, input: Input, place: nat,
    filled: bool)
    requires plan.Fits(input) && KeyIs(a, plan, input, place, filled)
    requires SameOutside(a, b, start, end) && (place + |plan.keys| <= start || end <= place)
    ensures KeyIs(b, plan, input, place, filled)
  {
    assert a[place..place + |plan.keys|] == b[place..place + |plan.keys|];
  }

  /** After the key of row `done` is in place. */
  lemma KeyFilled(a: seq<Slot>, b: seq<Slot>, plan: UpdatePlan, inputs: seq<Input>, done: nat)
    requires plan.Valid() && plan.AllFit(inputs) && done < |inputs|
    requires ArmsAre(a, plan, inputs, done, 0) && KeysAre(a, plan, inputs, done)
    requires var start := KeyStart(plan, |inputs|, done);
      SameOutside(a, b, start, start + |plan.keys|) && KeyIs(b, plan, inputs[done], start, true)
    ensures ArmsAre(b, plan, inputs, done, 0) && KeysAre(b, plan, inputs, done + 1)
  {
    hide ArmIs, KeyIs, Nth, SameOutside;
    var start := KeyStart(plan, |inputs|, done);
    forall f: nat, r: nat | f < |plan.fields| && r < |inputs|
      ensures ArmIs(b, plan, inputs[r], f, ArmStart(plan, |inputs|, f, r), r < done)
    {
      ArmsApart(plan, |inputs|, f, r);
      NthStep(|plan.keys|, 0);
      KeptArm(a, b, start, start + |plan.keys|, plan, inputs[r], f, ArmStart(plan, |inputs|, f, r), r < done);
    }
    forall r: nat | r < |inputs|
      ensures KeyIs(b, plan, inputs[r], KeyStart(plan, |inputs|, r), r < done + 1)
    {
      if r != done {
        if r < done { NthBelow(|plan.keys|, r, done); } else { NthBelow(|plan.keys|, done, r); }
        KeptKey(a, b, start, start + |plan.keys|, plan, inputs[r], KeyStart(plan, |inputs|, r), r < done);
      }
    }
  }

  /** After arm `f` of row `done` is in place. */
  lemma ArmFilled(a: seq<Slot>, b: seq<Slot>, plan: UpdatePlan, inputs: seq<Input>, done: nat, f: nat)
    requires plan.Valid() && plan.AllFit(inputs) && done < |inputs| && f < |plan.fields|
    requires ArmsAre(a, plan, inputs, done, f) && KeysAre(a, plan, inputs, done + 1)
    requires var start := ArmStart(plan, |inputs|, f, done);
      SameOutside(a, b, start, start + |plan.keys| + 1) && ArmIs(b, plan, inputs[done], f, start, true)
    ensures ArmsAre(b, plan, inputs, done, f + 1) && KeysAre(b, plan, inputs, done + 1)
  {
    hide ArmIs, KeyIs, Nth, SameOutside;
    var start := ArmStart(plan, |inputs|, f, done);
    ArmsApart(plan, |inputs|, f, done);
    forall g: nat, r: nat | g < |plan.fields| && r < |inputs|
      ensures ArmIs(b, plan, inputs[r], g, ArmStart(plan, |inputs|, g, r), r < done || (r == done && g < f + 1))
    {
      if g != f || r != done {
        KeptArm(a, b, start, start + |plan.keys| + 1, plan, inputs[r], g, ArmStart(plan, |inputs|, g, r),
          r < done || (r == done && g < f));
      }
    }
    forall r: nat | r < |inputs|
      ensures KeyIs(b, plan, inputs[r], KeyStart(plan, |inputs|, r), r < done + 1)
    {
      NthStep(|plan.keys|, 0);
      KeptKey(a, b, start, start + |plan.keys| + 1, plan, inputs[r], KeyStart(plan, |inputs|, r), r < done + 1);
    }
  }

  /** The arguments of a statement of several rows: slot k is the value of the k-th placeholder. */
  method FillMany(plan: UpdatePlan, inputs: seq<Input>) returns (arguments: array<Slot>)
    requires plan.Valid() && plan.AllFit(inputs)
    ensures fresh(arguments) && arguments[..] == AllGiven(Slots(Many(plan, inputs)))
  {
    hide ArmIs, KeyIs, Nth, Slots, Many, ArmsAre, KeysAre, SameOutside, Blank;
    var rows, keyCount := |inputs|, |plan.keys|;
    var argumentCount := rows * plan.PerRow();
    SlotCount(plan, inputs);
    arguments := new Slot[argumentCount](_ => Empty);
    AllBlank(arguments[..]);
    NothingFilled(arguments[..], plan, inputs);
    for index := 0 to rows
      invariant arguments.Length == argumentCount
      invariant ArmsAre(arguments[..], plan, inputs, index, 0) && KeysAre(arguments[..], plan, inputs, index)
    {
      var keyStart := argumentCount - rows * keyCount + index * keyCount;
      KeyIndex(plan, rows, index);
      ghost var before := arguments[..];
      KeyBlank(before, plan, inputs, index);
      FillKey(arguments, keyStart, inputs[index].keys);
      KeyIsFilled(arguments[..], plan, inputs[index], keyStart);
      KeyFilled(before, arguments[..], plan, inputs, index);
      for fieldIndex := 0 to |plan.fields|
        invariant arguments.Length == argumentCount
        invariant ArmsAre(arguments[..], plan, inputs, index, fieldIndex)
        invariant KeysAre(arguments[..], plan, inputs, index + 1)
      {
        var position := (fieldIndex * rows + index) * (keyCount + 1);
        ArmIndex(plan, rows, fieldIndex, index);
        before := arguments[..];
        ArmBlank(before, plan, inputs, index, fieldIndex);
        FillArm(arguments, position, keyStart, keyCount, inputs[index].values[fieldIndex]);
        ArmIsFilled(before, arguments[..], plan, inputs[index], fieldIndex, position, keyStart);
        ArmFilled(before, arguments[..], plan, inputs, index, fieldIndex);
      }
      NextRow(arguments[..], plan, inputs, index);
    }
    AllFilled(arguments[..], plan, inputs);
  }

  lemma AllBlank(a: seq<Slot>)
    requires forall i | 0 <= i < |a| :: a[i] == Empty
    ensures Blank(a, 0, |a|)
  {
  }

  lemma NothingFilled(a: seq<Slot>, plan: UpdatePlan, inputs: seq<Input>)
    requires plan.Valid() && plan.AllFit(inputs) && |a| == KeyStart(plan, |inputs|, |inputs|)
    requires Blank(a, 0, |a|)
    ensures ArmsAre(a, plan, inputs, 0, 0) && KeysAre(a, plan, inputs, 0)
  {
    hide Nth;
    NthStep(|plan.keys|, 0);
    forall f: nat, r: nat | f < |plan.fields| && r < |inputs|
      ensures ArmIs(a, plan, inputs[r], f, ArmStart(plan, |inputs|, f, r), false)
    {
      ArmsApart(plan, |inputs|, f, r);
    }
    forall r: nat | r < |inputs|
      ensures KeyIs(a, plan, inputs[r], KeyStart(plan, |inputs|, r), false)
    {
      NthBelow(|plan.keys|, r, |inputs|);
    }
  }

  lemma KeyIndex(plan: UpdatePlan, rows: nat, index: nat)
    requires index < rows
    ensures rows * plan.PerRow() - rows * |plan.keys| + index * |plan.keys| == KeyStart(plan, rows, index)
    ensures rows * plan.PerRow() - rows * |plan.keys| >= 0 && index * |plan.keys| >= 0
  {
    CountIndex(|plan.fields|, rows, |plan.keys|);
  }

  lemma ArmIndex(plan: UpdatePlan, rows: nat, f: nat, r: nat)
    ensures (f * rows + r) * (|plan.keys| + 1) == ArmStart(plan, rows, f, r)
  {
  }

  lemma KeyBlank(a: seq<Slot>, plan: UpdatePlan, inputs: seq<Input>, index: nat)
    requires plan.AllFit(inputs) && index < |inputs| && KeysAre(a, plan, inputs, index)
    ensures var start := KeyStart(plan, |inputs|, index);
      start + |plan.keys| <= |a| && Blank(a, start, start + |plan.keys|)
  {
    hide Nth;
    assert KeyIs(a, plan, inputs[index], KeyStart(plan, |inputs|, index), false);
  }

  lemma KeyIsFilled(a: seq<Slot>, plan: UpdatePlan, input: Input, start: nat)
    requires plan.Fits(input) && start + |plan.keys| <= |a|
    requires a[start..start + |plan.keys|] == AllGiven(KeySlots(input.keys))
    ensures KeyIs(a, plan, input, start, true)
  {
  }

  lemma ArmBlank(a: seq<Slot>, plan: UpdatePlan, inputs: seq<Input>, index: nat, f: nat)
    requires plan.Valid() && plan.AllFit(inputs) && index < |inputs| && f < |plan.fields|
    requires ArmsAre(a, plan, inputs, index, f) && KeysAre(a, plan, inputs, index + 1)
    ensures var start, key := ArmStart(plan, |inputs|, f, index), KeyStart(plan, |inputs|, index);
      && start + |plan.keys| < key && key + |plan.keys| <= |a| && Blank(a, start, start + |plan.keys| + 1)
      && a[key..key + |plan.keys|] == AllGiven(KeySlots(inputs[index].keys))
  {
    hide Nth;
    ArmsApart(plan, |inputs|, f, index);
    NthStep(|plan.keys|, 0);
    assert ArmIs(a, plan, inputs[index], f, ArmStart(plan, |inputs|, f, index), false);
    assert KeyIs(a, plan, inputs[index], KeyStart(plan, |inputs|, index), true);
  }

  lemma ArmIsFilled(a: seq<Slot>, b: seq<Slot>, plan: UpdatePlan, input: Input, f: nat, start: nat, key: nat)
    requires plan.Fits(input) && f < |plan.fields| && |a| == |b| && start + |plan.keys| < |b|
      && key + |plan.keys| <= |a|
    requires a[key..key + |plan.keys|] == AllGiven(KeySlots(input.keys))
    requires b[start..start + |plan.keys| + 1] == a[key..key + |plan.keys|] + [Given(input.values[f])]
    ensures ArmIs(b, plan, input, f, start, true)
  {
    assert AllGiven(KeySlots(input.keys) + [input.values[f]])
      == AllGiven(KeySlots(input.keys)) + [Given(input.values[f])];
  }

  lemma NextRow(a: seq<Slot>, plan: UpdatePlan, inputs: seq<Input>, index: nat)
    requires plan.AllFit(inputs) && ArmsAre(a, plan, inputs, index, |plan.fields|)
    ensures ArmsAre(a, plan, inputs, index + 1, 0)
  {
    hide ArmIs;
    forall f: nat, r: nat | f < |plan.fields| && r < |inputs|
      ensures ArmIs(a, plan, inputs[r], f, ArmStart(plan, |inputs|, f, r), r < index + 1)
    {
      assert ArmIs(a, plan, inputs[r], f, ArmStart(plan, |inputs|, f, r),
        r < index || (r == index && f < |plan.fields|));
    }
  }

  lemma AllFilled(a: seq<Slot>, plan: UpdatePlan, inputs: seq<Input>)
    requires plan.Valid() && plan.AllFit(inputs) && |a| == |inputs| * plan.PerRow()
    requires ArmsAre(a, plan, inputs, |inputs|, 0) && KeysAre(a, plan, inputs, |inputs|)
    ensures a == AllGiven(Slots(Many(plan, inputs)))
  {
    hide Nth, Slots, Many, ArmsAre, KeysAre, ArmIs, KeyIs;
    SlotCount(plan, inputs);
    forall p | 0 <= p < |a|
      ensures a[p] == Given(Slots(Many(plan, inputs))[p])
    {
      var arm, f, r, j := PlaceOf(plan, |inputs|, p);
      if arm {
        ArmAt(plan, inputs, f, r, j);
        ArmPlace(a, plan, inputs, f, r, j);
      } else {
        KeyAt(plan, inputs, r, j);
        KeyPlace(a, plan, inputs, r, j);
      }
    }
  }

  lemma ArmPlace(a: seq<Slot>, plan: UpdatePlan, inputs: seq<Input>, f: nat, r: nat, j: nat)
    requires plan.AllFit(inputs) && ArmsAre(a, plan, inputs, |inputs|, 0)
    requires f < |plan.fields| && r < |inputs| && j <= |plan.keys|
    ensures ArmStart(plan, |inputs|, f, r) + j < |a|
    ensures a[ArmStart(plan, |inputs|, f, r) + j] == Given(ArmSlot(plan, inputs[r], f, j))
  {
    hide Nth;
    var start := ArmStart(plan, |inputs|, f, r);
    assert ArmIs(a, plan, inputs[r], f, start, true);
    assert a[start..start + |plan.keys| + 1][j] == a[start + j];
  }

  lemma KeyPlace(a: seq<Slot>, plan: UpdatePlan, inputs: seq<Input>, r: nat, j: nat)
    requires plan.AllFit(inputs) && KeysAre(a, plan, inputs, |inputs|) && r < |inputs| && j < |plan.keys|
    ensures KeyStart(plan, |inputs|, r) + j < |a|
    ensures a[KeyStart(plan, |inputs|, r) + j] == Given(Some(inputs[r].keys[j]))
  {
    hide Nth;
    var start := KeyStart(plan, |inputs|, r);
    assert KeyIs(a, plan, inputs[r], start, true);
    assert a[start..start + |plan.keys|][j] == a[start + j];
  }

  /** The arguments of the one-row statement: the new values, then the key. */
  method FillOne(plan: UpdatePlan, input: Input) returns (arguments: array<Slot>)
    requires plan.Valid() && plan.Fits(input)
    ensures fresh(arguments) && arguments[..] == AllGiven(Slots(One(plan, input)))
  {
    hide Slots, BulkUpdate.One;
    var keyCount, fieldCount := |plan.keys|, |plan.fields|;
    SlotsOfOne(plan, input);
    arguments := new Slot[keyCount + fieldCount](_ => Empty);
    FillKey(arguments, fieldCount, input.keys);
    for fieldIndex := 0 to fieldCount
      invariant arguments[fieldCount..] == AllGiven(KeySlots(input.keys))
      invariant forall i | 0 <= i < fieldIndex :: arguments[i] == Given(input.values[i])
      invariant forall i | fieldIndex <= i < fieldCount :: arguments[i] == Empty
    {
      assert arguments[fieldIndex] == Empty;
      arguments[fieldIndex] := Given(input.values[fieldIndex]);
    }
    forall p | 0 <= p < arguments.Length
      ensures arguments[p] == Given(Slots(One(plan, input))[p])
    {
      if p >= fieldCount {
        assert arguments[p] == arguments[fieldCount..][p - fieldCount];
      }
    }
  }
}
