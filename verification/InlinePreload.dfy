/** To-one relations read with LEFT JOIN: the values of one joined row, laid out by the plan tree, and
    hydrating the record tree from them in place (orm/inline_preload.go). */
module InlinePreload {
  import opened SqlValues

  /** A scanned field; `holdsNull` is false where a NULL cannot be stored. */
  datatype ScanField = ScanField(column: string, holdsNull: bool)

  /** One relation to join. `softDelete` is empty for a target without one and under WithDeleted. */
  datatype InlinePlan = InlinePlan(
    relation: string,
    table: string,
    fields: seq<ScanField>,
    sourceColumns: seq<string>,
    targetColumns: seq<string>,
    targetKeyScan: seq<nat>,
    softDelete: Option<string>,
    children: seq<InlinePlan>)

  type Cells = seq<Option<Value>>

  /** A joined record with the record of each of its own relations. */
  datatype Joined = Joined(cells: Cells, related: seq<Option<Joined>>)

  predicate Valid(plan: InlinePlan) {
    && |plan.targetKeyScan| == |plan.targetColumns| == |plan.sourceColumns| > 0
    && (forall k | 0 <= k < |plan.targetKeyScan| ::
          plan.targetKeyScan[k] < |plan.fields| && plan.fields[plan.targetKeyScan[k]].column == plan.targetColumns[k])
    && (forall i | 0 <= i < |plan.children| :: Valid(plan.children[i]))
    && DistinctRelations(plan.children)
  }

  predicate DistinctRelations(plans: seq<InlinePlan>) {
    forall i, j | 0 <= i < j < |plans| :: plans[i].relation != plans[j].relation
  }

  predicate AllValid(plans: seq<InlinePlan>) {
    (forall i | 0 <= i < |plans| :: Valid(plans[i])) && DistinctRelations(plans)
  }

  /** The position of every key column in the scanned fields; fails when the projection omits one. */
  method PreloadTargetKeyScanIndexes(targetColumns: seq<string>, fields: seq<ScanField>) returns (r: Option<seq<nat>>)
    ensures r.Some? <==> forall c <- targetColumns :: exists f <- fields :: f.column == c
    ensures r.Some? ==> |r.value| == |targetColumns|
    ensures r.Some? ==> forall k | 0 <= k < |targetColumns| ::
      r.value[k] < |fields| && fields[r.value[k]].column == targetColumns[k]
  {
    var indexes: seq<nat> := [];
    for key := 0 to |targetColumns|
      invariant |indexes| == key
      invariant forall k | 0 <= k < key :: indexes[k] < |fields| && fields[indexes[k]].column == targetColumns[k]
    {
      var found := false;
      for scan := 0 to |fields|
        invariant !found && |indexes| == key
        invariant forall i | 0 <= i < scan :: fields[i].column != targetColumns[key]
        invariant forall k | 0 <= k < key :: indexes[k] < |fields| && fields[indexes[k]].column == targetColumns[k]
      {
        if fields[scan].column == targetColumns[key] {
          indexes := indexes + [scan];
          found := true;
          break;
        }
      }
      if !found {
        assert targetColumns[key] in targetColumns;
        return None;
      }
    }
    forall c | c in targetColumns
      ensures exists f <- fields :: f.column == c
    {
      var k :| 0 <= k < |targetColumns| && targetColumns[k] == c;
      assert fields[indexes[k]] in fields;
    }
    return Some(indexes);
  }

  // ---- the layout ----

  function ColumnCount(plan: InlinePlan): nat {
    |plan.fields| + ColumnCounts(plan.children)
  }

  function ColumnCounts(plans: seq<InlinePlan>): nat {
    if |plans| == 0 then 0 else ColumnCounts(plans[..|plans| - 1]) + ColumnCount(plans[|plans| - 1])
  }

  /** A record that the model can hold: a NULL only where one fits, a whole key, and the same below. */
  predicate Fits(plan: InlinePlan, t: Joined) {
    && |t.cells| == |plan.fields| && (forall i | 0 <= i < |t.cells| :: t.cells[i] == None ==> plan.fields[i].holdsNull)
    && (forall k <- plan.targetKeyScan :: k < |t.cells| && t.cells[k].Some?)
    && |t.related| == |plan.children|
    && forall i | 0 <= i < |plan.children| :: t.related[i].Some? ==> Fits(plan.children[i], t.related[i].value)
  }

  predicate AllFit(plans: seq<InlinePlan>, ts: seq<Option<Joined>>) {
    |ts| == |plans| && forall i | 0 <= i < |plans| :: ts[i].Some? ==> Fits(plans[i], ts[i].value)
  }

  function Nulls(n: nat): Cells {
    seq(n, i => None)
  }

  /** The values of a record in the order of the emitted columns; an absent one is all NULL. */
  function Flatten(plan: InlinePlan, t: Option<Joined>): (values: Cells)
    requires t.Some? ==> Fits(plan, t.value)
    ensures |values| == ColumnCount(plan)
    decreases plan, 1
  {
    match t
    case None => Nulls(ColumnCount(plan))
    case Some(record) => record.cells + FlattenAll(plan.children, record.related)
  }

  function FlattenAll(plans: seq<InlinePlan>, ts: seq<Option<Joined>>): (values: Cells)
    requires AllFit(plans, ts)
    ensures |values| == ColumnCounts(plans)
    decreases plans, 0
  {
    if |plans| == 0 then []
    else
      var n := |plans| - 1;
      FlattenAll(plans[..n], ts[..n]) + Flatten(plans[n], ts[n])
  }

  // ---- reading the values back ----

  datatype Failure =
    | Incomplete(relation: string)
    | PartialKey(relation: string)
    | NullInto(column: string)
    | Leftover(consumed: nat, received: nat)

  datatype Hydration<+T> = Failed(failure: Failure) | Hydrated(value: T)

  predicate KeyWhole(plan: InlinePlan, own: Cells) {
    forall k <- plan.targetKeyScan :: k < |own| ==> own[k].Some?
  }

  predicate KeyMissing(plan: InlinePlan, own: Cells) {
    forall k <- plan.targetKeyScan :: k < |own| ==> own[k].None?
  }

  /** The first field that cannot hold its NULL. */
  function Unstorable(fields: seq<ScanField>, own: Cells): (column: Option<string>)
    requires |own| == |fields|
    ensures column.None? <==> forall i | 0 <= i < |fields| :: own[i] == None ==> fields[i].holdsNull
  {
    if |fields| == 0 then None
    else
      var n := |fields| - 1;
      var earlier := Unstorable(fields[..n], own[..n]);
      if earlier.Some? then earlier
      else if own[n] == None && !fields[n].holdsNull then Some(fields[n].column)
      else None
  }

  function Unflatten(plan: InlinePlan, values: Cells): Hydration<Option<Joined>>
    requires Valid(plan) && |values| == ColumnCount(plan)
    decreases plan, 2
  {
    var own := values[..|plan.fields|];
    if KeyWhole(plan, own) then
      if Unstorable(plan.fields, own).Some? then Failed(NullInto(Unstorable(plan.fields, own).value))
      else
        match UnflattenAll(plan.children, values[|plan.fields|..])
        case Failed(failure) => Failed(failure)
        case Hydrated(related) => Hydrated(Some(Joined(own, related)))
    else if KeyMissing(plan, own) then Hydrated(None)
    else Failed(PartialKey(plan.relation))
  }

  /** The records at the front of the values. */
  function UnflattenFront(plans: seq<InlinePlan>, values: Cells): (r: Hydration<seq<Option<Joined>>>)
    requires AllValid(plans)
    ensures r.Hydrated? ==> ColumnCounts(plans) <= |values|
    decreases plans, 0
  {
    if |plans| == 0 then Hydrated([])
    else
      var n := |plans| - 1;
      match UnflattenFront(plans[..n], values)
      case Failed(failure) => Failed(failure)
      case Hydrated(front) =>
        var offset := ColumnCounts(plans[..n]);
        if offset + ColumnCount(plans[n]) > |values| then Failed(Incomplete(plans[n].relation))
        else
          match Unflatten(plans[n], values[offset..offset + ColumnCount(plans[n])])
          case Failed(failure) => Failed(failure)
          case Hydrated(t) => Hydrated(front + [t])
  }

  function UnflattenAll(plans: seq<InlinePlan>, values: Cells): Hydration<seq<Option<Joined>>>
    requires AllValid(plans)
    decreases plans, 1
  {
    match UnflattenFront(plans, values)
    case Failed(failure) => Failed(failure)
    case Hydrated(ts) =>
      if ColumnCounts(plans) != |values| then Failed(Leftover(ColumnCounts(plans), |values|)) else Hydrated(ts)
  }

  /** What an outer join returns: a record without its key has nothing but NULLs, down to its leaves. */
  predicate NothingStray(plan: InlinePlan, values: Cells)
    requires |values| == ColumnCount(plan)
    decreases plan, 1
  {
    if KeyMissing(plan, values[..|plan.fields|]) then values == Nulls(|values|)
    else NothingStrays(plan.children, values[|plan.fields|..])
  }

  predicate NothingStrays(plans: seq<InlinePlan>, values: Cells)
    requires |values| == ColumnCounts(plans)
    decreases plans, 0
  {
    if |plans| == 0 then true
    else
      var n := |plans| - 1;
      var offset := ColumnCounts(plans[..n]);
      NothingStrays(plans[..n], values[..offset]) && NothingStray(plans[n], values[offset..])
  }

  /** Only the values in front matter. */
  lemma {:induction false} FrontAlone(plans: seq<InlinePlan>, values: Cells, k: nat)
    requires AllValid(plans) && ColumnCounts(plans) <= k <= |values|
    ensures UnflattenFront(plans, values[..k]) == UnflattenFront(plans, values)
    decreases plans
  {
    if |plans| > 0 {
      var n := |plans| - 1;
      var offset := ColumnCounts(plans[..n]);
      FrontAlone(plans[..n], values, k);
      assert values[..k][offset..offset + ColumnCount(plans[n])] == values[offset..offset + ColumnCount(plans[n])];
    }
  }

  /** Values without strays hydrate to a record exactly when they are the flattening of that record. */
  lemma {:induction false} UnflattenIffFlat(plan: InlinePlan, values: Cells, t: Option<Joined>)
    requires Valid(plan) && |values| == ColumnCount(plan) && NothingStray(plan, values)
    ensures Unflatten(plan, values) == Hydrated(t) <==> (t.Some? ==> Fits(plan, t.value)) && Flatten(plan, t) == values
    decreases plan, 1
  {
    var m := |plan.fields|;
    var own, rest := values[..m], values[m..];
    assert values == own + rest;
    assert plan.targetKeyScan[0] in plan.targetKeyScan;
    if t.None? {
      NullsHaveNoKey(plan);
    } else {
      var record := t.value;
      if KeyWhole(plan, own) {
        UnflattenAllIffFlat(plan.children, rest, record.related);
      }
      if Fits(plan, record) && Flatten(plan, t) == values {
        assert record.cells == own && FlattenAll(plan.children, record.related) == rest;
        UnflattenAllIffFlat(plan.children, rest, record.related);
      }
    }
  }

  lemma NullsHaveNoKey(plan: InlinePlan)
    requires Valid(plan)
    ensures Unflatten(plan, Nulls(ColumnCount(plan))) == Hydrated(None)
  {
    assert plan.targetKeyScan[0] in plan.targetKeyScan;
  }

  lemma {:induction false} UnflattenAllIffFlat(plans: seq<InlinePlan>, values: Cells, ts: seq<Option<Joined>>)
    requires AllValid(plans) && |values| == ColumnCounts(plans) && NothingStrays(plans, values)
    ensures UnflattenAll(plans, values) == Hydrated(ts) <==> AllFit(plans, ts) && FlattenAll(plans, ts) == values
    decreases plans, 0
  {
    LengthKept(plans, values);
    if |plans| > 0 {
      if |ts| == |plans| {
        var n := |plans| - 1;
        var offset := ColumnCounts(plans[..n]);
        UnflattenAllUnfolds(plans, values, ts);
        FlattenAllUnfolds(plans, values, ts);
        hide UnflattenAll, UnflattenFront, FlattenAll, Unflatten, Flatten, Fits, AllFit;
        UnflattenAllIffFlat(plans[..n], values[..offset], ts[..n]);
        UnflattenIffFlat(plans[n], values[offset..], ts[n]);
      }
    }
  }

  function Added(front: Hydration<seq<Option<Joined>>>,
    one: Hydration<Option<Joined>>): Hydration<seq<Option<Joined>>> {
    if front.Failed? then front
    else if one.Failed? then Failed(one.failure)
    else Hydrated(front.value + [one.value])
  }

  lemma FrontStep(plans: seq<InlinePlan>, values: Cells)
    requires AllValid(plans) && |plans| > 0
    ensures var n := |plans| - 1;
      var offset, last := ColumnCounts(plans[..n]), plans[n];
      var front := UnflattenFront(plans[..n], values);
      && ColumnCounts(plans) == offset + ColumnCount(last)
      && (offset + ColumnCount(last) <= |values| ==>
            UnflattenFront(plans, values) == Added(front, Unflatten(last, values[offset..offset + ColumnCount(last)])))
      && (offset + ColumnCount(last) > |values| && front.Hydrated? ==>
            UnflattenFront(plans, values) == Failed(Incomplete(last.relation)))
  {
    hide Unflatten, Valid, AllValid, DistinctRelations, ColumnCount;
  }

  lemma UnflattenAllUnfolds(plans: seq<InlinePlan>, values: Cells, ts: seq<Option<Joined>>)
    requires AllValid(plans) && |values| == ColumnCounts(plans) && |ts| == |plans| > 0
    ensures var n := |plans| - 1;
      var offset := ColumnCounts(plans[..n]);
      UnflattenAll(plans, values) == Hydrated(ts) <==>
        UnflattenAll(plans[..n], values[..offset]) == Hydrated(ts[..n])
          && Unflatten(plans[n], values[offset..]) == Hydrated(ts[n])
  {
    hide Unflatten, UnflattenFront, Valid, ColumnCounts, ColumnCount;
    var n := |plans| - 1;
    var offset := ColumnCounts(plans[..n]);
    FrontStep(plans, values);
    FrontAlone(plans[..n], values, offset);
    LengthKept(plans[..n], values);
    assert ts == ts[..n] + [ts[n]];
    assert values[offset..offset + ColumnCount(plans[n])] == values[offset..];
  }

  lemma FlattenAllUnfolds(plans: seq<InlinePlan>, values: Cells, ts: seq<Option<Joined>>)
    requires |values| == ColumnCounts(plans) && |ts| == |plans| > 0
    ensures var n := |plans| - 1;
      var offset := ColumnCounts(plans[..n]);
      AllFit(plans, ts) && FlattenAll(plans, ts) == values <==>
        && AllFit(plans[..n], ts[..n]) && FlattenAll(plans[..n], ts[..n]) == values[..offset]
        && (ts[n].Some? ==> Fits(plans[n], ts[n].value)) && Flatten(plans[n], ts[n]) == values[offset..]
  {
    hide Flatten, Fits;
    var n := |plans| - 1;
    var offset := ColumnCounts(plans[..n]);
    assert values == values[..offset] + values[offset..];
    if AllFit(plans[..n], ts[..n]) && (ts[n].Some? ==> Fits(plans[n], ts[n].value)) {
      assert AllFit(plans, ts);
      var front, last := FlattenAll(plans[..n], ts[..n]), Flatten(plans[n], ts[n]);
      assert (front + last)[..offset] == front && (front + last)[offset..] == last;
    }
  }

  lemma {:induction false} LengthKept(plans: seq<InlinePlan>, values: Cells)
    requires AllValid(plans)
    ensures UnflattenFront(plans, values).Hydrated? ==> |UnflattenFront(plans, values).value| == |plans|
    decreases plans
  {
    hide Unflatten;
    if |plans| > 0 {
      LengthKept(plans[..|plans| - 1], values);
    }
  }

  /** Hydrating the flattening of a record tree gives the tree back. */
  lemma RoundTrip(plans: seq<InlinePlan>, ts: seq<Option<Joined>>)
    requires AllValid(plans) && AllFit(plans, ts)
    ensures UnflattenAll(plans, FlattenAll(plans, ts)) == Hydrated(ts)
  {
    FlatHasNoStrays(plans, ts);
    UnflattenAllIffFlat(plans, FlattenAll(plans, ts), ts);
  }

  lemma {:induction false} FlatHasNoStrays(plans: seq<InlinePlan>, ts: seq<Option<Joined>>)
    requires AllValid(plans) && AllFit(plans, ts)
    ensures NothingStrays(plans, FlattenAll(plans, ts))
    decreases plans, 0
  {
    hide NothingStray, Flatten, Fits;
    if |plans| > 0 {
      var n := |plans| - 1;
      FlatHasNoStrays(plans[..n], ts[..n]);
      FlatHasNoStray(plans[n], ts[n]);
      var front, last := FlattenAll(plans[..n], ts[..n]), Flatten(plans[n], ts[n]);
      assert (front + last)[..|front|] == front && (front + last)[|front|..] == last;
    }
  }

  lemma {:induction false} FlatHasNoStray(plan: InlinePlan, t: Option<Joined>)
    requires Valid(plan) && (t.Some? ==> Fits(plan, t.value))
    ensures NothingStray(plan, Flatten(plan, t))
    decreases plan, 1
  {
    hide NothingStrays, FlattenAll;
    assert plan.targetKeyScan[0] in plan.targetKeyScan;
    if t.Some? {
      FlatHasNoStrays(plan.children, t.value.related);
      var cells, rest := t.value.cells, FlattenAll(plan.children, t.value.related);
      assert (cells + rest)[..|cells|] == cells && (cells + rest)[|cells|..] == rest;
    }
  }

  // ---- hydrating in place ----

  /** A model: its own fields, and the relation fields that are set. */
  class Model {
    var cells: Cells
    var related: map<string, Model>

    constructor ()
      ensures cells == [] && related == map[]
    {
      cells, related := [], map[];
    }
  }

  /** The model and the models below it, all of them in `made`, hold this record. */
  ghost predicate Holds(m: Model, plan: InlinePlan, t: Joined, made: set<Model>)
    reads made
    decreases plan
  {
    && m in made && m.cells == t.cells && |t.related| == |plan.children|
    && HeldRelations(m.related, plan.children, t.related)
    && forall i | 0 <= i < |plan.children| :: t.related[i].Some? ==>
      Holds(m.related[plan.children[i].relation], plan.children[i], t.related[i].value, made)
  }

  /** Exactly the relations with a record are set. */
  ghost predicate HeldRelations(related: map<string, Model>, plans: seq<InlinePlan>, ts: seq<Option<Joined>>)
    requires |ts| == |plans|
  {
    && (forall i | 0 <= i < |plans| :: ts[i].Some? ==> plans[i].relation in related)
    && forall name <- related :: exists i :: 0 <= i < |plans| && plans[i].relation == name && ts[i].Some?
  }

  lemma {:induction false} HoldsMore(m: Model, plan: InlinePlan, t: Joined, some: set<Model>, more: set<Model>)
    requires Holds(m, plan, t, some) && some <= more
    ensures Holds(m, plan, t, more)
    decreases plan
  {
    forall i | 0 <= i < |plan.children| && t.related[i].Some?
      ensures Holds(m.related[plan.children[i].relation], plan.children[i], t.related[i].value, more)
    {
      HoldsMore(m.related[plan.children[i].relation], plan.children[i], t.related[i].value, some, more);
    }
  }

  /** Whether the relation key of the joined values is there, absent, or broken. */
  method InlinePreloadKeyPresent(plan: InlinePlan, own: Cells) returns (present: bool, broken: bool)
    requires Valid(plan) && |own| == |plan.fields|
    ensures !broken && present <==> KeyWhole(plan, own)
    ensures !broken && !present <==> KeyMissing(plan, own)
    ensures broken ==> !present
  {
    var nullCount := 0;
    for k := 0 to |plan.targetKeyScan|
      invariant 0 <= nullCount <= k
      invariant nullCount == 0 <==> forall i | 0 <= i < k :: own[plan.targetKeyScan[i]].Some?
      invariant nullCount == k <==> forall i | 0 <= i < k :: own[plan.targetKeyScan[i]].None?
    {
      if own[plan.targetKeyScan[k]] == None {
        nullCount := nullCount + 1;
      }
    }
    KeyByPosition(plan, own);
    if nullCount == 0 {
      return true, false;
    }
    return false, nullCount != |plan.targetKeyScan|;
  }

  lemma KeyByPosition(plan: InlinePlan, own: Cells)
    requires Valid(plan) && |own| == |plan.fields|
    ensures KeyWhole(plan, own) <==> forall i | 0 <= i < |plan.targetKeyScan| :: own[plan.targetKeyScan[i]].Some?
    ensures KeyMissing(plan, own) <==> forall i | 0 <= i < |plan.targetKeyScan| :: own[plan.targetKeyScan[i]].None?
    ensures !(KeyWhole(plan, own) && KeyMissing(plan, own))
  {
    assert plan.targetKeyScan[0] in plan.targetKeyScan;
  }

  /** Fills the fields of a new record in order, stopping at one that cannot hold its NULL. */
  method ScanFields(target: Model, fields: seq<ScanField>, own: Cells) returns (failed: Option<string>)
    requires |own| == |fields| && target.cells == []
    modifies target`cells
    ensures failed == Unstorable(fields, own)
    ensures failed.None? ==> target.cells == own
  {
    for index := 0 to |fields|
      invariant Unstorable(fields[..index], own[..index]).None? && target.cells == own[..index]
    {
      assert fields[..index + 1][..index] == fields[..index] && own[..index + 1][..index] == own[..index];
      if own[index] == None && !fields[index].holdsNull {
        UnstorableStays(fields, own, index + 1);
        return Some(fields[index].column);
      }
      target.cells := target.cells + [own[index]];
    }
    assert fields[..|fields|] == fields && own[..|fields|] == own;
    return None;
  }

  lemma {:induction false} UnstorableStays(fields: seq<ScanField>, own: Cells, n: nat)
    requires |own| == |fields| && n <= |fields| && Unstorable(fields[..n], own[..n]).Some?
    ensures Unstorable(fields, own) == Unstorable(fields[..n], own[..n])
    decreases |fields|
  {
    if n == |fields| {
      assert fields[..n] == fields && own[..n] == own;
    } else {
      var m := |fields| - 1;
      assert fields[..m][..n] == fields[..n] && own[..m][..n] == own[..n];
      UnstorableStays(fields[..m], own[..m], n);
    }
  }

  /** Relation fields after hydrating the first plans: a present record is set to a model that holds it,
      an absent one leaves its field alone, and so do all other fields. */
  ghost predicate SetFrom(
    was: map<string, Model>, related: map<string, Model>, plans: seq<InlinePlan>, ts: seq<Option<Joined>>,
      made: set<Model>)
    requires |ts| <= |plans|
    reads made
  {
    && (forall i | 0 <= i < |ts| :: ts[i].Some? ==>
          plans[i].relation in related && Holds(related[plans[i].relation], plans[i], ts[i].value, made))
    && (forall name <- related :: SetBy(name, plans, ts) || (name in was && was[name] == related[name]))
    && forall name <- was :: name in related
  }

  predicate SetBy(name: string, plans: seq<InlinePlan>, ts: seq<Option<Joined>>)
    requires |ts| <= |plans|
  {
    exists i :: 0 <= i < |ts| && plans[i].relation == name && ts[i].Some?
  }

  /** A failure in front is the result of the whole. */
  lemma {:induction false} FailureStays(plans: seq<InlinePlan>, values: Cells, n: nat)
    requires AllValid(plans) && n <= |plans| && UnflattenFront(plans[..n], values).Failed?
    ensures UnflattenFront(plans, values) == UnflattenFront(plans[..n], values)
    decreases |plans|
  {
    hide Unflatten;
    if n == |plans| {
      assert plans[..n] == plans;
    } else {
      var m := |plans| - 1;
      assert plans[..m][..n] == plans[..n];
      FailureStays(plans[..m], values, n);
    }
  }

  /** One more plan: its record is set, or its field is left alone. */
  lemma SetNext(
    was: map<string, Model>, related: map<string, Model>, plans: seq<InlinePlan>, ts: seq<Option<Joined>>,
    t: Option<Joined>, target: Model?, some: set<Model>, made: set<Model>)
    requires |ts| < |plans| && DistinctRelations(plans) && some <= made
    requires SetFrom(was, related, plans, ts, some)
    requires t.Some? <==> target != null
    requires target != null ==> Holds(target, plans[|ts|], t.value, made)
    ensures SetFrom(was, if target != null then related[plans[|ts|].relation := target] else related, plans, ts + [t],
      made)
  {
    hide Holds;
    forall i | 0 <= i < |ts| && ts[i].Some?
      ensures Holds(related[plans[i].relation], plans[i], ts[i].value, made)
    {
      HoldsMore(related[plans[i].relation], plans[i], ts[i].value, some, made);
    }
    forall name | SetBy(name, plans, ts)
      ensures SetBy(name, plans, ts + [t])
    {
      var i :| 0 <= i < |ts| && plans[i].relation == name && ts[i].Some?;
      assert (ts + [t])[i] == ts[i];
    }
    if t.Some? {
      assert (ts + [t])[|ts|] == t && SetBy(plans[|ts|].relation, plans, ts + [t]);
    }
  }

  /** A new model with the joined fields, its own relations hydrated; none when the key is absent. */
  method HydrateTarget(plan: InlinePlan, values: Cells)
    returns (r: Hydration<Option<Joined>>, target: Model?, ghost made: set<Model>)
    requires Valid(plan) && |values| == ColumnCount(plan)
    ensures forall m <- made :: fresh(m)
    ensures r == Unflatten(plan, values)
    ensures r.Hydrated? ==> (r.value.Some? <==> target != null)
    ensures target != null ==> r.Hydrated? && Holds(target, plan, r.value.value, made)
    decreases plan, 1
  {
    hide UnflattenAll, UnflattenFront;
    var ownCount := |plan.fields|;
    var own, joinedValues := values[..ownCount], values[ownCount..];
    made, target := {}, null;
    var present, broken := InlinePreloadKeyPresent(plan, own);
    if broken {
      return Failed(PartialKey(plan.relation)), null, made;
    }
    if !present {
      KeyByPosition(plan, own);
      return Hydrated(None), null, made;
    }
    var model := new Model();
    var failed := ScanFields(model, plan.fields, own);
    if failed.Some? {
      return Failed(NullInto(failed.value)), null, made;
    }
    var below, more := HydrateInlinePreloads(model, plan.children, joinedValues);
    if below.Failed? {
      return Failed(below.failure), null, more;
    }
    made := more + {model};
    SetHolds(model, plan, own, below.value, more, made);
    return Hydrated(Some(Joined(own, below.value))), model, made;
  }

  lemma SetHolds(model: Model, plan: InlinePlan, own: Cells, ts: seq<Option<Joined>>, some: set<Model>,
    made: set<Model>)
    requires |ts| == |plan.children| && model in made && some <= made && model.cells == own
    requires SetFrom(map[], model.related, plan.children, ts, some)
    ensures Holds(model, plan, Joined(own, ts), made)
  {
    forall i | 0 <= i < |ts| && ts[i].Some?
      ensures Holds(model.related[plan.children[i].relation], plan.children[i], ts[i].value, made)
    {
      HoldsMore(model.related[plan.children[i].relation], plan.children[i], ts[i].value, some, made);
    }
    forall name <- model.related
      ensures exists i :: 0 <= i < |ts| && plan.children[i].relation == name && ts[i].Some?
    {
      assert SetBy(name, plan.children, ts);
    }
  }

  /** The next plan, after those before it have their records. */
  lemma FrontUnfolds(plans: seq<InlinePlan>, values: Cells, index: nat, ts: seq<Option<Joined>>)
    requires AllValid(plans) && index < |plans| && UnflattenFront(plans[..index], values) == Hydrated(ts)
    ensures Valid(plans[index])
    ensures ColumnCounts(plans[..index + 1]) == ColumnCounts(plans[..index]) + ColumnCount(plans[index])
    ensures var offset, plan := ColumnCounts(plans[..index]), plans[index];
      if offset + ColumnCount(plan) > |values| then UnflattenAll(plans, values) == Failed(Incomplete(plan.relation))
      else
        var one := Unflatten(plan, values[offset..offset + ColumnCount(plan)]);
        if one.Failed? then UnflattenAll(plans, values) == Failed(one.failure)
        else UnflattenFront(plans[..index + 1], values) == Hydrated(ts + [one.value])
  {
    hide Unflatten, UnflattenFront, Valid, ColumnCounts, ColumnCount;
    assert plans[..index + 1][..index] == plans[..index];
    FrontStep(plans[..index + 1], values);
    if UnflattenFront(plans[..index + 1], values).Failed? {
      FailureStays(plans, values, index + 1);
    }
  }

  lemma FrontEnds(plans: seq<InlinePlan>, values: Cells, ts: seq<Option<Joined>>)
    requires AllValid(plans) && UnflattenFront(plans[..|plans|], values) == Hydrated(ts)
    ensures UnflattenAll(plans, values) ==
      if ColumnCounts(plans[..|plans|]) == |values| then Hydrated(ts)
      else Failed(Leftover(ColumnCounts(plans[..|plans|]), |values|))
  {
    assert plans[..|plans|] == plans;
  }

  /** Hydrates the relations of `root` from the joined values of one row. */
  method HydrateInlinePreloads(root: Model, plans: seq<InlinePlan>, values: Cells)
    returns (r: Hydration<seq<Option<Joined>>>, ghost made: set<Model>)
    requires AllValid(plans)
    modifies root`related
    ensures forall m <- made :: fresh(m)
    ensures r == UnflattenAll(plans, values)
    ensures r.Hydrated? ==> |r.value| == |plans| && SetFrom(old(root.related), root.related, plans, r.value, made)
    decreases plans, 0
  {
    hide Unflatten, UnflattenFront, UnflattenAll, SetFrom, Holds, ColumnCount, ColumnCounts, Valid;
    var ts: seq<Option<Joined>> := [];
    var offset: nat := 0;
    made := {};
    NothingSet(root.related, plans);
    FrontStarts(plans, values);
    for index := 0 to |plans|
      invariant forall m <- made :: fresh(m)
      invariant |ts| == index && offset == ColumnCounts(plans[..index]) <= |values|
      invariant UnflattenFront(plans[..index], values) == Hydrated(ts)
      invariant SetFrom(old(root.related), root.related, plans, ts, made)
    {
      var plan := plans[index];
      var totalCount := ColumnCount(plan);
      FrontUnfolds(plans, values, index, ts);
      if offset + totalCount > |values| {
        return Failed(Incomplete(plan.relation)), made;
      }
      var one, target, more := HydrateTarget(plan, values[offset..offset + totalCount]);
      offset := offset + totalCount;
      if one.Failed? {
        return Failed(one.failure), made;
      }
      if target != null {
        HoldsMore(target, plan, one.value.value, more, made + more);
      }
      SetNext(old(root.related), root.related, plans, ts, one.value, target, made, made + more);
      made := made + more;
      if target != null {
        root.related := root.related[plan.relation := target];
      }
      ts := ts + [one.value];
    }
    FrontEnds(plans, values, ts);
    if offset != |values| {
      return Failed(Leftover(offset, |values|)), made;
    }
    return Hydrated(ts), made;
  }

  lemma FrontStarts(plans: seq<InlinePlan>, values: Cells)
    ensures ColumnCounts(plans[..0]) == 0 && UnflattenFront(plans[..0], values) == Hydrated([])
  {
  }

  lemma NothingSet(related: map<string, Model>, plans: seq<InlinePlan>)
    ensures SetFrom(related, related, plans, [], {})
  {
  }
}
