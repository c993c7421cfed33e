/** Hydrating one level of a collection relation (orm/preload.go): parents grouped by key, rows read in
    batches or all at once, and elements appended in place. */
module Preload {
  import opened SqlValues
  import opened RelationKey

  const PARAMETER_BUDGET := 5000
  const PARAMETER_LIMIT := 65535

  /** A decoded target model. */
  datatype Record = Record(cells: seq<Native>)

  /** A decoded row: the key of the parents it belongs to, and the target. */
  datatype Loaded = Loaded(key: seq<Native>, record: Record)

  /** An allocated target. */
  class Cell {
    var record: Record

    constructor (record: Record)
      ensures this.record == record
    {
      this.record := record;
    }
  }

  /** A parent model: its source key and its relation field, a slice of pointers or of values. */
  class Parent {
    const key: seq<Native>
    var pointers: seq<Cell>
    var values: seq<Record>

    constructor (key: seq<Native>)
      ensures this.key == key && pointers == [] && values == []
    {
      this.key, pointers, values := key, [], [];
    }
  }

  /** `retain` is a slice of pointers; `loadAll` reads the whole relation in one statement. */
  datatype PreloadPlan = PreloadPlan(retain: bool, loadAll: bool, keyWidth: nat)
  {
    function BatchSize(): (size: nat)
      requires keyWidth > 0
      ensures size >= 1
    {
      var fit := if PARAMETER_BUDGET / keyWidth < PARAMETER_LIMIT / keyWidth
        then PARAMETER_BUDGET / keyWidth else PARAMETER_LIMIT / keyWidth;
      if fit < 1 then 1 else fit
    }
  }

  lemma Largest(total: nat, width: nat)
    requires width > 0
    ensures total / width * width <= total < (total / width + 1) * width
  {
  }

  /** A batch of keys binds at most 5000 values unless one key alone has more, and one key more would be too many. */
  lemma BatchFillsBudget(plan: PreloadPlan)
    requires plan.keyWidth > 0
    ensures var size := plan.BatchSize();
      (size == 1 || size * plan.keyWidth <= 5000) && (size + 1) * plan.keyWidth > 5000
  {
    Largest(PARAMETER_BUDGET, plan.keyWidth);
    Largest(PARAMETER_LIMIT, plan.keyWidth);
    BudgetBinds(plan.keyWidth);
  }

  lemma BudgetBinds(width: nat)
    requires width > 0
    ensures PARAMETER_BUDGET / width <= PARAMETER_LIMIT / width
  {
    Largest(PARAMETER_BUDGET, width);
    Largest(PARAMETER_LIMIT, width);
    if PARAMETER_BUDGET / width > PARAMETER_LIMIT / width {
      Grows(PARAMETER_LIMIT / width + 1, PARAMETER_BUDGET / width, width);
    }
  }

  lemma Grows(a: nat, b: nat, width: nat)
    requires a <= b
    ensures a * width <= b * width
  {
  }

  function LookupOf(key: seq<Native>): Option<LookupKey> {
    if HasNull(key) then None else Some(TupleKey(key))
  }

  /** The targets of the rows with a key, in the order of the rows. */
  function Received(rows: seq<Loaded>, key: LookupKey): seq<Record> {
    if |rows| == 0 then []
    else Received(rows[..|rows| - 1],
      key) + if LookupOf(rows[|rows| - 1].key) == Some(key) then [rows[|rows| - 1].record] else []
  }

  function ReceivedBy(rows: seq<Loaded>, parentKey: seq<Native>): seq<Record> {
    if LookupOf(parentKey).None? then [] else Received(rows, LookupOf(parentKey).value)
  }

  /** What a parent's relation field shows. */
  ghost predicate Shows(p: Parent, retain: bool, records: seq<Record>)
    reads p, p.pointers
  {
    if retain then
      p.values == [] && |p.pointers| == |records| && forall j | 0 <= j < |records| :: p.pointers[j].record == records[j]
    else p.pointers == [] && p.values == records
  }

  ghost function Cells(parents: seq<Parent>): set<object>
    reads parents
  {
    set i, j | 0 <= i < |parents| && 0 <= j < |parents[i].pointers| :: parents[i].pointers[j] as object
  }

  /** No two pointer elements are the same object, whether of one parent or of two. */
  ghost predicate Apart(parents: seq<Parent>)
    reads parents
  {
    forall i, a, j, b |
      0 <= i < |parents| && 0 <= a < |parents[i].pointers| && 0 <= j < |parents| && 0 <= b < |parents[j].pointers| ::
      parents[i].pointers[a] == parents[j].pointers[b] ==> i == j && a == b
  }

  ghost predicate DistinctParents(parents: seq<Parent>) {
    forall i, j | 0 <= i < j < |parents| :: parents[i] != parents[j]
  }

  // ---- grouping ----

  datatype ParentIndexes = ParentIndexes(first: nat, more: seq<nat>)
  {
    function All(): seq<nat> {
      [first] + more
    }
  }

  predicate Increasing(s: seq<nat>) {
    forall i, j | 0 <= i < j < |s| :: s[i] < s[j]
  }

  /** Each key has exactly the parents with that key, in their order. */
  ghost predicate Groups(parents: seq<Parent>, n: nat, indexes: map<LookupKey, ParentIndexes>)
    requires n <= |parents|
  {
    && (forall k <- indexes ::
          Increasing(indexes[k].All()) &&
          forall i: nat :: i in indexes[k].All() <==> i < n && LookupOf(parents[i].key) == Some(k))
    && forall i | 0 <= i < n :: LookupOf(parents[i].key).Some? ==> LookupOf(parents[i].key).value in indexes
  }

  /** The keys to ask for: each group once. */
  ghost predicate AsksOnce(keys: seq<seq<Native>>, indexes: map<LookupKey, ParentIndexes>) {
    && (forall i | 0 <= i < |keys| :: LookupOf(keys[i]).Some? && LookupOf(keys[i]).value in indexes)
    && (forall i, j | 0 <= i < j < |keys| :: LookupOf(keys[i]) != LookupOf(keys[j]))
    && forall k <- indexes :: exists i :: 0 <= i < |keys| && LookupOf(keys[i]) == Some(k)
  }

  /** Empties every relation field and groups the parents. */
  method PreparePreloadParents(parents: seq<Parent>) returns (keys: seq<seq<Native>>, indexes: map<LookupKey,
    ParentIndexes>)
    requires DistinctParents(parents) && forall p <- parents :: |p.key| > 0
    modifies parents
    ensures forall i | 0 <= i < |parents| :: parents[i].pointers == [] && parents[i].values == []
    ensures Groups(parents, |parents|, indexes) && AsksOnce(keys, indexes)
  {
    hide TupleKey, HasNull, Groups, AsksOnce;
    keys, indexes := [], map[];
    NoGroups(parents);
    for index := 0 to |parents|
      invariant forall i | 0 <= i < index :: parents[i].pointers == [] && parents[i].values == []
      invariant Groups(parents, index, indexes) && AsksOnce(keys, indexes)
    {
      var parent := parents[index];
      parent.pointers, parent.values := [], [];
      assert parent in parents;
      var lookup := ModelKey(parent.key);
      if lookup.None? {
        GroupSkips(parents, index, indexes);
        continue;
      }
      ghost var before := indexes;
      if lookup.value !in indexes {
        AsksNew(keys, indexes, parent.key, index);
        keys := keys + [parent.key];
        indexes := indexes[lookup.value := ParentIndexes(index, [])];
      } else {
        var group := indexes[lookup.value];
        AsksOld(keys, indexes, lookup.value, ParentIndexes(group.first, group.more + [index]));
        indexes := indexes[lookup.value := ParentIndexes(group.first, group.more + [index])];
      }
      GroupGrows(parents, index, before, lookup.value);
    }
  }

  lemma NoGroups(parents: seq<Parent>)
    ensures Groups(parents, 0, map[]) && AsksOnce([], map[])
  {
  }

  lemma GroupSkips(parents: seq<Parent>, n: nat, indexes: map<LookupKey, ParentIndexes>)
    requires n < |parents| && Groups(parents, n, indexes) && LookupOf(parents[n].key).None?
    ensures Groups(parents, n + 1, indexes)
  {
    hide LookupOf;
  }

  function Grown(indexes: map<LookupKey, ParentIndexes>, k: LookupKey, n: nat): ParentIndexes {
    if k in indexes then ParentIndexes(indexes[k].first, indexes[k].more + [n]) else ParentIndexes(n, [])
  }

  lemma GroupGrows(parents: seq<Parent>, n: nat, indexes: map<LookupKey, ParentIndexes>, k: LookupKey)
    requires n < |parents| && Groups(parents, n, indexes) && LookupOf(parents[n].key) == Some(k)
    ensures Groups(parents, n + 1, indexes[k := Grown(indexes, k, n)])
  {
    hide LookupOf;
    var grown := Grown(indexes, k, n);
    if k in indexes {
      assert grown.All() == indexes[k].All() + [n];
      forall i | 0 <= i < |indexes[k].All()|
        ensures indexes[k].All()[i] < n
      {
        assert indexes[k].All()[i] in indexes[k].All();
      }
    } else {
      assert grown.All() == [n];
    }
  }

  lemma AsksNew(keys: seq<seq<Native>>, indexes: map<LookupKey, ParentIndexes>, key: seq<Native>, n: nat)
    requires AsksOnce(keys, indexes) && LookupOf(key).Some? && LookupOf(key).value !in indexes
    ensures AsksOnce(keys + [key], indexes[LookupOf(key).value := ParentIndexes(n, [])])
  {
    hide LookupOf;
    var k := LookupOf(key).value;
    var more, next := keys + [key], indexes[k := ParentIndexes(n, [])];
    forall other <- next
      ensures exists i :: 0 <= i < |more| && LookupOf(more[i]) == Some(other)
    {
      if other == k {
        assert more[|keys|] == key;
      } else {
        var i :| 0 <= i < |keys| && LookupOf(keys[i]) == Some(other);
        assert more[i] == keys[i];
      }
    }
  }

  lemma AsksOld(keys: seq<seq<Native>>, indexes: map<LookupKey, ParentIndexes>, k: LookupKey, group: ParentIndexes)
    requires AsksOnce(keys, indexes) && k in indexes
    ensures AsksOnce(keys, indexes[k := group])
  {
    hide LookupOf;
    forall other <- indexes[k := group]
      ensures exists i :: 0 <= i < |keys| && LookupOf(keys[i]) == Some(other)
    {
      assert other in indexes;
    }
  }

  // ---- hydration ----

  datatype HydrateError = NullKey | UnrequestedKey

  /** Appends one element: the target itself, or a copy of it for the parents after the first. */
  method AssignPreloadedTarget(parent: Parent, retain: bool, target: Cell,
    copyPointer: bool) returns (ghost added: Cell)
    modifies parent
    ensures retain ==> parent.values == old(parent.values) && parent.pointers == old(parent.pointers) + [added]
    ensures !retain ==> parent.pointers == old(parent.pointers) && parent.values == old(parent.values) + [target.record]
    ensures if copyPointer && retain then fresh(added) && added.record == target.record else added == target
  {
    added := target;
    if retain {
      var element := target;
      if copyPointer {
        element := new Cell(target.record);
      }
      added := element;
      parent.pointers := parent.pointers + [element];
    } else {
      parent.values := parent.values + [target.record];
    }
  }

  /** One parent gains one element; nothing else changes and no element is shared. */
  method AssignOne(parents: seq<Parent>, retain: bool, x: nat, target: Cell, copy: bool, ghost shown: seq<seq<Record>>)
    requires DistinctParents(parents) && |shown| == |parents| && x < |parents|
    requires (forall i | 0 <= i < |parents| :: Shows(parents[i], retain, shown[i])) && Apart(parents)
    requires retain && !copy ==> target !in Cells(parents)
    modifies parents[x]
    ensures forall i | 0 <= i < |parents| :: Shows(parents[i], retain,
      if i == x then shown[i] + [target.record] else shown[i])
    ensures Apart(parents)
  {
    ghost var before := parents[x].pointers;
    ghost var all := Cells(parents);
    ghost var added := AssignPreloadedTarget(parents[x], retain, target, copy);
    if retain {
      assert added !in all;
      forall i, a, j, b |
        0 <= i < |parents| && 0 <= a < |parents[i].pointers| && 0 <= j < |parents| && 0 <= b < |parents[j].pointers|
        && parents[i].pointers[a] == parents[j].pointers[b]
        ensures i == j && a == b
      {
        assert i != x ==> parents[i].pointers[a] in all;
        assert j != x ==> parents[j].pointers[b] in all;
        assert i == x && a < |before| ==> parents[i].pointers[a] == before[a] && before[a] in all;
        assert j == x && b < |before| ==> parents[j].pointers[b] == before[b] && before[b] in all;
      }
    }
  }

  /** Every parent of a group gains the target. */
  method AssignToGroup(parents: seq<Parent>, retain: bool, group: ParentIndexes, target: Cell,
    ghost shown: seq<seq<Record>>)
    requires DistinctParents(parents) && |shown| == |parents|
    requires (forall i | 0 <= i < |parents| :: Shows(parents[i], retain, shown[i])) && Apart(parents)
    requires Increasing(group.All()) && forall i <- group.All() :: i < |parents|
    requires retain ==> target !in Cells(parents)
    modifies parents
    ensures Apart(parents)
    ensures forall i | 0 <= i < |parents| :: Shows(parents[i], retain,
      if i in group.All() then shown[i] + [target.record] else shown[i])
  {
    hide Shows, Apart, Cells;
    ghost var record := target.record;
    ghost var all := group.All();
    ghost var now := shown;
    assert all[0] == group.first && all[0] in all;
    AssignOne(parents, retain, group.first, target, false, now);
    now := now[group.first := now[group.first] + [record]];
    for m := 0 to |group.more|
      invariant target.record == record && |now| == |parents| && Apart(parents)
      invariant forall i | 0 <= i < |parents| :: Shows(parents[i], retain, now[i])
      invariant forall i | 0 <= i < |parents| :: now[i] == if i in all[..m + 1] then shown[i] + [record] else shown[i]
    {
      assert all[m + 1] == group.more[m] && all[m + 1] in all;
      assert all[m + 1] !in all[..m + 1];
      AssignOne(parents, retain, group.more[m], target, true, now);
      now := now[group.more[m] := now[group.more[m]] + [record]];
      assert all[..m + 2] == all[..m + 1] + [all[m + 1]];
    }
    assert all[..|group.more| + 1] == all;
  }

  method NewTarget(record: Record, ghost parents: seq<Parent>) returns (target: Cell)
    ensures fresh(target) && target.record == record && target !in Cells(parents)
  {
    target := new Cell(record);
  }

  /** The target that value slices share is scanned into again; what was copied out of it stays. */
  method ScanScratch(scratch: Cell, record: Record, parents: seq<Parent>, ghost shown: seq<seq<Record>>)
    requires |shown| == |parents| && forall i | 0 <= i < |parents| :: Shows(parents[i], false, shown[i])
    modifies scratch
    ensures scratch.record == record && forall i | 0 <= i < |parents| :: Shows(parents[i], false, shown[i])
  {
    scratch.record := record;
  }

  ghost function ShownBy(parents: seq<Parent>, rows: seq<Loaded>): (shown: seq<seq<Record>>)
    ensures |shown| == |parents| && forall i | 0 <= i < |parents| :: shown[i] == ReceivedBy(rows, parents[i].key)
  {
    seq(|parents|, i requires 0 <= i < |parents| => ReceivedBy(rows, parents[i].key))
  }

  lemma LookupIs(key: seq<Native>)
    ensures LookupOf(key) == if HasNull(key) then None else Some(TupleKey(key))
  {
  }

  lemma GroupFits(parents: seq<Parent>, indexes: map<LookupKey, ParentIndexes>, k: LookupKey)
    requires Groups(parents, |parents|, indexes) && k in indexes
    ensures Increasing(indexes[k].All()) && forall i <- indexes[k].All() :: i < |parents|
  {
    hide LookupOf;
  }

  lemma LastRow(rows: seq<Loaded>, row: Loaded, key: seq<Native>)
    ensures ReceivedBy(rows + [row], key) ==
      ReceivedBy(rows, key) + if LookupOf(key).Some? && LookupOf(row.key) == LookupOf(key) then [row.record] else []
  {
    hide LookupOf;
    assert (rows + [row])[..|rows|] == rows;
  }

  lemma RowSkipped(parents: seq<Parent>, indexes: map<LookupKey, ParentIndexes>, rows: seq<Loaded>, row: Loaded)
    requires Groups(parents, |parents|, indexes)
    requires LookupOf(row.key).None? || LookupOf(row.key).value !in indexes
    ensures forall i | 0 <= i < |parents| :: ReceivedBy(rows + [row], parents[i].key) == ReceivedBy(rows,
      parents[i].key)
  {
    hide LookupOf, ReceivedBy;
    forall i | 0 <= i < |parents|
      ensures ReceivedBy(rows + [row], parents[i].key) == ReceivedBy(rows, parents[i].key)
    {
      LastRow(rows, row, parents[i].key);
    }
  }

  lemma RowReceived(parents: seq<Parent>, indexes: map<LookupKey, ParentIndexes>, rows: seq<Loaded>, row: Loaded)
    requires Groups(parents, |parents|, indexes)
    requires LookupOf(row.key).Some? && LookupOf(row.key).value in indexes
    ensures forall i | 0 <= i < |parents| ::
      var before, after := ReceivedBy(rows, parents[i].key), ReceivedBy(rows + [row], parents[i].key);
      after == if i in indexes[LookupOf(row.key).value].All() then before + [row.record] else before
  {
    hide LookupOf, ReceivedBy;
    forall i | 0 <= i < |parents|
      ensures var before, after := ReceivedBy(rows, parents[i].key), ReceivedBy(rows + [row], parents[i].key);
        after == if i in indexes[LookupOf(row.key).value].All() then before + [row.record] else before
    {
      LastRow(rows, row, parents[i].key);
    }
  }

  /** Reads the rows of one statement. In a batch a row without a key, or with one no parent has, is an error;
      when everything was read it is skipped. */
  method HydratePreloadBatch(plan: PreloadPlan, parents: seq<Parent>, indexes: map<LookupKey, ParentIndexes>,
    rows: seq<Loaded>, ghost seen: seq<Loaded>)
    returns (error: Option<HydrateError>)
    requires DistinctParents(parents) && Groups(parents, |parents|, indexes)
    requires forall row <- rows :: |row.key| > 0
    requires (forall i | 0 <= i < |parents| :: Shows(parents[i], plan.retain, ReceivedBy(seen, parents[i].key)))
    requires Apart(parents)
    modifies parents
    ensures error.None? <==>
      plan.loadAll || forall row <- rows :: LookupOf(row.key).Some? && LookupOf(row.key).value in indexes
    ensures error.None? ==> Apart(parents)
    ensures error.None? ==> forall i | 0 <= i < |parents| :: Shows(parents[i], plan.retain,
      ReceivedBy(seen + rows, parents[i].key))
  {
    hide Shows, Apart, Cells, TupleKey, HasNull, LookupOf, Groups, ReceivedBy;
    var scratch := new Cell(Record([]));
    assert seen + rows[..0] == seen;
    for n := 0 to |rows|
      invariant Apart(parents)
      invariant forall i | 0 <= i < |parents| :: Shows(parents[i], plan.retain,
        ReceivedBy(seen + rows[..n], parents[i].key))
      invariant plan.loadAll || forall i | 0 <= i < n ::
        LookupOf(rows[i].key).Some? && LookupOf(rows[i].key).value in indexes
    {
      assert rows[n] in rows;
      var target := scratch;
      ghost var shown := ShownBy(parents, seen + rows[..n]);
      if plan.retain {
        target := NewTarget(rows[n].record, parents);
      } else {
        ScanScratch(scratch, rows[n].record, parents, shown);
      }
      var lookup := ModelKey(rows[n].key);
      LookupIs(rows[n].key);
      assert seen + rows[..n + 1] == seen + rows[..n] + [rows[n]];
      if lookup.None? || lookup.value !in indexes {
        if !plan.loadAll {
          return Some(if lookup.None? then NullKey else UnrequestedKey);
        }
        RowSkipped(parents, indexes, seen + rows[..n], rows[n]);
      } else {
        GroupFits(parents, indexes, lookup.value);
        AssignToGroup(parents, plan.retain, indexes[lookup.value], target, shown);
        RowReceived(parents, indexes, seen + rows[..n], rows[n]);
      }
    }
    assert rows[..|rows|] == rows;
    error := None;
  }

  // ---- the statements of one relation ----

  function Flat<T>(parts: seq<seq<T>>): seq<T> {
    if |parts| == 0 then [] else Flat(parts[..|parts| - 1]) + parts[|parts| - 1]
  }

  lemma FlatGrows<T>(parts: seq<seq<T>>, part: seq<T>)
    ensures Flat(parts + [part]) == Flat(parts) + part
  {
    assert (parts + [part])[..|parts|] == parts;
  }

  /** The different keys of the parents, each once. */
  ghost predicate KeysOf(parents: seq<Parent>, keys: seq<seq<Native>>) {
    && (forall i, j | 0 <= i < j < |keys| :: LookupOf(keys[i]) != LookupOf(keys[j]))
    && (forall p <- parents :: LookupOf(p.key).Some? ==> exists k <- keys :: LookupOf(k) == LookupOf(p.key))
    && forall k <- keys :: exists p <- parents :: LookupOf(k) == LookupOf(p.key)
  }

  datatype PreloadError = QueryFailed | Unusable(error: HydrateError)

  /** Each row of a statement belongs to some parent, or is allowed not to. */
  ghost predicate Usable(plan: PreloadPlan, parents: seq<Parent>, rows: seq<Loaded>) {
    plan.loadAll || forall row <- rows ::
      LookupOf(row.key).Some? && exists p <- parents :: LookupOf(p.key) == LookupOf(row.key)
  }

  lemma InSomeGroup(parents: seq<Parent>, indexes: map<LookupKey, ParentIndexes>, k: LookupKey)
    requires Groups(parents, |parents|, indexes)
    ensures k in indexes <==> exists p <- parents :: LookupOf(p.key) == Some(k)
  {
    hide LookupOf;
    if k in indexes {
      assert indexes[k].All()[0] in indexes[k].All();
      assert parents[indexes[k].first] in parents;
    }
    if p :| p in parents && LookupOf(p.key) == Some(k) {
      var i :| 0 <= i < |parents| && parents[i] == p;
    }
  }

  lemma UsableIs(plan: PreloadPlan, parents: seq<Parent>, indexes: map<LookupKey, ParentIndexes>, rows: seq<Loaded>)
    requires Groups(parents, |parents|, indexes)
    ensures Usable(plan, parents, rows) <==>
      (plan.loadAll || forall row <- rows :: LookupOf(row.key).Some? && LookupOf(row.key).value in indexes)
  {
    hide LookupOf, Groups;
    forall row <- rows | LookupOf(row.key).Some?
      ensures LookupOf(row.key).value in indexes <==> exists p <- parents :: LookupOf(p.key) == LookupOf(row.key)
    {
      InSomeGroup(parents, indexes, LookupOf(row.key).value);
    }
  }

  /** Loads one relation: one statement for everything, or one a batch of keys. `answers` are the results of
      the statements in turn, None for a query that fails; `asked` returns the keys of each statement sent. */
  method ExecutePreloadPlan(plan: PreloadPlan, parents: seq<Parent>, answers: seq<Option<seq<Loaded>>>)
    returns (error: Option<PreloadError>, asked: seq<seq<seq<Native>>>, ghost got: seq<seq<Loaded>>,
      ghost keys: seq<seq<Native>>)
    requires DistinctParents(parents) && plan.keyWidth > 0 && |answers| > |parents|
    requires forall p <- parents :: |p.key| > 0
    requires forall a <- answers | a.Some? :: forall row <- a.value :: |row.key| > 0
    modifies parents
    ensures |asked| <= |answers| && |got| <= |asked|
    ensures forall i | 0 <= i < |got| :: answers[i] == Some(got[i])
    ensures plan.loadAll ==> |asked| <= 1 && (|asked| == 0 ==> forall p <- parents :: LookupOf(p.key).None?)
    ensures !plan.loadAll ==> forall i | 0 <= i < |asked| :: |asked[i]| <= plan.BatchSize()
    ensures KeysOf(parents, keys) && (!plan.loadAll ==> Flat(asked) <= keys)
    ensures (forall i | 0 <= i < |asked| :: answers[i].Some? && Usable(plan, parents, answers[i].value)) ==> error.None?
    ensures error.None? ==> |got| == |asked| && Apart(parents) && (!plan.loadAll ==> Flat(asked) == keys)
    ensures error.None? ==>
      forall i | 0 <= i < |parents| :: Shows(parents[i], plan.retain, ReceivedBy(Flat(got), parents[i].key))
  {
    hide Shows, Apart, LookupOf, Groups, AsksOnce, KeysOf, ReceivedBy, Usable, PreloadPlan.BatchSize, DistinctParents;
    var ks, indexes := PreparePreloadParents(parents);
    keys := ks;
    KeysAsk(parents, ks, indexes);
    EmptyShows(parents, plan.retain);
    asked, got := [], [];
    if plan.loadAll {
      if |indexes| != 0 {
        asked := [[]];
        assert answers[0] in answers;
        error, got := RunStatement(plan, parents, indexes, answers[0], [], []);
      } else {
        NoneIndexed(parents, indexes);
        error := None;
      }
      return;
    }
    KeysFew(parents, ks);
    error, asked, got := RunBatches(plan, parents, indexes, ks, answers);
  }

  /** One statement a batch of keys. */
  method RunBatches(plan: PreloadPlan, parents: seq<Parent>, indexes: map<LookupKey, ParentIndexes>,
    keys: seq<seq<Native>>,
    answers: seq<Option<seq<Loaded>>>)
    returns (error: Option<PreloadError>, asked: seq<seq<seq<Native>>>, ghost got: seq<seq<Loaded>>)
    requires DistinctParents(parents) && Groups(parents, |parents|, indexes) && plan.keyWidth > 0 && |keys| < |answers|
    requires forall a <- answers | a.Some? :: forall row <- a.value :: |row.key| > 0
    requires (forall i | 0 <= i < |parents| :: Shows(parents[i], plan.retain, ReceivedBy([], parents[i].key)))
    requires Apart(parents)
    modifies parents
    ensures |got| <= |asked| <= |answers| && Flat(asked) <= keys
    ensures forall i | 0 <= i < |asked| :: |asked[i]| <= plan.BatchSize()
    ensures forall i | 0 <= i < |got| :: answers[i] == Some(got[i])
    ensures error.None? <==> forall i | 0 <= i < |asked| :: answers[i].Some? && Usable(plan, parents, answers[i].value)
    ensures error.None? ==> |got| == |asked| && Flat(asked) == keys && Apart(parents)
    ensures error.None? ==>
      forall i | 0 <= i < |parents| :: Shows(parents[i], plan.retain, ReceivedBy(Flat(got), parents[i].key))
  {
    hide Shows, Apart, LookupOf, Groups, ReceivedBy, Usable, PreloadPlan.BatchSize, DistinctParents;
    asked, got := [], [];
    var start, size := 0, plan.BatchSize();
    while start < |keys|
      invariant |asked| == |got| <= start <= |keys| && Flat(asked) == keys[..start]
      invariant forall i | 0 <= i < |asked| :: |asked[i]| <= size
      invariant forall i | 0 <= i < |got| :: answers[i] == Some(got[i])
      invariant forall i | 0 <= i < |asked| :: answers[i].Some? && Usable(plan, parents, answers[i].value)
      invariant Apart(parents)
      invariant forall i | 0 <= i < |parents| :: Shows(parents[i], plan.retain, ReceivedBy(Flat(got), parents[i].key))
    {
      var end := if start + size < |keys| then start + size else |keys|;
      var answer := answers[|asked|];
      assert answer in answers;
      FlatGrows(asked, keys[start..end]);
      asked := asked + [keys[start..end]];
      assert keys[..start] + keys[start..end] == keys[..end];
      error, got := RunStatement(plan, parents, indexes, answer, Flat(got), got);
      if error.Some? {
        return;
      }
      start := end;
    }
    assert keys[..|keys|] == keys;
    error := None;
  }

  /** Sends one statement and hydrates its rows. */
  method RunStatement(plan: PreloadPlan, parents: seq<Parent>, indexes: map<LookupKey, ParentIndexes>,
    answer: Option<seq<Loaded>>, ghost seen: seq<Loaded>, ghost got0: seq<seq<Loaded>>)
    returns (error: Option<PreloadError>, ghost got: seq<seq<Loaded>>)
    requires DistinctParents(parents) && Groups(parents, |parents|, indexes) && seen == Flat(got0)
    requires answer.Some? ==> forall row <- answer.value :: |row.key| > 0
    requires (forall i | 0 <= i < |parents| :: Shows(parents[i], plan.retain, ReceivedBy(seen, parents[i].key)))
    requires Apart(parents)
    modifies parents
    ensures error.None? <==> answer.Some? && Usable(plan, parents, answer.value)
    ensures got == if error.None? then got0 + [answer.value] else got0
    ensures error.None? ==> Apart(parents)
    ensures error.None? ==>
      forall i | 0 <= i < |parents| :: Shows(parents[i], plan.retain, ReceivedBy(Flat(got), parents[i].key))
  {
    hide Shows, Apart, LookupOf, Groups, ReceivedBy, Usable;
    got := got0;
    if answer.None? {
      return Some(QueryFailed), got;
    }
    UsableIs(plan, parents, indexes, answer.value);
    var unusable := HydratePreloadBatch(plan, parents, indexes, answer.value, seen);
    if unusable.Some? {
      return Some(Unusable(unusable.value)), got;
    }
    FlatGrows(got0, answer.value);
    got := got0 + [answer.value];
    error := None;
  }

  lemma KeysAsk(parents: seq<Parent>, keys: seq<seq<Native>>, indexes: map<LookupKey, ParentIndexes>)
    requires Groups(parents, |parents|, indexes) && AsksOnce(keys, indexes)
    ensures KeysOf(parents, keys)
  {
    hide LookupOf, Groups;
    forall p <- parents | LookupOf(p.key).Some?
      ensures exists k <- keys :: LookupOf(k) == LookupOf(p.key)
    {
      InSomeGroup(parents, indexes, LookupOf(p.key).value);
      var i :| 0 <= i < |keys| && LookupOf(keys[i]) == LookupOf(p.key);
      assert keys[i] in keys;
    }
    forall k <- keys
      ensures exists p <- parents :: LookupOf(k) == LookupOf(p.key)
    {
      var i :| 0 <= i < |keys| && keys[i] == k;
      InSomeGroup(parents, indexes, LookupOf(k).value);
    }
  }

  lemma NoneIndexed(parents: seq<Parent>, indexes: map<LookupKey, ParentIndexes>)
    requires Groups(parents, |parents|, indexes) && |indexes| == 0
    ensures forall p <- parents :: LookupOf(p.key).None?
  {
    hide LookupOf;
    assert indexes == map[];
  }

  lemma EmptyShows(parents: seq<Parent>, retain: bool)
    requires forall i | 0 <= i < |parents| :: parents[i].pointers == [] && parents[i].values == []
    ensures Apart(parents) && Flat<Loaded>([]) == []
    ensures forall i | 0 <= i < |parents| :: Shows(parents[i], retain, ReceivedBy([], parents[i].key))
  {
  }

  /** There are no more keys than parents. */
  lemma KeysFew(parents: seq<Parent>, keys: seq<seq<Native>>)
    requires KeysOf(parents, keys)
    ensures |keys| <= |parents|
  {
    FewKeys(parents, keys);
  }

  lemma FewKeys(parents: seq<Parent>, keys: seq<seq<Native>>)
    requires forall i, j | 0 <= i < j < |keys| :: LookupOf(keys[i]) != LookupOf(keys[j])
    requires forall k <- keys :: exists p <- parents :: LookupOf(k) == LookupOf(p.key)
    ensures |keys| <= |parents|
  {
    hide LookupOf;
    if |keys| > 0 {
      var last := keys[|keys| - 1];
      var p :| p in parents && LookupOf(last) == LookupOf(p.key);
      var at :| 0 <= at < |parents| && parents[at] == p;
      var others := parents[..at] + parents[at + 1..];
      forall k <- keys[..|keys| - 1]
        ensures exists q <- others :: LookupOf(k) == LookupOf(q.key)
      {
        assert k in keys;
        var q :| q in parents && LookupOf(k) == LookupOf(q.key);
        var i :| 0 <= i < |parents| && parents[i] == q;
        var z :| 0 <= z < |keys| - 1 && keys[z] == k;
        assert i != at;
        assert if i < at then others[i] == q else others[i - 1] == q;
      }
      FewKeys(others, keys[..|keys| - 1]);
    }
  }

  // ---- batches and reading everything agree ----

  ghost predicate AsksFor(keys: seq<seq<Native>>, k: LookupKey) {
    exists key <- keys :: LookupOf(key) == Some(k)
  }

  /** What the database returns for a batch of keys out of all rows of the relation, in their order. */
  ghost function RowsFor(all: seq<Loaded>, keys: seq<seq<Native>>): seq<Loaded> {
    if |all| == 0 then []
    else
      var last := all[|all| - 1];
      RowsFor(all[..|all| - 1], keys) +
      if LookupOf(last.key).Some? && AsksFor(keys, LookupOf(last.key).value) then [last] else []
  }

  lemma {:induction false} ReceivedJoins(a: seq<Loaded>, b: seq<Loaded>, k: LookupKey)
    ensures Received(a + b, k) == Received(a, k) + Received(b, k)
  {
    if |b| == 0 {
      assert a + b == a;
    } else {
      ReceivedJoins(a, b[..|b| - 1], k);
      assert (a + b)[..|a + b| - 1] == a + b[..|b| - 1];
    }
  }

  lemma {:induction false} ReceivedRowsFor(all: seq<Loaded>, keys: seq<seq<Native>>, k: LookupKey)
    ensures Received(RowsFor(all, keys), k) == if AsksFor(keys, k) then Received(all, k) else []
  {
    hide LookupOf, AsksFor;
    if |all| > 0 {
      var front, last := all[..|all| - 1], all[|all| - 1];
      ReceivedRowsFor(front, keys, k);
      var more := if LookupOf(last.key).Some? && AsksFor(keys, LookupOf(last.key).value) then [last] else [];
      ReceivedJoins(RowsFor(front, keys), more, k);
    }
  }

  /** Whatever the batch size, the batches together give each key the rows that reading everything gives it. */
  lemma {:induction false} BatchesReceive(all: seq<Loaded>, asked: seq<seq<seq<Native>>>,
    got: seq<seq<Loaded>>, k: LookupKey)
    requires |got| == |asked| && forall i | 0 <= i < |asked| :: got[i] == RowsFor(all, asked[i])
    requires forall i, j | 0 <= i < j < |Flat(asked)| :: LookupOf(Flat(asked)[i]) != LookupOf(Flat(asked)[j])
    ensures Received(Flat(got), k) == if AsksFor(Flat(asked), k) then Received(all, k) else []
  {
    hide LookupOf, RowsFor;
    if |asked| > 0 {
      var n := |asked| - 1;
      var front, last := Flat(asked[..n]), asked[n];
      forall i, j | 0 <= i < j < |front|
        ensures LookupOf(front[i]) != LookupOf(front[j])
      {
        assert Flat(asked)[i] == front[i] && Flat(asked)[j] == front[j];
      }
      BatchesReceive(all, asked[..n], got[..n], k);
      ReceivedJoins(Flat(got[..n]), got[n], k);
      ReceivedRowsFor(all, last, k);
      assert Flat(asked) == front + last;
      AskedOnce(front, last, k);
    }
  }

  lemma AskedOnce(front: seq<seq<Native>>, last: seq<seq<Native>>, k: LookupKey)
    requires forall i, j | 0 <= i < j < |front + last| :: LookupOf((front + last)[i]) != LookupOf((front + last)[j])
    ensures AsksFor(front + last, k) <==> AsksFor(front, k) || AsksFor(last, k)
    ensures !(AsksFor(front, k) && AsksFor(last, k))
  {
    hide LookupOf;
    forall a, b | 0 <= a < |front| && 0 <= b < |last|
      ensures LookupOf(front[a]) != LookupOf(last[b])
    {
      assert (front + last)[a] == front[a] && (front + last)[|front| + b] == last[b];
    }
    forall key
      ensures key in front + last <==> key in front || key in last
    {
    }
  }

  /** The keyed batches and the single statement leave every parent with the same records, in the same order:
      those of the rows with its key. */
  lemma BatchesAgreeWithLoadAll(
    parents: seq<Parent>, all: seq<Loaded>, keys: seq<seq<Native>>, asked: seq<seq<seq<Native>>>,
      got: seq<seq<Loaded>>, i: nat)
    requires KeysOf(parents, keys) && Flat(asked) == keys && i < |parents|
    requires |got| == |asked| && forall j | 0 <= j < |asked| :: got[j] == RowsFor(all, asked[j])
    ensures ReceivedBy(Flat(got), parents[i].key) == ReceivedBy(all, parents[i].key)
      == ReceivedBy(Flat([all]), parents[i].key)
  {
    hide LookupOf, RowsFor;
    assert Flat([all]) == all by { assert [all][..0] == []; assert Flat<Loaded>([]) == []; }
    assert parents[i] in parents;
    if LookupOf(parents[i].key).Some? {
      BatchesReceive(all, asked, got, LookupOf(parents[i].key).value);
    }
  }

  /** The answer to a batch is always usable. */
  lemma {:induction false} AnswersAreUsable(plan: PreloadPlan, parents: seq<Parent>, all: seq<Loaded>,
    keys: seq<seq<Native>>, batch: seq<seq<Native>>)
    requires KeysOf(parents, keys) && forall k <- batch :: k in keys
    ensures Usable(plan, parents, RowsFor(all, batch))
  {
    hide LookupOf;
    if |all| > 0 {
      AnswersAreUsable(plan, parents, all[..|all| - 1], keys, batch);
    }
  }

  /** A row goes to a parent exactly when their keys agree component by component. */
  lemma SameLookupIffSameKey(a: seq<Native>, b: seq<Native>)
    requires TupleValid(a) && TupleValid(b) && |a| == |b| > 0 && !HasNull(a) && !HasNull(b)
    ensures LookupOf(a).Some? && (LookupOf(a) == LookupOf(b) <==> SameTuple(a, b))
  {
    hide TupleKey, SameTuple;
    TupleKeyExact(a, b);
  }
}
