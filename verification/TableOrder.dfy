/** Ordering the tables of a snapshot so that foreign keys refer back (migrate/snapshot.go:192-232). */
module TableOrder {
  import opened SqlValues

  /** Tables by key, with the tables their foreign keys refer to. */
  type Tables = map<string, seq<string>>

  // ---- sorting names ----

  function InsertName(name: string, names: seq<string>): seq<string> {
    if |names| == 0 || LessText(name, names[0]) then [name] + names else [names[0]] + InsertName(name, names[1..])
  }

  function SortNames(names: seq<string>): seq<string> {
    if |names| == 0 then [] else InsertName(names[0], SortNames(names[1..]))
  }

  predicate Ascending(names: seq<string>) {
    forall i, j | 0 <= i < j < |names| :: LessText(names[i], names[j])
  }

  lemma {:induction false} InsertIn(name: string, names: seq<string>)
    ensures forall x :: x in InsertName(name, names) <==> x == name || x in names
  {
    if |names| > 0 && !LessText(name, names[0]) {
      InsertIn(name, names[1..]);
    }
  }

  lemma {:induction false} SortIn(names: seq<string>)
    ensures forall x :: x in SortNames(names) <==> x in names
  {
    if |names| > 0 {
      SortIn(names[1..]);
      InsertIn(names[0], SortNames(names[1..]));
    }
  }

  lemma {:induction false} InsertAscends(name: string, names: seq<string>)
    requires Ascending(names) && name !in names
    ensures Ascending(InsertName(name, names))
  {
    hide LessText;
    if |names| == 0 {
    } else if LessText(name, names[0]) {
      forall j | 0 <= j < |names|
        ensures LessText(name, names[j])
      {
        if j > 0 { LessTextTransitive(name, names[0], names[j]); }
      }
    } else {
      InsertAscends(name, names[1..]);
      InsertIn(name, names[1..]);
      LessTextTotal(name, names[0]);
      var tail := InsertName(name, names[1..]);
      forall j | 0 <= j < |tail|
        ensures LessText(names[0], tail[j])
      {
        assert tail[j] in tail;
      }
    }
  }

  predicate NoDuplicates(names: seq<string>) {
    forall i, j | 0 <= i < j < |names| :: names[i] != names[j]
  }

  lemma {:induction false} SortAscends(names: seq<string>)
    requires NoDuplicates(names)
    ensures Ascending(SortNames(names))
  {
    if |names| > 0 {
      SortAscends(names[1..]);
      SortIn(names[1..]);
      InsertAscends(names[0], SortNames(names[1..]));
    }
  }

  /** A set of names has one ascending list. */
  lemma {:induction false} AscendingUnique(a: seq<string>, b: seq<string>)
    requires Ascending(a) && Ascending(b) && forall x :: x in a <==> x in b
    ensures a == b
  {
    hide LessText;
    assert |a| > 0 ==> a[0] in b;
    assert |b| > 0 ==> b[0] in a;
    if |a| > 0 && |b| > 0 {
      SameFirst(a, b);
      forall x
        ensures x in a[1..] <==> x in b[1..]
      {
        RestIn(a, x);
        RestIn(b, x);
      }
      AscendingUnique(a[1..], b[1..]);
      assert a == [a[0]] + a[1..] && b == [b[0]] + b[1..];
    }
  }

  lemma RestIn(names: seq<string>, x: string)
    requires |names| > 0 && Ascending(names)
    ensures x in names[1..] <==> x in names && x != names[0]
  {
    hide LessText;
    if x in names[1..] {
      var i :| 0 < i < |names| && names[i] == x;
      LessTextTotal(names[0], names[i]);
    }
  }

  lemma SameFirst(a: seq<string>, b: seq<string>)
    requires Ascending(a) && Ascending(b) && |a| > 0 && |b| > 0 && a[0] in b && b[0] in a
    ensures a[0] == b[0]
  {
    hide LessText;
    var i :| 0 <= i < |b| && b[i] == a[0];
    var j :| 0 <= j < |a| && a[j] == b[0];
    LessTextTotal(a[0], b[0]);
    LessTextTotal(b[0], a[0]);
  }

  // ---- the depth-first search ----

  datatype Progress = Progress(open: set<string>, done: seq<string>)

  datatype Outcome = Ordered(progress: Progress) | Cyclic | Unresolved

  function Without(names: seq<string>, name: string): (r: seq<string>)
    ensures forall x :: x in r <==> x in names && x != name
  {
    if |names| == 0 then []
    else (if names[0] == name then [] else [names[0]]) + Without(names[1..], name)
  }

  /** The other tables a table refers to, ascending. */
  function Needs(tables: Tables, key: string): (r: seq<string>)
    requires key in tables
  {
    Without(SortNames(tables[key]), key)
  }

  function Visit(tables: Tables, key: string, p: Progress): (o: Outcome)
    requires p.open <= tables.Keys
    ensures o.Ordered? ==> o.progress.open == p.open
    decreases |tables.Keys - p.open|, 0
  {
    if key in p.done then Ordered(p)
    else if key in p.open then Cyclic
    else if key !in tables then Unresolved
    else
      assert tables.Keys - (p.open + {key}) < tables.Keys - p.open by { assert key in tables.Keys - p.open; }
      Fewer(tables.Keys - (p.open + {key}), tables.Keys - p.open);
      var inner := VisitAll(tables, Needs(tables, key), Progress(p.open + {key}, p.done));
      if inner.Ordered? then Ordered(Progress(p.open, inner.progress.done + [key])) else inner
  }

  function VisitAll(tables: Tables, keys: seq<string>, p: Progress): (o: Outcome)
    requires p.open <= tables.Keys
    ensures o.Ordered? ==> o.progress.open == p.open
    decreases |tables.Keys - p.open|, 1 + |keys|
  {
    if |keys| == 0 then Ordered(p)
    else
      var first := Visit(tables, keys[0], p);
      if first.Ordered? then VisitAll(tables, keys[1..], first.progress) else first
  }

  lemma Fewer(a: set<string>, b: set<string>)
    requires a < b
    ensures |a| < |b|
  {
    assert b == a + (b - a);
    assert |b| == |a| + |b - a|;
    assert b - a != {};
  }

  /** The order of a table set: its keys are visited in ascending order. */
  ghost predicate IsKeys(keys: seq<string>, tables: Tables) {
    Ascending(keys) && forall k :: k in keys <==> k in tables
  }

  function Order(tables: Tables, keys: seq<string>): Outcome {
    VisitAll(tables, keys, Progress({}, []))
  }

  // ---- what an order is ----

  ghost predicate RefersTo(tables: Tables, a: string, b: string) {
    a in tables && b in tables[a] && a != b
  }

  /** Every table that a finished table needs is finished before it. */
  ghost predicate Backward(tables: Tables, done: seq<string>) {
    forall i, b | 0 <= i < |done| && RefersTo(tables, done[i], b) :: b in done[..i]
  }

  ghost predicate Sound(tables: Tables, p: Progress) {
    && NoDuplicates(p.done) && Backward(tables, p.done)
    && forall k <- p.done :: k in tables && k !in p.open
  }

  ghost predicate Path(tables: Tables, path: seq<string>) {
    forall i | 0 <= i < |path| - 1 :: RefersTo(tables, path[i], path[i + 1])
  }

  /** Tables that refer to one another in a ring; a table that only refers to itself is none. */
  ghost predicate HasCycle(tables: Tables) {
    exists path :: |path| >= 2 && Path(tables, path) && path[0] == path[|path| - 1]
  }

  ghost predicate Resolved(tables: Tables) {
    forall a, b | RefersTo(tables, a, b) :: b in tables
  }

  lemma NeedsIn(tables: Tables, key: string)
    requires key in tables
    ensures forall b :: b in Needs(tables, key) <==> RefersTo(tables, key, b)
  {
    SortIn(tables[key]);
  }

  /** A visit keeps the finished tables sound and finishes its table; what was finished stays in front. */
  lemma {:induction false} VisitSound(tables: Tables, key: string, p: Progress)
    requires p.open <= tables.Keys && Sound(tables, p) && Visit(tables, key, p).Ordered?
    ensures var q := Visit(tables, key, p).progress; Sound(tables, q) && p.done <= q.done && key in q.done
    decreases |tables.Keys - p.open|, 0
  {
    hide Backward, SortNames;
    if key !in p.done {
      Fewer(tables.Keys - (p.open + {key}), tables.Keys - p.open);
      var inner := Progress(p.open + {key}, p.done);
      VisitAllSound(tables, Needs(tables, key), inner);
      var done := VisitAll(tables, Needs(tables, key), inner).progress.done;
      NeedsIn(tables, key);
      KeyFinished(tables, done, key);
    }
  }

  lemma KeyFinished(tables: Tables, done: seq<string>, key: string)
    requires Backward(tables, done) && forall b | RefersTo(tables, key, b) :: b in done
    ensures Backward(tables, done + [key])
  {
    var more := done + [key];
    forall i, b | 0 <= i < |more| && RefersTo(tables, more[i], b)
      ensures b in more[..i]
    {
      assert i < |done| ==> more[..i] == done[..i];
      assert more[..|done|] == done;
    }
  }

  lemma {:induction false} VisitAllSound(tables: Tables, keys: seq<string>, p: Progress)
    requires p.open <= tables.Keys && Sound(tables, p) && VisitAll(tables, keys, p).Ordered?
    ensures var q := VisitAll(tables, keys, p).progress;
      Sound(tables, q) && p.done <= q.done && forall k <- keys :: k in q.done
    decreases |tables.Keys - p.open|, 1 + |keys|
  {
    hide Visit, Sound;
    if |keys| > 0 {
      VisitSound(tables, keys[0], p);
      VisitAllSound(tables, keys[1..], Visit(tables, keys[0], p).progress);
    }
  }

  /** A failed search has found a missing table or a ring. */
  lemma {:induction false} VisitFails(tables: Tables, key: string, p: Progress, path: seq<string>)
    requires p.open <= tables.Keys && Path(tables, path) && (forall k :: k in p.open <==> k in path)
    requires path != [] ==> RefersTo(tables, path[|path| - 1], key)
    requires path == [] ==> key in tables
    ensures Visit(tables, key, p).Cyclic? ==> HasCycle(tables)
    ensures Visit(tables, key, p).Unresolved? ==> !Resolved(tables)
    decreases |tables.Keys - p.open|, 0
  {
    hide HasCycle, Resolved, Path, RefersTo, Needs, Visit, VisitAll;
    VisitUnfolds(tables, key, p);
    if key in p.done {
    } else if key in p.open {
      var i :| 0 <= i < |path| && path[i] == key;
      CycleFrom(tables, path, i, key);
    } else if key in tables {
      Fewer(tables.Keys - (p.open + {key}), tables.Keys - p.open);
      NeedsIn(tables, key);
      PathGrows(tables, path, key);
      VisitAllFails(tables, Needs(tables, key), Progress(p.open + {key}, p.done), path + [key]);
    } else {
      Missing(tables, path, key);
    }
  }

  lemma VisitUnfolds(tables: Tables, key: string, p: Progress)
    requires p.open <= tables.Keys
    ensures key in p.done ==> Visit(tables, key, p).Ordered?
    ensures key !in p.done && key !in p.open && key !in tables ==> Visit(tables, key, p) == Unresolved
    ensures key !in p.done && key in p.open ==> Visit(tables, key, p) == Cyclic
    ensures key !in p.done && key !in p.open && key in tables ==>
      var inner := VisitAll(tables, Needs(tables, key), Progress(p.open + {key}, p.done));
      && (Visit(tables, key, p).Cyclic? <==>
        inner.Cyclic?) && (Visit(tables, key, p).Unresolved? <==> inner.Unresolved?)
  {
    hide VisitAll, Needs;
  }

  lemma PathGrows(tables: Tables, path: seq<string>, key: string)
    requires Path(tables, path) && (path != [] ==> RefersTo(tables, path[|path| - 1], key))
    ensures Path(tables, path + [key])
  {
  }

  lemma Missing(tables: Tables, path: seq<string>, key: string)
    requires key !in tables && (path != [] ==> RefersTo(tables, path[|path| - 1], key))
    requires (path == [] ==> key in tables)
    ensures !Resolved(tables)
  {
  }

  lemma CycleFrom(tables: Tables, path: seq<string>, i: nat, key: string)
    requires Path(tables, path) && i < |path| && path[i] == key && RefersTo(tables, path[|path| - 1], key)
    ensures HasCycle(tables)
  {
    var ring := path[i..] + [key];
    assert Path(tables, ring);
    assert ring[0] == ring[|ring| - 1];
  }

  lemma {:induction false} VisitAllFails(tables: Tables, keys: seq<string>, p: Progress, path: seq<string>)
    requires p.open <= tables.Keys && Path(tables, path) && (forall k :: k in p.open <==> k in path)
    requires forall k <- keys :: if path == [] then k in tables else RefersTo(tables, path[|path| - 1], k)
    ensures VisitAll(tables, keys, p).Cyclic? ==> HasCycle(tables)
    ensures VisitAll(tables, keys, p).Unresolved? ==> !Resolved(tables)
    decreases |tables.Keys - p.open|, 1 + |keys|
  {
    hide Visit, HasCycle, Resolved, Path, RefersTo;
    if |keys| > 0 {
      assert keys[0] in keys && forall k <- keys[1..] :: k in keys;
      VisitFails(tables, keys[0], p, path);
      if Visit(tables, keys[0], p).Ordered? {
        VisitAllFails(tables, keys[1..], Visit(tables, keys[0], p).progress, path);
      }
    }
  }

  /** In an order every step along references goes further back, so there is no ring. */
  lemma {:induction false} BackwardGoesBack(tables: Tables, done: seq<string>, path: seq<string>, i: nat, j: nat)
    requires NoDuplicates(done) && Backward(tables, done) && Path(tables, path) && |path| >= 2
    requires i < |done| && j < |done| && done[i] == path[0] && done[j] == path[|path| - 1]
    ensures j < i
  {
    assert RefersTo(tables, path[0], path[1]);
    var k :| 0 <= k < i && done[..i][k] == path[1];
    if |path| > 2 {
      assert Path(tables, path[1..]);
      BackwardGoesBack(tables, done, path[1..], k, j);
    }
  }

  /** The search succeeds exactly when every reference resolves and no tables refer to one another in a ring;
      then it lists each table once, after the tables it needs. */
  lemma OrderExact(tables: Tables, keys: seq<string>)
    requires IsKeys(keys, tables)
    ensures Order(tables, keys).Ordered? <==> Resolved(tables) && !HasCycle(tables)
    ensures Order(tables, keys).Ordered? ==>
      var done := Order(tables, keys).progress.done;
      NoDuplicates(done) && (forall k :: k in done <==> k in tables) && Backward(tables, done)
  {
    hide VisitAll;
    VisitAllFails(tables, keys, Progress({}, []), []);
    if Order(tables, keys).Ordered? {
      VisitAllSound(tables, keys, Progress({}, []));
      var done := Order(tables, keys).progress.done;
      forall a, b | RefersTo(tables, a, b)
        ensures b in tables
      {
        var i :| 0 <= i < |done| && done[i] == a;
        assert b in done[..i];
      }
      forall path | |path| >= 2 && Path(tables, path)
        ensures path[0] != path[|path| - 1]
      {
        assert RefersTo(tables, path[0], path[1]);
        if path[0] == path[|path| - 1] {
          var i :| 0 <= i < |done| && done[i] == path[0];
          BackwardGoesBack(tables, done, path, i, i);
        }
      }
    }
  }

  // ---- the search as the program runs it ----

  datatype Mark = Unseen | Open | Done

  function MarkOf(state: map<string, Mark>, key: string): Mark {
    if key in state then state[key] else Unseen
  }

  /** The sorter's state says what the search has open and done. */
  ghost predicate Matches(state: map<string, Mark>, result: seq<string>, p: Progress) {
    result == p.done && forall k ::
      MarkOf(state, k) == if k in p.done then Done else if k in p.open then Open else Unseen
  }

  lemma MarkIs(state: map<string, Mark>, result: seq<string>, p: Progress, key: string)
    requires Matches(state, result, p)
    ensures MarkOf(state, key) == if key in p.done then Done else if key in p.open then Open else Unseen
  {
  }

  lemma Opened(state: map<string, Mark>, result: seq<string>, p: Progress, key: string)
    requires Matches(state, result, p) && key !in p.done
    ensures Matches(state[key := Open], result, Progress(p.open + {key}, p.done))
  {
  }

  lemma Finished(state: map<string, Mark>, result: seq<string>, p: Progress, key: string)
    requires Matches(state, result, p) && key in p.open
    ensures Matches(state[key := Done], result + [key], Progress(p.open - {key}, p.done + [key]))
  {
  }

  class TableSorter {
    const tables: Tables
    var state: map<string, Mark>
    var result: seq<string>

    constructor (tables: Tables)
      ensures this.tables == tables && state == map[] && result == []
    {
      this.tables, state, result := tables, map[], [];
    }

    ghost predicate At(p: Progress)
      reads this
    {
      Matches(state, result, p)
    }

    method VisitTable(key: string, ghost p: Progress) returns (outcome: Outcome)
      requires p.open <= tables.Keys && At(p) && (forall k <- p.done :: k !in p.open) && Sound(tables, p)
      modifies this
      ensures outcome.Ordered? <==> Visit(tables, key, p).Ordered?
      ensures outcome.Cyclic? <==> Visit(tables, key, p).Cyclic?
      ensures Visit(tables, key, p).Ordered? ==> At(Visit(tables, key, p).progress)
      decreases |tables.Keys - p.open|, 0
    {
      hide SortNames, Without, Backward, VisitAll, NoDuplicates, Matches;
      MarkIs(state, result, p, key);
      if MarkOf(state, key) == Done {
        return Ordered(Progress({}, []));
      }
      if MarkOf(state, key) == Open {
        return Cyclic;
      }
      if key !in tables {
        return Unresolved;
      }
      Opened(state, result, p, key);
      state := state[key := Open];
      var dependencies := SortNames(tables[key]);
      Fewer(tables.Keys - (p.open + {key}), tables.Keys - p.open);
      outcome := VisitNeeds(dependencies, key, Progress(p.open + {key}, p.done));
      if !outcome.Ordered? {
        return;
      }
      VisitAllSound(tables, Needs(tables, key), Progress(p.open + {key}, p.done));
      ghost var inner := VisitAll(tables, Needs(tables, key), Progress(p.open + {key}, p.done)).progress;
      Finished(state, result, inner, key);
      assert inner.open - {key} == p.open;
      state := state[key := Done];
      result := result + [key];
    }

    /** The loop over the sorted dependencies, which passes over the table itself. */
    method VisitNeeds(dependencies: seq<string>, key: string, ghost p: Progress) returns (outcome: Outcome)
      requires p.open <= tables.Keys && At(p) && Sound(tables, p)
      modifies this
      ensures var spec := VisitAll(tables, Without(dependencies, key), p);
        && (outcome.Ordered? <==> spec.Ordered?) && (outcome.Cyclic? <==> spec.Cyclic?)
        && (spec.Ordered? ==> At(spec.progress))
      decreases |tables.Keys - p.open|, 1 + |dependencies|
    {
      hide Visit, VisitAll, Without, Sound, TableSorter.At;
      NeedsStep(tables, dependencies, key, p);
      if |dependencies| == 0 {
        return Ordered(Progress({}, []));
      }
      if dependencies[0] != key {
        SoundOpen(tables, p);
        outcome := VisitTable(dependencies[0], p);
        if !outcome.Ordered? {
          return;
        }
        VisitSound(tables, dependencies[0], p);
        outcome := VisitNeeds(dependencies[1..], key, Visit(tables, dependencies[0], p).progress);
      } else {
        outcome := VisitNeeds(dependencies[1..], key, p);
      }
    }
  }

  lemma NeedsStep(tables: Tables, dependencies: seq<string>, key: string, p: Progress)
    requires p.open <= tables.Keys
    ensures VisitAll(tables, Without(dependencies, key), p) ==
      if |dependencies| == 0 then Ordered(p)
      else if dependencies[0] == key then VisitAll(tables, Without(dependencies[1..], key), p)
      else
        var first := Visit(tables, dependencies[0], p);
        if first.Ordered? then VisitAll(tables, Without(dependencies[1..], key), first.progress) else first
  {
    hide Visit;
    if |dependencies| > 0 {
      var rest := Without(dependencies[1..], key);
      if dependencies[0] == key {
        assert Without(dependencies, key) == rest;
      } else {
        assert Without(dependencies, key) == [dependencies[0]] + rest && ([dependencies[0]] + rest)[1..] == rest;
      }
    }
  }

  lemma SoundOpen(tables: Tables, p: Progress)
    requires Sound(tables, p)
    ensures forall k <- p.done :: k !in p.open
  {
  }

  datatype OrderResult = Tables(order: seq<string>) | Failed(cyclic: bool)

  /** Orders the tables. `iteration` is the order in which the map happens to yield its keys; it does not matter. */
  method OrderTables(tables: Tables, iteration: seq<string>) returns (result: OrderResult)
    requires NoDuplicates(iteration) && forall k :: k in iteration <==> k in tables
    ensures forall keys | IsKeys(keys, tables) ::
      match Order(tables, keys)
      case Ordered(progress) => result == OrderResult.Tables(progress.done)
      case Cyclic => result == Failed(true)
      case Unresolved => result == Failed(false)
  {
    hide VisitAll, Visit, SortNames, Sound, TableSorter.At;
    var keys := SortNames(iteration);
    SortIn(iteration);
    SortAscends(iteration);
    forall other | IsKeys(other, tables)
      ensures other == keys
    {
      AscendingUnique(other, keys);
    }
    var sorter := new TableSorter(tables);
    ghost var p := Progress({}, []);
    StartSound(sorter);
    for i := 0 to |keys|
      invariant sorter.tables == tables && p.open == {} && sorter.At(p) && Sound(tables, p)
      invariant VisitAll(tables, keys, Progress({}, [])) == VisitAll(tables, keys[i..], p)
    {
      SoundOpen(tables, p);
      VisitNext(tables, keys, i, p);
      var outcome := sorter.VisitTable(keys[i], p);
      if !outcome.Ordered? {
        return Failed(outcome.Cyclic?);
      }
      VisitSound(tables, keys[i], p);
      p := Visit(tables, keys[i], p).progress;
    }
    VisitNone(tables, keys[|keys|..], p);
    result := OrderResult.Tables(sorter.result);
    DoneAt(sorter, p);
  }

  lemma StartSound(sorter: TableSorter)
    requires sorter.state == map[] && sorter.result == []
    ensures sorter.At(Progress({}, [])) && Sound(sorter.tables, Progress({}, []))
  {
  }

  lemma DoneAt(sorter: TableSorter, p: Progress)
    requires sorter.At(p)
    ensures sorter.result == p.done
  {
  }

  lemma VisitNone(tables: Tables, none: seq<string>, p: Progress)
    requires none == [] && p.open <= tables.Keys
    ensures VisitAll(tables, none, p) == Ordered(p)
  {
  }

  lemma VisitNext(tables: Tables, keys: seq<string>, i: nat, p: Progress)
    requires i < |keys| && p.open <= tables.Keys
    ensures VisitAll(tables, keys[i..], p) ==
      var first := Visit(tables, keys[i], p);
      if first.Ordered? then VisitAll(tables, keys[i + 1..], first.progress) else first
  {
    hide Visit;
    assert keys[i..][0] == keys[i] && keys[i..][1..] == keys[i + 1..];
  }
}
