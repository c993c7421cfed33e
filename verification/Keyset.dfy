/** SeekAfter pagination (orm/keyset.go): which cursors are accepted, the condition that is written,
    and its meaning: strictly after the cursor in the order of the query. */
module Keyset {
  import opened SqlValues
  import opened SqlText
  import opened SqlClause
  import opened Schema
  import opened PredicateMeaning
  import opened Ordering

  datatype Direction = Ascending | Descending | UnknownDirection

  datatype OrderTerm = OrderTerm(field: string, direction: Direction)

  /** One cursor value; an empty field name is not checked against ORDER BY. */
  datatype CursorValue = CursorValue(field: string, value: Argument, isNull: bool)

  /** The compiler's test for a field whose column may be NULL. */
  function CursorFieldCanBeNull(field: Field): bool {
    if field.primaryKey then false
    else if field.pointerDepth != 0 then true
    else field.kind == KindBytes || field.kind == KindCustom
  }

  /** A field whose Go value always stands for a column that is not NULL: a key, or a plain value that is
      neither bytes nor of a custom type. A value-form soft-delete time is one. */
  predicate AlwaysHasValue(field: Field) {
    field.primaryKey || (field.pointerDepth == 0 && field.kind != KindBytes && field.kind != KindCustom)
  }

  predicate OrderFieldResolves(d: Descriptor, orderBy: seq<OrderTerm>, i: nat)
    requires i < |orderBy|
  {
    && (forall j | 0 <= j < i :: orderBy[j].field != orderBy[i].field)
    && d.FieldByGoName(orderBy[i].field).Some?
    && !d.FieldByGoName(orderBy[i].field).value.computed
    && orderBy[i].direction != UnknownDirection
  }

  predicate CursorFits(d: Descriptor, term: OrderTerm, cursor: CursorValue)
    requires d.FieldByGoName(term.field).Some?
  {
    var field := d.FieldByGoName(term.field).value;
    && (cursor.field == "" || cursor.field == term.field)
    && field.canValue
    && (if cursor.isNull then cursor.value == Nil && !AlwaysHasValue(field) else cursor.value != Nil)
  }

  predicate Orders(orderBy: seq<OrderTerm>, field: string) {
    exists i :: 0 <= i < |orderBy| && orderBy[i].field == field
  }

  predicate FitsUpTo(d: Descriptor, orderBy: seq<OrderTerm>, cursor: seq<CursorValue>, n: nat)
    requires |cursor| == |orderBy| && n <= |orderBy|
  {
    forall i | 0 <= i < n :: OrderFieldResolves(d, orderBy, i) && CursorFits(d, orderBy[i], cursor[i])
  }

  /** A cursor fits the order term by term, and the order contains the whole primary key. */
  predicate SeekValid(d: Descriptor, orderBy: seq<OrderTerm>, cursor: Option<seq<CursorValue>>, offsetSet: bool) {
    cursor.Some? ==>
      && !offsetSet
      && |cursor.value| == |orderBy| > 0
      && FitsUpTo(d, orderBy, cursor.value, |orderBy|)
      && d.PrimaryKeyFields() != []
      && forall key <- d.PrimaryKeyFields() :: Orders(orderBy, key.goName)
  }

  predicate UniqueNames(fields: seq<Field>) {
    forall i, j | 0 <= i < j < |fields| :: fields[i].goName != fields[j].goName
  }

  // ---- validation ----

  ghost function NameSet(fields: seq<Field>): set<string> {
    set f <- fields :: f.goName
  }

  /** The primary-key names among the first `n` order terms. */
  ghost function OrderedKeys(d: Descriptor, orderBy: seq<OrderTerm>, n: nat): set<string>
    requires n <= |orderBy|
  {
    set i | 0 <= i < n && orderBy[i].field in NameSet(d.PrimaryKeyFields()) :: orderBy[i].field
  }

  lemma {:induction false} NamesCounted(fields: seq<Field>)
    requires UniqueNames(fields)
    ensures |NameSet(fields)| == |fields|
  {
    if |fields| > 0 {
      var front, last := fields[..|fields| - 1], fields[|fields| - 1];
      NamesCounted(front);
      assert last.goName !in NameSet(front);
      assert NameSet(fields) == NameSet(front) + {last.goName} by {
        assert fields == front + [last];
      }
    }
  }

  lemma {:induction false} PrimaryKeysUnique(fields: seq<Field>)
    requires UniqueNames(fields)
    ensures UniqueNames(PrimaryKeysOf(fields))
  {
    if |fields| > 0 {
      PrimaryKeysUnique(fields[1..]);
      assert forall f <- PrimaryKeysOf(fields[1..]) :: f in fields[1..] && f.goName != fields[0].goName;
    }
  }

  lemma SubsetOfSameSize(a: set<string>, b: set<string>)
    requires a <= b && |a| == |b|
    ensures a == b
  {
    if a != b {
      var x :| x in b && x !in a;
      assert a <= b - {x};
      SubsetCount(a, b - {x});
    }
  }

  lemma {:induction false} SubsetCount(a: set<string>, b: set<string>)
    requires a <= b
    ensures |a| <= |b|
  {
    if a != {} {
      var x :| x in a;
      SubsetCount(a - {x}, b - {x});
    }
  }

  lemma {:induction false} FoundField(fields: seq<Field>, f: Field)
    requires UniqueNames(fields) && f in fields
    ensures FindField(fields, f.goName) == Some(f)
  {
    if fields[0] != f {
      FoundField(fields[1..], f);
    }
  }

  lemma KeyNameIff(d: Descriptor, name: string)
    requires UniqueNames(d.fields) && d.FieldByGoName(name).Some?
    ensures d.FieldByGoName(name).value.primaryKey <==> name in NameSet(d.PrimaryKeyFields())
  {
    var field := d.FieldByGoName(name).value;
    if name in NameSet(d.PrimaryKeyFields()) {
      var f :| f in d.PrimaryKeyFields() && f.goName == name;
      FoundField(d.fields, f);
    }
  }

  /** The counting shortcut: as many ordered primary keys as there are means all of them. */
  lemma CountedKeysAreAll(d: Descriptor, orderBy: seq<OrderTerm>, count: nat)
    requires UniqueNames(d.fields) && count == |OrderedKeys(d, orderBy, |orderBy|)|
    requires count == |d.PrimaryKeyFields()|
    ensures forall key <- d.PrimaryKeyFields() :: Orders(orderBy, key.goName)
  {
    PrimaryKeysUnique(d.fields);
    NamesCounted(d.PrimaryKeyFields());
    SubsetOfSameSize(OrderedKeys(d, orderBy, |orderBy|), NameSet(d.PrimaryKeyFields()));
    forall key <- d.PrimaryKeyFields()
      ensures Orders(orderBy, key.goName)
    {
      assert key.goName in OrderedKeys(d, orderBy, |orderBy|);
    }
  }

  /** The field of an order term: mapped, stored, in one direction, and named by no earlier term. */
  method ResolveOrderField(d: Descriptor, orderBy: seq<OrderTerm>, index: nat) returns (field: Option<Field>)
    requires index < |orderBy|
    ensures field.Some? <==> OrderFieldResolves(d, orderBy, index)
    ensures field.Some? ==> d.FieldByGoName(orderBy[index].field) == field
  {
    for previous := 0 to index
      invariant forall j | 0 <= j < previous :: orderBy[j].field != orderBy[index].field
    {
      if orderBy[previous].field == orderBy[index].field {
        return None;
      }
    }
    field := d.FieldByGoName(orderBy[index].field);
    if field.None? || field.value.computed || orderBy[index].direction == UnknownDirection {
      field := None;
    }
  }

  method CursorUsable(d: Descriptor, term: OrderTerm, field: Field, cursor: CursorValue) returns (ok: bool)
    requires d.FieldByGoName(term.field) == Some(field)
    ensures ok <==> CursorFits(d, term, cursor)
  {
    if cursor.field != "" && cursor.field != term.field {
      return false;
    }
    if !field.canValue {
      return false;
    }
    if cursor.isNull {
      if cursor.value != Nil || !CursorFieldCanBeNull(field) {
        return false;
      }
    } else if cursor.value == Nil {
      return false;
    }
    ok := true;
  }

  /** The validator, with its count of ordered primary-key fields. */
  method ValidateSeekAfter(d: Descriptor, orderBy: seq<OrderTerm>, cursor: Option<seq<CursorValue>>, offsetSet: bool)
    returns (ok: bool)
    requires UniqueNames(d.fields)
    ensures ok <==> SeekValid(d, orderBy, cursor, offsetSet)
  {
    if cursor.None? {
      return true;
    }
    var values := cursor.value;
    if offsetSet || |values| == 0 || |orderBy| == 0 || |values| != |orderBy| {
      return false;
    }
    hide NameSet, CursorFits, OrderedKeys, UniqueNames, Orders;
    var orderedPrimaryKeys := 0;
    for index := 0 to |orderBy|
      invariant FitsUpTo(d, orderBy, values, index)
      invariant orderedPrimaryKeys == |OrderedKeys(d, orderBy, index)|
    {
      var field := ResolveOrderField(d, orderBy, index);
      if field.None? {
        return false;
      }
      var usable := CursorUsable(d, orderBy[index], field.value, values[index]);
      if !usable {
        return false;
      }
      OrderedKeysGrow(d, orderBy, index);
      if field.value.primaryKey {
        orderedPrimaryKeys := orderedPrimaryKeys + 1;
      }
    }
    var primaryKeys := d.PrimaryKeyFields();
    if |primaryKeys| == 0 {
      return false;
    }
    if orderedPrimaryKeys == |primaryKeys| {
      CountedKeysAreAll(d, orderBy, orderedPrimaryKeys);
      return true;
    }
    ok := OrdersEvery(orderBy, primaryKeys);
  }

  method OrdersEvery(orderBy: seq<OrderTerm>, keys: seq<Field>) returns (ok: bool)
    ensures ok <==> forall key <- keys :: Orders(orderBy, key.goName)
  {
    for index := 0 to |keys|
      invariant forall i | 0 <= i < index :: Orders(orderBy, keys[i].goName)
    {
      var found := FindsOrder(orderBy, keys[index].goName);
      if !found {
        return false;
      }
    }
    ok := true;
  }

  lemma OrderedKeysGrow(d: Descriptor, orderBy: seq<OrderTerm>, index: nat)
    requires UniqueNames(d.fields) && index < |orderBy| && OrderFieldResolves(d, orderBy, index)
    ensures |OrderedKeys(d, orderBy, index + 1)| ==
      |OrderedKeys(d, orderBy, index)| + if d.FieldByGoName(orderBy[index].field).value.primaryKey then 1 else 0
  {
    KeyNameIff(d, orderBy[index].field);
    var before := OrderedKeys(d, orderBy, index);
    assert orderBy[index].field !in before;
    assert OrderedKeys(d, orderBy, index + 1) ==
      if orderBy[index].field in NameSet(d.PrimaryKeyFields()) then before + {orderBy[index].field} else before;
  }

  method FindsOrder(orderBy: seq<OrderTerm>, field: string) returns (found: bool)
    ensures found <==> Orders(orderBy, field)
  {
    for term := 0 to |orderBy|
      invariant forall i | 0 <= i < term :: orderBy[i].field != field
    {
      if orderBy[term].field == field {
        return true;
      }
    }
    found := false;
  }

  // ---- the condition that is written ----

  /** What the compiler needs from a validated cursor. */
  predicate Ready(d: Descriptor, orderBy: seq<OrderTerm>, cursor: seq<CursorValue>) {
    && |cursor| == |orderBy| > 0
    && forall i | 0 <= i < |orderBy| ::
         && d.FieldByGoName(orderBy[i].field).Some? && orderBy[i].direction != UnknownDirection
         && (cursor[i].isNull || cursor[i].value.Bound?)
  }

  lemma ValidIsReady(d: Descriptor, orderBy: seq<OrderTerm>, cursor: seq<CursorValue>, offsetSet: bool)
    requires SeekValid(d, orderBy, Some(cursor), offsetSet)
    ensures Ready(d, orderBy, cursor)
  {
    assert FitsUpTo(d, orderBy, cursor, |orderBy|);
  }

  function FieldAt(d: Descriptor, orderBy: seq<OrderTerm>, i: nat): Field
    requires i < |orderBy| && d.FieldByGoName(orderBy[i].field).Some?
  {
    d.FieldByGoName(orderBy[i].field).value
  }

  /** The test of one value level before its equality branch. */
  function ValueHead(field: Field, direction: Direction, value: Value, qualifier: string): (c: Clause)
    ensures WellFormed(c)
  {
    var column := ColumnRef(qualifier, field.column);
    if direction == Descending && CursorFieldCanBeNull(field) then
      Group(OR, [Atom(Compare(column, Lesser, value)), Atom(NullTest(column, false))])
    else Atom(Compare(column, if direction == Ascending then Greater else Lesser, value))
  }

  function Level(d: Descriptor, orderBy: seq<OrderTerm>, cursor: seq<CursorValue>, qualifier: string,
    i: nat): (c: Clause)
    requires Ready(d, orderBy, cursor) && i < |orderBy|
    ensures WellFormed(c)
    decreases |orderBy| - i
  {
    var field := FieldAt(d, orderBy, i);
    var column := ColumnRef(qualifier, field.column);
    var last := i + 1 == |cursor|;
    if cursor[i].isNull then
      if orderBy[i].direction == Ascending then
        var head := Atom(NullTest(column, true));
        if last then Group(OR, [head])
        else Group(OR, [head, Group(AND, [Atom(NullTest(column, false)), Level(d, orderBy, cursor, qualifier, i + 1)])])
      else if last then Group(OR, [Atom(Constant(false))])
      else Group(AND, [Atom(NullTest(column, false)), Level(d, orderBy, cursor, qualifier, i + 1)])
    else
      var value := cursor[i].value.value;
      var head := ValueHead(field, orderBy[i].direction, value, qualifier);
      if last then Group(OR, [head])
      else
        Group(OR, [head, Group(AND, [Atom(Compare(column, Equal, value)),
          Level(d, orderBy, cursor, qualifier, i + 1)])])
  }

  // ---- its meaning ----

  function CursorCell(cursor: CursorValue): Option<Value>
    requires cursor.isNull || cursor.value.Bound?
  {
    if cursor.isNull then None else Some(cursor.value.value)
  }

  function RowCell(d: Descriptor, orderBy: seq<OrderTerm>, row: Row, i: nat): Option<Value>
    requires i < |orderBy| && d.FieldByGoName(orderBy[i].field).Some?
  {
    Column(row, FieldAt(d, orderBy, i).column)
  }

  /** The row comes strictly after the cursor, comparing from order term `i` on. */
  predicate After(d: Descriptor, orderBy: seq<OrderTerm>, cursor: seq<CursorValue>, row: Row, i: nat)
    requires Ready(d, orderBy, cursor) && i <= |orderBy|
    decreases |orderBy| - i
  {
    i < |orderBy| &&
    var at, cell := CursorCell(cursor[i]), RowCell(d, orderBy, row, i);
    (CellBefore(orderBy[i].direction == Descending, at, cell) ||
     (at == cell && After(d, orderBy, cursor, row, i + 1)))
  }

  /** The first column in which the row differs from the cursor is a descending one where the row is
      NULL, the cursor is not, and the field always has a value. */
  predicate Missed(d: Descriptor, orderBy: seq<OrderTerm>, cursor: seq<CursorValue>, row: Row, i: nat)
    requires Ready(d, orderBy, cursor) && i <= |orderBy|
    decreases |orderBy| - i
  {
    i < |orderBy| &&
    var at, cell := CursorCell(cursor[i]), RowCell(d, orderBy, row, i);
    if at == cell then Missed(d, orderBy, cursor, row, i + 1)
    else orderBy[i].direction == Descending && at.Some? && cell.None? && AlwaysHasValue(FieldAt(d, orderBy, i))
  }

  lemma {:induction false} MissedIsAfter(d: Descriptor, orderBy: seq<OrderTerm>, cursor: seq<CursorValue>,
    row: Row, i: nat)
    requires Ready(d, orderBy, cursor) && i <= |orderBy| && Missed(d, orderBy, cursor, row, i)
    ensures After(d, orderBy, cursor, row, i)
    decreases |orderBy| - i
  {
    if CursorCell(cursor[i]) == RowCell(d, orderBy, row, i) {
      MissedIsAfter(d, orderBy, cursor, row, i + 1);
    }
  }

  /** The row differs from the cursor first in term `k`: a descending one, where only the cursor has a value, and
      whose field is a key or a plain value, not a pointer, bytes or custom. */
  predicate LostAt(d: Descriptor, orderBy: seq<OrderTerm>, cursor: seq<CursorValue>, row: Row, i: nat, k: int)
    requires Ready(d, orderBy, cursor)
  {
    && i <= k < |orderBy|
    && (forall j | i <= j < k :: CursorCell(cursor[j]) == RowCell(d, orderBy, row, j))
    && orderBy[k].direction == Descending && CursorCell(cursor[k]).Some? && RowCell(d, orderBy, row, k).None?
    && var field := FieldAt(d, orderBy, k);
    (!field.primaryKey ==> field.pointerDepth == 0 && field.kind != KindBytes && field.kind != KindCustom)
  }

  lemma {:induction false} MissedIff(
    d: Descriptor, orderBy: seq<OrderTerm>, cursor: seq<CursorValue>, row: Row, i: nat)
    requires Ready(d, orderBy, cursor) && i <= |orderBy|
    ensures Missed(d, orderBy, cursor, row, i) <==> exists k :: LostAt(d, orderBy, cursor, row, i, k)
    decreases |orderBy| - i
  {
    hide RowCell, CursorCell;
    if i < |orderBy| && CursorCell(cursor[i]) == RowCell(d, orderBy, row, i) {
      var next := i + 1;
      MissedIff(d, orderBy, cursor, row, next);
      if k :| LostAt(d, orderBy, cursor, row, i, k) {
        assert LostAt(d, orderBy, cursor, row, next, k);
      }
      if k :| LostAt(d, orderBy, cursor, row, next, k) {
        assert LostAt(d, orderBy, cursor, row, i, k);
      }
    } else if i < |orderBy| {
      if k :| LostAt(d, orderBy, cursor, row, i, k) {
        assert k == i;
      }
      if Missed(d, orderBy, cursor, row, i) {
        assert LostAt(d, orderBy, cursor, row, i, i);
      }
    }
  }

  lemma PlainGroups(connective: Keyword, head: Clause, tail: Clause)
    requires WellFormed(head) && WellFormed(tail) && (connective == AND || connective == OR)
    ensures Plain(Group(connective, [head])) == Plain(head)
    ensures Plain(Group(connective, [head, tail])) ==
      if connective == OR then Either(Plain(head), Plain(tail)) else Both(Plain(head), Plain(tail))
  {
    assert [head, tail][..1] == [head];
  }

  lemma OrTrue(head: Clause, tail: Clause, scope: Scope, db: Database)
    requires WellFormed(head) && WellFormed(tail)
    ensures Eval(Plain(Group(OR, [head])), scope, db) == Eval(Plain(head), scope, db)
    ensures Eval(Plain(Group(OR, [head, tail])), scope, db) == True <==>
      Eval(Plain(head), scope, db) == True || Eval(Plain(tail), scope, db) == True
  {
    hide Eval, Plain;
    PlainGroups(OR, head, tail);
    PairMeaning(Plain(head), Plain(tail), scope, db);
  }

  lemma AndTrue(head: Clause, tail: Clause, scope: Scope, db: Database)
    requires WellFormed(head) && WellFormed(tail)
    ensures Eval(Plain(Group(AND, [head, tail])), scope, db) == True <==>
      Eval(Plain(head), scope, db) == True && Eval(Plain(tail), scope, db) == True
  {
    hide Eval, Plain;
    PlainGroups(AND, head, tail);
    PairMeaning(Plain(head), Plain(tail), scope, db);
  }

  lemma HeadMeaning(field: Field, direction: Direction, value: Value, qualifier: string, scope: Scope,
    row: Row, db: Database)
    requires direction != UnknownDirection && qualifier in scope && scope[qualifier] == row
    ensures var cell := Column(row, field.column);
      Eval(Plain(ValueHead(field, direction, value, qualifier)), scope, db) == True <==>
        CellBefore(direction == Descending, Some(value), cell) &&
        !(direction == Descending && cell.None? && AlwaysHasValue(field))
  {
    var column := ColumnRef(qualifier, field.column);
    if direction == Descending && CursorFieldCanBeNull(field) {
      OrTrue(Atom(Compare(column, Lesser, value)), Atom(NullTest(column, false)), scope, db);
    }
  }

  lemma CellIrreflexive(descending: bool, a: Option<Value>)
    ensures !CellBefore(descending, a, a)
  {
    CellTotal(descending, a, a);
  }

  /** The condition of a level is TRUE exactly for the rows after the cursor that are not missed. */
  lemma {:induction false} LevelMeaning(
    d: Descriptor, orderBy: seq<OrderTerm>, cursor: seq<CursorValue>, qualifier: string, i: nat,
    scope: Scope, row: Row, db: Database)
    requires Ready(d, orderBy, cursor) && i < |orderBy|
    requires qualifier in scope && scope[qualifier] == row
    ensures Eval(Plain(Level(d, orderBy, cursor, qualifier, i)), scope, db) == True <==>
      After(d, orderBy, cursor, row, i) && !Missed(d, orderBy, cursor, row, i)
    decreases |orderBy| - i
  {
    if i + 1 < |orderBy| {
      LevelMeaning(d, orderBy, cursor, qualifier, i + 1, scope, row, db);
    }
    hide Level, Eval, Plain, After, Missed;
    if cursor[i].isNull {
      NullLevelMeaning(d, orderBy, cursor, qualifier, i, scope, row, db);
    } else {
      ValueLevelMeaning(d, orderBy, cursor, qualifier, i, scope, row, db);
    }
  }

  lemma NullLevelMeaning(
    d: Descriptor, orderBy: seq<OrderTerm>, cursor: seq<CursorValue>, qualifier: string, i: nat,
    scope: Scope, row: Row, db: Database)
    requires Ready(d, orderBy, cursor) && i < |orderBy| && cursor[i].isNull
    requires qualifier in scope && scope[qualifier] == row
    requires i + 1 < |orderBy| ==> (Eval(Plain(Level(d, orderBy, cursor, qualifier, i + 1)), scope, db) == True <==>
      After(d, orderBy, cursor, row, i + 1) && !Missed(d, orderBy, cursor, row, i + 1))
    ensures Eval(Plain(Level(d, orderBy, cursor, qualifier, i)), scope, db) == True <==>
      After(d, orderBy, cursor, row, i) && !Missed(d, orderBy, cursor, row, i)
  {
    hide Eval, Plain;
    var column := ColumnRef(qualifier, FieldAt(d, orderBy, i).column);
    CellIrreflexive(orderBy[i].direction == Descending, RowCell(d, orderBy, row, i));
    AtomMeaning(column, Int(0), scope, row, db);
    var head, same := Atom(NullTest(column, true)), Atom(NullTest(column, false));
    if i + 1 == |cursor| {
      OrTrue(head, head, scope, db);
      OrTrue(Atom(Constant(false)), head, scope, db);
    } else {
      AndTrue(same, Level(d, orderBy, cursor, qualifier, i + 1), scope, db);
      OrTrue(head, Group(AND, [same, Level(d, orderBy, cursor, qualifier, i + 1)]), scope, db);
    }
  }

  lemma ValueLevelMeaning(
    d: Descriptor, orderBy: seq<OrderTerm>, cursor: seq<CursorValue>, qualifier: string, i: nat,
    scope: Scope, row: Row, db: Database)
    requires Ready(d, orderBy, cursor) && i < |orderBy| && !cursor[i].isNull
    requires qualifier in scope && scope[qualifier] == row
    requires i + 1 < |orderBy| ==> (Eval(Plain(Level(d, orderBy, cursor, qualifier, i + 1)), scope, db) == True <==>
      After(d, orderBy, cursor, row, i + 1) && !Missed(d, orderBy, cursor, row, i + 1))
    ensures Eval(Plain(Level(d, orderBy, cursor, qualifier, i)), scope, db) == True <==>
      After(d, orderBy, cursor, row, i) && !Missed(d, orderBy, cursor, row, i)
  {
    hide Eval, Plain, ValueHead;
    var field, value := FieldAt(d, orderBy, i), cursor[i].value.value;
    var column := ColumnRef(qualifier, field.column);
    CellIrreflexive(orderBy[i].direction == Descending, RowCell(d, orderBy, row, i));
    AtomMeaning(column, value, scope, row, db);
    HeadMeaning(field, orderBy[i].direction, value, qualifier, scope, row, db);
    var head, same := ValueHead(field, orderBy[i].direction, value, qualifier), Atom(Compare(column, Equal, value));
    if i + 1 == |cursor| {
      OrTrue(head, head, scope, db);
    } else {
      AndTrue(same, Level(d, orderBy, cursor, qualifier, i + 1), scope, db);
      OrTrue(head, Group(AND, [same, Level(d, orderBy, cursor, qualifier, i + 1)]), scope, db);
    }
  }

  lemma AtomMeaning(column: ColumnRef, value: Value, scope: Scope, row: Row, db: Database)
    requires column.qualifier in scope && scope[column.qualifier] == row
    ensures Eval(Plain(Atom(Constant(false))), scope, db) == False
    ensures Eval(Plain(Atom(NullTest(column, true))), scope, db) == True <==> Column(row, column.name).Some?
    ensures Eval(Plain(Atom(NullTest(column, false))), scope, db) == True <==> Column(row, column.name).None?
    ensures Eval(Plain(Atom(Compare(column, Equal, value))), scope, db) == True <==>
      Column(row, column.name) == Some(value)
  {
  }

  /** On one row the written condition agrees with "strictly after the cursor" if and only if the row is
      not one it misses; a row it misses is after the cursor and dropped. */
  lemma SeekExactlyUnlessMissed(
    d: Descriptor, orderBy: seq<OrderTerm>, cursor: seq<CursorValue>, qualifier: string, scope: Scope, row: Row,
      db: Database)
    requires Ready(d, orderBy, cursor)
    requires qualifier in scope && scope[qualifier] == row
    ensures var clause := Level(d, orderBy, cursor, qualifier, 0);
      var read := ParseOr(Print(clause), Args(clause));
      && read.Got? && read.rest == [] && read.more == []
      && ((Eval(read.item, scope, db) == True <==> After(d, orderBy, cursor, row, 0))
          <==> !Missed(d, orderBy, cursor, row, 0))
  {
    TextMeansClause(Level(d, orderBy, cursor, qualifier, 0));
    LevelMeaning(d, orderBy, cursor, qualifier, 0, scope, row, db);
    if Missed(d, orderBy, cursor, row, 0) {
      MissedIsAfter(d, orderBy, cursor, row, 0);
    }
  }

  /** NULL occurs only in order columns whose field can stand for it. */
  predicate NullsExpected(d: Descriptor, orderBy: seq<OrderTerm>, row: Row) {
    forall i | 0 <= i < |orderBy| && d.FieldByGoName(orderBy[i].field).Some? ::
      RowCell(d, orderBy, row, i).None? ==> !AlwaysHasValue(FieldAt(d, orderBy, i))
  }

  lemma {:induction false} ExpectedNullsAreNotMissed(
    d: Descriptor, orderBy: seq<OrderTerm>, cursor: seq<CursorValue>, row: Row, i: nat)
    requires Ready(d, orderBy, cursor) && i <= |orderBy| && NullsExpected(d, orderBy, row)
    ensures !Missed(d, orderBy, cursor, row, i)
    decreases |orderBy| - i
  {
    if i < |orderBy| && CursorCell(cursor[i]) == RowCell(d, orderBy, row, i) {
      ExpectedNullsAreNotMissed(d, orderBy, cursor, row, i + 1);
    }
  }

  const VIDEO_ID := Field("ID", "id", KindInt, 0, true, false, true, false)
  const VIDEO_DELETED_AT := Field("DeletedAt", "deleted_at", KindTime, 0, false, false, true, true)
  const VIDEO := Descriptor("Video", "videos", [VIDEO_ID, VIDEO_DELETED_AT], [], [])
  const NEWEST_DELETED_FIRST := [OrderTerm("DeletedAt", Descending), OrderTerm("ID", Ascending)]

  lemma VideoFields()
    ensures VIDEO.FieldByGoName("ID") == Some(VIDEO_ID)
    ensures VIDEO.FieldByGoName("DeletedAt") == Some(VIDEO_DELETED_AT)
    ensures VIDEO.PrimaryKeyFields() == [VIDEO_ID]
  {
    assert VIDEO.fields[1..] == [VIDEO_DELETED_AT];
    assert FindField([VIDEO_DELETED_AT], "DeletedAt") == Some(VIDEO_DELETED_AT);
    assert PrimaryKeysOf([VIDEO_DELETED_AT]) == [];
  }

  /** Ordered ascending, the same rows come first, and a cursor taken from one of them is refused. */
  lemma SoftDeleteTimeIsRefused(id: Value)
    ensures var cursor := [CursorValue("", Nil, true), CursorValue("", Bound(id), false)];
      var orderBy := [OrderTerm("DeletedAt", Ascending), OrderTerm("ID", Ascending)];
      !SeekValid(VIDEO, orderBy, Some(cursor), false)
  {
    var cursor := [CursorValue("", Nil, true), CursorValue("", Bound(id), false)];
    var orderBy := [OrderTerm("DeletedAt", Ascending), OrderTerm("ID", Ascending)];
    VideoFields();
    assert !CursorFits(VIDEO, orderBy[0], cursor[0]);
  }

  /** A soft-delete time held by value, ordered descending: the rows not yet deleted come after every
      deletion time, and an accepted cursor at a deletion time never reaches them. */
  lemma SoftDeleteTimeIsMissed(at: Value, id: Value, other: Value)
    ensures var cursor := [CursorValue("", Bound(at), false), CursorValue("", Bound(id), false)];
      var row: Row := map["id" := other];
      && SeekValid(VIDEO, NEWEST_DELETED_FIRST, Some(cursor), false) && Ready(VIDEO, NEWEST_DELETED_FIRST, cursor)
      && After(VIDEO, NEWEST_DELETED_FIRST, cursor, row, 0)
      && Eval(Plain(Level(VIDEO, NEWEST_DELETED_FIRST, cursor, "", 0)), map["" := row], map[]) != True
  {
    var cursor := [CursorValue("", Bound(at), false), CursorValue("", Bound(id), false)];
    var row: Row := map["id" := other];
    hide PrimaryKeysOf, FindField, Eval, Plain, Level;
    VideoFields();
    assert NEWEST_DELETED_FIRST[1].field == "ID" && Orders(NEWEST_DELETED_FIRST, "ID");
    assert SeekValid(VIDEO, NEWEST_DELETED_FIRST, Some(cursor), false);
    ValidIsReady(VIDEO, NEWEST_DELETED_FIRST, cursor, false);
    LevelMeaning(VIDEO, NEWEST_DELETED_FIRST, cursor, "", 0, map["" := row], row, map[]);
    assert Missed(VIDEO, NEWEST_DELETED_FIRST, cursor, row, 0);
  }

  // ---- the number of arguments ----

  /** The argument half of the capacity: two for a value that is not the last one, one for the last. */
  function SeekArgumentCount(cursor: seq<CursorValue>, from: nat): nat
    requires from <= |cursor|
    decreases |cursor| - from
  {
    if from == |cursor| then 0
    else (if cursor[from].isNull then 0 else if from + 1 != |cursor| then 2 else 1) + SeekArgumentCount(cursor,
      from + 1)
  }

  method SeekAfterCompileCapacity(cursor: Option<seq<CursorValue>>) returns (argumentCount: nat)
    ensures argumentCount == if cursor.None? then 0 else SeekArgumentCount(cursor.value, 0)
  {
    if cursor.None? {
      return 0;
    }
    var values := cursor.value;
    argumentCount := 0;
    for index := 0 to |values|
      invariant argumentCount + SeekArgumentCount(values, index) == SeekArgumentCount(values, 0)
    {
      if !values[index].isNull {
        argumentCount := argumentCount + 1;
        if index + 1 != |values| {
          argumentCount := argumentCount + 1;
        }
      }
    }
  }

  lemma PairArgs(a: Clause, b: Clause)
    requires WellFormed(a) && WellFormed(b)
    ensures AllArgs([a]) == Args(a) && AllArgs([a, b]) == Args(a) + Args(b)
  {
    assert [a, b][..1] == [a] && [a][..0] == [];
    assert [] + Args(a) == Args(a);
  }

  /** Exactly as many arguments are appended as the capacity function predicts. */
  lemma {:induction false} SeekArguments(
    d: Descriptor, orderBy: seq<OrderTerm>, cursor: seq<CursorValue>, qualifier: string, i: nat)
    requires Ready(d, orderBy, cursor) && i < |orderBy|
    ensures |Args(Level(d, orderBy, cursor, qualifier, i))| == SeekArgumentCount(cursor, i)
    decreases |orderBy| - i
  {
    if i + 1 < |cursor| {
      SeekArguments(d, orderBy, cursor, qualifier, i + 1);
    }
    hide Level, Args;
    if cursor[i].isNull {
      NullLevelArguments(d, orderBy, cursor, qualifier, i);
    } else {
      ValueLevelArguments(d, orderBy, cursor, qualifier, i);
    }
  }

  lemma NullLevelArguments(d: Descriptor, orderBy: seq<OrderTerm>, cursor: seq<CursorValue>, qualifier: string, i: nat)
    requires Ready(d, orderBy, cursor) && i < |orderBy| && cursor[i].isNull
    ensures |Args(Level(d, orderBy, cursor, qualifier, i))|
      == if i + 1 < |cursor| then |Args(Level(d, orderBy, cursor, qualifier, i + 1))| else 0
  {
    var column := ColumnRef(qualifier, FieldAt(d, orderBy, i).column);
    var head, same := Atom(NullTest(column, true)), Atom(NullTest(column, false));
    PairArgs(head, same);
    PairArgs(Atom(Constant(false)), head);
    if i + 1 < |cursor| {
      PairArgs(same, Level(d, orderBy, cursor, qualifier, i + 1));
      PairArgs(head, Group(AND, [same, Level(d, orderBy, cursor, qualifier, i + 1)]));
    }
  }

  lemma ValueLevelArguments(d: Descriptor, orderBy: seq<OrderTerm>, cursor: seq<CursorValue>, qualifier: string, i: nat)
    requires Ready(d, orderBy, cursor) && i < |orderBy| && !cursor[i].isNull
    ensures |Args(Level(d, orderBy, cursor, qualifier, i))|
      == if i + 1 < |cursor| then 2 + |Args(Level(d, orderBy, cursor, qualifier, i + 1))| else 1
  {
    hide ValueHead;
    var field, value := FieldAt(d, orderBy, i), cursor[i].value.value;
    var head := ValueHead(field, orderBy[i].direction, value, qualifier);
    var same := Atom(Compare(ColumnRef(qualifier, field.column), Equal, value));
    ValueHeadArguments(field, orderBy[i].direction, value, qualifier);
    PairArgs(head, same);
    if i + 1 < |cursor| {
      PairArgs(same, Level(d, orderBy, cursor, qualifier, i + 1));
      PairArgs(head, Group(AND, [same, Level(d, orderBy, cursor, qualifier, i + 1)]));
    }
  }

  lemma ValueHeadArguments(field: Field, direction: Direction, value: Value, qualifier: string)
    ensures |Args(ValueHead(field, direction, value, qualifier))| == 1
  {
    var column := ColumnRef(qualifier, field.column);
    PairArgs(Atom(Compare(column, Lesser, value)), Atom(NullTest(column, false)));
  }
}
