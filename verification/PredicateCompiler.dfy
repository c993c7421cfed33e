/** The predicate compiler (orm/predicate.go, orm/relation_predicate.go): what it writes, as a
    function of the tree, and the object that writes it. */
module PredicateCompiler {
  import opened SqlValues
  import opened SqlText
  import opened SqlClause
  import opened LikePattern
  import opened Schema
  import opened PredicateMeaning

  // ---- aliases ----

  function Digit(n: nat): char
    requires n < 10
  {
    ['0', '1', '2', '3', '4', '5', '6', '7', '8', '9'][n]
  }

  function Decimal(n: nat): (s: string)
    ensures |s| > 0
  {
    if n < 10 then [Digit(n)] else Decimal(n / 10) + [Digit(n % 10)]
  }

  function TargetAlias(n: nat): string {
    "tidbgo_r" + Decimal(n)
  }

  function JunctionAlias(n: nat): string {
    "tidbgo_j" + Decimal(n)
  }

  /** The number that a numeral stands for. */
  function Numeral(s: string): int {
    if s == "" then 0 else Numeral(s[..|s| - 1]) * 10 + (s[|s| - 1] as int - '0' as int)
  }

  lemma {:induction false} DecimalReads(n: nat)
    ensures Numeral(Decimal(n)) == n && (forall c <- Decimal(n) :: '0' <= c <= '9')
    ensures n > 0 ==> Decimal(n)[0] != '0'
  {
    var s := Decimal(n);
    assert s[|s| - 1] == Digit(n % 10);
    assert s[..|s| - 1] == (if n < 10 then "" else Decimal(n / 10));
    if n >= 10 {
      DecimalReads(n / 10);
      assert s[0] == Decimal(n / 10)[0];
    }
  }

  /** The named constants for the first tables are the same numbering. */
  lemma FirstAliases()
    ensures TargetAlias(1) == "tidbgo_r1" && TargetAlias(2) == "tidbgo_r2"
    ensures JunctionAlias(1) == "tidbgo_j1" && JunctionAlias(2) == "tidbgo_j2"
  {
  }

  lemma {:induction false} DecimalInjective(m: nat, n: nat)
    requires Decimal(m) == Decimal(n)
    ensures m == n
  {
    var s := Decimal(m);
    assert s[|s| - 1] == Digit(m % 10) == Digit(n % 10);
    assert s[..|s| - 1] == (if m < 10 then "" else Decimal(m / 10));
    assert s[..|s| - 1] == (if n < 10 then "" else Decimal(n / 10));
    if m >= 10 && n >= 10 {
      DecimalInjective(m / 10, n / 10);
    }
  }

  /** The names given to the tables of one statement are all different. */
  lemma AliasesDistinct(m: nat, n: nat)
    ensures TargetAlias(m) != JunctionAlias(n)
    ensures TargetAlias(m) == TargetAlias(n) ==> m == n
    ensures JunctionAlias(m) == JunctionAlias(n) ==> m == n
    ensures TargetAlias(m) != "" && JunctionAlias(m) != ""
  {
    assert TargetAlias(m)[7] == 'r' && JunctionAlias(n)[7] == 'j';
    assert TargetAlias(m)[8..] == Decimal(m) && JunctionAlias(m)[8..] == Decimal(m);
    assert TargetAlias(n)[8..] == Decimal(n) && JunctionAlias(n)[8..] == Decimal(n);
    if Decimal(m) == Decimal(n) {
      DecimalInjective(m, n);
    }
  }

  // ---- what is written ----

  /** The compiler's scope: the model, the qualifier of its columns, and how deep under NOT and OR. */
  datatype Place = Place(descriptor: Descriptor, qualifier: string, negation: nat, disjunction: nat)
  {
    function Source(): string {
      if qualifier == "" then descriptor.table else qualifier
    }
  }

  /** A clause and the number of the last alias given out. */
  datatype Written = Written(clause: Clause, alias: nat)

  datatype WrittenAll = WrittenAll(clauses: seq<Clause>, alias: nat)

  const SEMI_JOIN_REWRITE := Hint("SEMI_JOIN_REWRITE()")

  function ComparisonOf(op: Operator): Comparison {
    if op == OpNotEqual then NotEqual
    else if op == OpGreaterThan then Greater
    else if op == OpGreaterThanOrEqual then GreaterOrEqual
    else if op == OpLessThan then Lesser
    else if op == OpLessThanOrEqual then LesserOrEqual
    else Equal
  }

  function ScalarTest(p: Predicate, d: Descriptor, qualifier: string): (test: Condition)
    requires ScalarAccepted(p, d) && IsScalar(p.operator)
    ensures AtomicTest(test)
  {
    var column := ColumnRef(qualifier, d.FieldByGoName(p.field).value.column);
    var op := p.operator;
    if op == OpIn || op == OpNotIn then
      if p.values == [] then Constant(op == OpNotIn) else InList(column, BoundValues(p.values), op == OpNotIn)
    else if op == OpIsNull || op == OpIsNotNull then NullTest(column, op == OpIsNotNull)
    else if op == OpBetween then Range(column, p.values[0].value, p.values[1].value)
    else if IsPattern(op) then
      LikeTest(column, Str(EscapedPattern(p.values[0].value.text, op != OpHasPrefix, op != OpHasSuffix)))
    else Compare(column, ComparisonOf(op), p.values[0].value)
  }

  function Equalities(left: string, leftColumns: seq<string>, right: string,
    rightColumns: seq<string>): (r: seq<Clause>)
    requires |leftColumns| <= |rightColumns|
    ensures |r| == |leftColumns| && AllWellFormed(r)
  {
    seq(|leftColumns|, i requires 0 <= i < |leftColumns| =>
      Atom(SameColumn(ColumnRef(left, leftColumns[i]), ColumnRef(right, rightColumns[i]))))
  }

  function LiveClause(alias: string, softDelete: Option<string>): (r: seq<Clause>)
    ensures AllWellFormed(r)
  {
    if softDelete.None? then [] else [Atom(NullTest(ColumnRef(alias, softDelete.value), false))]
  }

  predicate UsesSemiJoin(plan: RelationPlan, p: Predicate, place: Place) {
    place.negation == 0 && place.disjunction == 0 && |p.children| != 0 &&
    (plan.kind == HasMany || plan.kind == ManyToMany)
  }

  /** The correlation of an EXISTS with its source row, and its soft-delete scopes. */
  function ScopeClauses(plan: RelationPlan, place: Place, alias: nat): (cs: seq<Clause>)
    requires plan.Valid()
    ensures |cs| > 0 && AllWellFormed(cs)
  {
    var target := TargetAlias(alias);
    match plan.junction
    case None =>
      [Group(AND, Equalities(target, plan.targetColumns, place.Source(), plan.sourceColumns))]
      + LiveClause(target, plan.softDelete)
    case Some(j) =>
      var junction := JunctionAlias(alias);
      [Group(AND, Equalities(junction, j.sourceColumns, place.Source(), plan.sourceColumns))]
      + LiveClause(target, plan.softDelete) + LiveClause(junction, j.softDelete)
  }

  /** The part of an EXISTS before the caller's own conditions. */
  function RelationShell(plan: RelationPlan, p: Predicate, place: Place, alias: nat): (c: Clause)
    requires plan.Valid()
    ensures c.Related? && WellFormed(c)
  {
    var hints := if UsesSemiJoin(plan, p, place) then [SEMI_JOIN_REWRITE] else [];
    var target := TargetAlias(alias);
    match plan.junction
    case None => Related(hints, plan.target.table, target, None, ScopeClauses(plan, place, alias))
    case Some(j) =>
      var junction := JunctionAlias(alias);
      Related(hints, j.table, junction,
        Some(Link(plan.target.table, target, Equalities(target, plan.targetColumns, junction, j.targetColumns))),
        ScopeClauses(plan, place, alias))
  }

  function Inside(plan: RelationPlan, place: Place, alias: nat): Place {
    place.(descriptor := plan.target, qualifier := TargetAlias(alias))
  }

  function Write(p: Predicate, catalog: Catalog, place: Place, alias: nat): (w: Written)
    requires Accepted(p, catalog, place.descriptor)
    ensures WellFormed(w.clause) && w.alias >= alias
    decreases p, 1
  {
    var op := p.operator;
    if op == OpAnd || op == OpOr then
      var inside := if op == OpOr then place.(disjunction := place.disjunction + 1) else place;
      var all := WriteAll(p.children, catalog, inside, alias);
      Written(Group(if op == OpOr then OR else AND, all.clauses), all.alias)
    else if op == OpNot then
      var inner := Write(p.children[0], catalog, place.(negation := place.negation + 1), alias);
      Written(Inverse(inner.clause), inner.alias)
    else if op == OpHasRelation then
      var plan := NamedPlan(catalog, place.descriptor, p.field).value;
      var shell := RelationShell(plan, p, place, alias + 1);
      var all := WriteAll(p.children, catalog, Inside(plan, place, alias + 1), alias + 1);
      Written(shell.(where := shell.where + all.clauses), all.alias)
    else Written(Atom(ScalarTest(p, place.descriptor, place.qualifier)), alias)
  }

  function WriteAll(ps: seq<Predicate>, catalog: Catalog, place: Place, alias: nat): (w: WrittenAll)
    requires AllAccepted(ps, catalog, place.descriptor)
    ensures |w.clauses| == |ps| && AllWellFormed(w.clauses) && w.alias >= alias
    decreases ps, 0
  {
    if |ps| == 0 then WrittenAll([], alias)
    else
      var front := WriteAll(ps[..|ps| - 1], catalog, place, alias);
      var last := Write(ps[|ps| - 1], catalog, place, front.alias);
      WrittenAll(front.clauses + [last.clause], last.alias)
  }

  // ---- the text means the tree ----

  /** The target rows a source row reaches by a plan. */
  ghost predicate Reaches(plan: RelationPlan, source: Row, target: Row, db: Database)
    requires plan.Valid()
  {
    Live(target, plan.softDelete) &&
    match plan.junction
    case None => Linked(target, plan.targetColumns, source, plan.sourceColumns)
    case Some(j) =>
      exists edge <- Rows(db, j.table) ::
        && Linked(edge, j.sourceColumns, source, plan.sourceColumns)
        && Linked(target, plan.targetColumns, edge, j.targetColumns)
        && Live(edge, j.softDelete)
  }

  lemma LiveIsUndeleted(row: Row, d: Descriptor)
    ensures Live(row, SoftDeleteColumn(d)) <==> Undeleted(row, d)
  {
    SoftDeleteIsFirst(d.fields);
  }

  /** A plan reaches exactly the rows that belong to the source row through the relation it was made of. */
  lemma ReachesIffBelongs(
    relation: Relation, catalog: Catalog, d: Descriptor, plan: RelationPlan, source: Row, target: Row, db: Database)
    requires RelationPlanFor(catalog, d, relation) == Some(plan)
    ensures Reaches(plan, source, target, db) <==> Belongs(relation, catalog, d, source, target, db)
  {
    hide Undeleted, SoftDeleteColumn, Live, Linked, SameCell;
    LiveIsUndeleted(target, plan.target);
    if relation.kind == ManyToMany {
      var j := plan.junction.value;
      forall edge: Row
        ensures Joins(relation, catalog, d, source, edge, target) <==>
          Linked(edge, j.sourceColumns, source, plan.sourceColumns) &&
          Linked(target, plan.targetColumns, edge, j.targetColumns) && Live(edge, j.softDelete)
      {
        EdgeJoins(relation, catalog, d, plan, source, edge, target);
      }
    } else {
      LinkedCells(source, relation.sourceKey, target, Columns(relation.targetKey));
      assert forall i | 0 <= i < |relation.targetKey| ::
          Columns(relation.targetKey)[i] == relation.targetKey[i].column;
    }
  }

  lemma LinkedCells(a: Row, key: seq<Field>, b: Row, columns: seq<string>)
    requires |key| == |columns|
    ensures Linked(a, Columns(key), b, columns) <==>
      forall i | 0 <= i < |key| :: SameCell(a, key[i].column, b, columns[i])
    ensures Linked(b, columns, a, Columns(key)) <==> Linked(a, Columns(key), b, columns)
  {
    assert forall i | 0 <= i < |key| :: Columns(key)[i] == key[i].column;
  }

  lemma EdgeJoins(
    relation: Relation, catalog: Catalog, d: Descriptor, plan: RelationPlan, source: Row, edge: Row, target: Row)
    requires RelationPlanFor(catalog, d, relation) == Some(plan) && relation.kind == ManyToMany
    ensures var j := plan.junction.value;
      Joins(relation, catalog, d, source, edge, target) <==>
        Linked(edge, j.sourceColumns, source, plan.sourceColumns) &&
        Linked(target, plan.targetColumns, edge, j.targetColumns) && Live(edge, j.softDelete)
  {
    hide Linked, SameCell;
    LinkedCells(source, relation.sourceKey, edge, plan.junction.value.sourceColumns);
    LinkedCells(target, relation.targetKey, edge, plan.junction.value.targetColumns);
    if relation.via != "" {
      LiveIsUndeleted(edge, EdgeDescriptor(catalog, d, relation).value);
    }
  }

  /** The source row is in scope under the name the compiler uses for it, and no later alias is taken. */
  ghost predicate InScope(place: Place, alias: nat, scope: Scope, row: Row) {
    && place.Source() != "" && place.Source() in scope && scope[place.Source()] == row
    && (place.qualifier == "" ==> "" in scope && scope[""] == row)
    && forall n | n > alias :: TargetAlias(n) !in scope && JunctionAlias(n) !in scope
  }

  /** The comparison written for an operator compares as the operator does. */
  lemma ComparisonMeaning(op: Operator, cell: Value, bound: Value)
    ensures CompareValues(ComparisonOf(op), cell, bound) == Compares(op, cell, bound)
  {
    LessTotal(cell, bound);
  }

  lemma ScalarTestMeaning(p: Predicate, place: Place, scope: Scope, row: Row, db: Database)
    requires ScalarAccepted(p, place.descriptor) && IsScalar(p.operator)
    requires place.qualifier in scope && scope[place.qualifier] == row
    ensures Eval(ScalarTest(p, place.descriptor, place.qualifier), scope, db)
      == ScalarMeaning(p, Column(row, place.descriptor.FieldByGoName(p.field).value.column))
  {
    var cell := Column(row, place.descriptor.FieldByGoName(p.field).value.column);
    var op := p.operator;
    hide Less, ComparisonOf, Compares, Like, EscapedPattern, Contains, FindField;
    if op == OpIn || op == OpNotIn {
      if cell.Some? { InBound(cell.value, p.values); }
    } else if IsPattern(op) && cell.Some? && cell.value.Str? {
      PatternMeaning(p.values[0].value.text, cell.value.text);
    } else if op != OpIsNull && op != OpIsNotNull && op != OpBetween && !IsPattern(op) && cell.Some? {
      ComparisonMeaning(op, cell.value, p.values[0].value);
    }
  }

  lemma InBound(v: Value, values: seq<Argument>)
    requires NoNil(values)
    ensures v in BoundValues(values) <==> Bound(v) in values
  {
    if Bound(v) in values {
      var i :| 0 <= i < |values| && values[i] == Bound(v);
      assert BoundValues(values)[i] == v;
    }
    if v in BoundValues(values) {
      var i :| 0 <= i < |BoundValues(values)| && BoundValues(values)[i] == v;
      assert values[i] == Bound(v);
    }
  }

  /** A run of ANDs is TRUE exactly when each part is. */
  lemma {:induction false} JoinedTrue(cs: seq<Clause>, scope: Scope, db: Database)
    requires |cs| > 0 && AllWellFormed(cs)
    ensures Eval(PlainJoined(AND, cs), scope, db) == True <==>
      forall i | 0 <= i < |cs| :: Eval(Plain(cs[i]), scope, db) == True
  {
    var n := |cs| - 1;
    if n > 0 {
      JoinedTrue(cs[..n], scope, db);
      assert forall i | 0 <= i < n :: cs[..n][i] == cs[i];
    }
  }

  lemma JoinedAppend(a: seq<Clause>, b: seq<Clause>, scope: Scope, db: Database)
    requires |a| > 0 && AllWellFormed(a) && AllWellFormed(b)
    ensures AllWellFormed(a + b)
    ensures Eval(PlainJoined(AND, a + b), scope, db) == True <==>
      Eval(PlainJoined(AND, a), scope, db) == True && (|b| > 0 ==> Eval(PlainJoined(AND, b), scope, db) == True)
  {
    assert forall i | 0 <= i < |a + b| :: (a + b)[i] == if i < |a| then a[i] else b[i - |a|];
    JoinedTrue(a + b, scope, db);
    JoinedTrue(a, scope, db);
    if |b| > 0 {
      JoinedTrue(b, scope, db);
      assert forall i | 0 <= i < |b| :: (a + b)[|a| + i] == b[i];
    }
    assert forall i | 0 <= i < |a| :: (a + b)[i] == a[i];
  }

  lemma EqualitiesMeaning(
    left: string, leftColumns: seq<string>, right: string, rightColumns: seq<string>, scope: Scope, db: Database)
    requires |leftColumns| == |rightColumns| > 0
    requires left in scope && right in scope
    ensures Eval(PlainJoined(AND, Equalities(left, leftColumns, right, rightColumns)), scope, db) == True
      <==> Linked(scope[left], leftColumns, scope[right], rightColumns)
  {
    var es := Equalities(left, leftColumns, right, rightColumns);
    JoinedTrue(es, scope, db);
    var a, b := scope[left], scope[right];
    forall i | 0 <= i < |es|
      ensures Eval(Plain(es[i]), scope, db) == True <==>
        leftColumns[i] in a && rightColumns[i] in b && a[leftColumns[i]] == b[rightColumns[i]]
    {
    }
  }

  lemma LiveMeaning(alias: string, softDelete: Option<string>, scope: Scope, db: Database)
    requires alias in scope
    ensures |LiveClause(alias, softDelete)| > 0 ==>
      (Eval(PlainJoined(AND, LiveClause(alias, softDelete)), scope, db) == True <==> Live(scope[alias], softDelete))
    ensures |LiveClause(alias, softDelete)| == 0 ==> Live(scope[alias], softDelete)
  {
  }

  // How each operator unfolds, one lemma an operator.

  lemma AndUnfolds(p: Predicate, catalog: Catalog, place: Place, alias: nat, row: Row, db: Database)
    requires p.operator == OpAnd && Accepted(p, catalog, place.descriptor)
    ensures Plain(Write(p, catalog, place, alias).clause)
      == PlainJoined(AND, WriteAll(p.children, catalog, place, alias).clauses)
    ensures Meaning(p, catalog, place.descriptor, row, db) == AndMeaning(p.children, catalog, place.descriptor, row, db)
  {
  }

  lemma OrUnfolds(p: Predicate, catalog: Catalog, place: Place, alias: nat, row: Row, db: Database)
    requires p.operator == OpOr && Accepted(p, catalog, place.descriptor)
    ensures Plain(Write(p, catalog, place, alias).clause)
      == PlainJoined(OR, WriteAll(p.children, catalog, place.(disjunction := place.disjunction + 1), alias).clauses)
    ensures Meaning(p, catalog, place.descriptor, row, db) == OrMeaning(p.children, catalog, place.descriptor, row, db)
  {
  }

  lemma NotUnfolds(p: Predicate, catalog: Catalog, place: Place, alias: nat, row: Row, db: Database)
    requires p.operator == OpNot && Accepted(p, catalog, place.descriptor)
    ensures Plain(Write(p, catalog, place, alias).clause)
      == Negation(Plain(Write(p.children[0], catalog, place.(negation := place.negation + 1), alias).clause))
    ensures Meaning(p, catalog, place.descriptor, row, db)
      == Not3(Meaning(p.children[0], catalog, place.descriptor, row, db))
  {
  }

  lemma ScalarUnfolds(p: Predicate, catalog: Catalog, place: Place, alias: nat, row: Row, db: Database)
    requires IsScalar(p.operator) && Accepted(p, catalog, place.descriptor)
    ensures Plain(Write(p, catalog, place, alias).clause) == ScalarTest(p, place.descriptor, place.qualifier)
    ensures Meaning(p, catalog, place.descriptor, row, db)
      == ScalarMeaning(p, Column(row, place.descriptor.FieldByGoName(p.field).value.column))
  {
  }

  /** What a Has contributes, given its plan. */
  function RelationWhere(plan: RelationPlan, p: Predicate, catalog: Catalog, place: Place,
    alias: nat): (cs: seq<Clause>)
    requires plan.Valid() && AllAccepted(p.children, catalog, plan.target)
    ensures |cs| > 0 && AllWellFormed(cs)
  {
    RelationShell(plan, p, place, alias + 1).where
    + WriteAll(p.children, catalog, Inside(plan, place, alias + 1), alias + 1).clauses
  }

  lemma RelationUnfolds(
    p: Predicate, catalog: Catalog, place: Place, alias: nat, plan: RelationPlan, row: Row, db: Database)
    requires p.operator == OpHasRelation && Accepted(p, catalog, place.descriptor)
    requires NamedPlan(catalog, place.descriptor, p.field) == Some(plan)
    ensures var shell := RelationShell(plan, p, place, alias + 1);
      Plain(Write(p, catalog, place, alias).clause) == SubQuery(
        shell.table, shell.alias, PlainLink(shell.join),
          PlainJoined(AND, RelationWhere(plan, p, catalog, place, alias)))
    ensures Meaning(p, catalog, place.descriptor, row, db)
      == Known(exists target <- Rows(db, plan.target.table) ::
                 Reaches(plan, row, target, db) && AndMeaning(p.children, catalog, plan.target, target, db) == True)
  {
    hide Reaches, Belongs, RelationPlanFor;
    var relation := place.descriptor.RelationByName(p.field).value;
    forall target
      ensures Reaches(plan, row, target, db) <==> Belongs(relation, catalog, place.descriptor, row, target, db)
    {
      ReachesIffBelongs(relation, catalog, place.descriptor, plan, row, target, db);
    }
  }

  lemma WriteAllUnfolds(ps: seq<Predicate>, catalog: Catalog, place: Place, alias: nat, connective: Keyword)
    requires |ps| > 0 && AllAccepted(ps, catalog, place.descriptor)
    requires connective == AND || connective == OR
    ensures var front := WriteAll(ps[..|ps| - 1], catalog, place, alias);
      var last := Plain(Write(ps[|ps| - 1], catalog, place, front.alias).clause);
      PlainJoined(connective, WriteAll(ps, catalog, place, alias).clauses) ==
        if |ps| == 1 then last
        else if connective == OR then Either(PlainJoined(OR, front.clauses), last)
        else Both(PlainJoined(AND, front.clauses), last)
  {
    var front := WriteAll(ps[..|ps| - 1], catalog, place, alias);
    var all := WriteAll(ps, catalog, place, alias).clauses;
    assert all[..|ps| - 1] == front.clauses;
  }

  lemma {:induction false} WriteMeaning(
    p: Predicate, catalog: Catalog, place: Place, alias: nat, scope: Scope, row: Row, db: Database)
    requires Accepted(p, catalog, place.descriptor) && InScope(place, alias, scope, row)
    ensures Eval(Plain(Write(p, catalog, place, alias).clause), scope, db)
      == Meaning(p, catalog, place.descriptor, row, db)
    decreases p, 1
  {
    hide Write, WriteAll, Meaning, AndMeaning, OrMeaning, PlainJoined;
    var op := p.operator;
    if op == OpAnd {
      AndUnfolds(p, catalog, place, alias, row, db);
      WriteAllMeaning(p.children, catalog, place, alias, scope, row, db);
    } else if op == OpOr {
      OrUnfolds(p, catalog, place, alias, row, db);
      WriteAllMeaning(p.children, catalog, place.(disjunction := place.disjunction + 1), alias, scope, row, db);
    } else if op == OpNot {
      NotUnfolds(p, catalog, place, alias, row, db);
      WriteMeaning(p.children[0], catalog, place.(negation := place.negation + 1), alias, scope, row, db);
    } else if op == OpHasRelation {
      RelationMeaning(p, catalog, place, alias, scope, row, db);
    } else {
      ScalarUnfolds(p, catalog, place, alias, row, db);
      ScalarTestMeaning(p, place, scope, row, db);
    }
  }

  lemma {:induction false} WriteAllMeaning(
    ps: seq<Predicate>, catalog: Catalog, place: Place, alias: nat, scope: Scope, row: Row, db: Database)
    requires |ps| > 0 && AllAccepted(ps, catalog, place.descriptor) && InScope(place, alias, scope, row)
    ensures Eval(PlainJoined(AND, WriteAll(ps, catalog, place, alias).clauses), scope, db)
      == AndMeaning(ps, catalog, place.descriptor, row, db)
    ensures Eval(PlainJoined(OR, WriteAll(ps, catalog, place, alias).clauses), scope, db)
      == OrMeaning(ps, catalog, place.descriptor, row, db)
    decreases ps, 0
  {
    hide Write, WriteAll, Meaning, AndMeaning, OrMeaning, PlainJoined, Eval;
    var n := |ps| - 1;
    var front := WriteAll(ps[..n], catalog, place, alias);
    var last := Plain(Write(ps[n], catalog, place, front.alias).clause);
    WriteAllUnfolds(ps, catalog, place, alias, AND);
    WriteAllUnfolds(ps, catalog, place, alias, OR);
    RunUnfolds(ps, catalog, place.descriptor, row, db);
    WriteMeaning(ps[n], catalog, place, front.alias, scope, row, db);
    if n > 0 {
      WriteAllMeaning(ps[..n], catalog, place, alias, scope, row, db);
      PairMeaning(PlainJoined(AND, front.clauses), last, scope, db);
      PairMeaning(PlainJoined(OR, front.clauses), last, scope, db);
    }
  }

  lemma RunUnfolds(ps: seq<Predicate>, catalog: Catalog, d: Descriptor, row: Row, db: Database)
    requires |ps| > 0 && AllAccepted(ps, catalog, d)
    ensures var last := Meaning(ps[|ps| - 1], catalog, d, row, db);
      && AndMeaning(ps, catalog, d, row, db) == (
           if |ps| == 1 then last else And3(AndMeaning(ps[..|ps| - 1], catalog, d, row, db), last))
      && OrMeaning(ps, catalog, d, row, db) == (
           if |ps| == 1 then last else Or3(OrMeaning(ps[..|ps| - 1], catalog, d, row, db), last))
  {
  }

  /** The scope inside an EXISTS over the target table alone. */
  lemma EnterTarget(plan: RelationPlan, place: Place, alias: nat, scope: Scope, row: Row, target: Row)
    requires InScope(place, alias, scope, row)
    ensures InScope(Inside(plan, place, alias + 1), alias + 1, Enter(scope, TargetAlias(alias + 1), target), target)
    ensures place.Source() in Enter(scope, TargetAlias(alias + 1), target)
    ensures Enter(scope, TargetAlias(alias + 1), target)[place.Source()] == row
  {
    forall n | n > alias + 1
      ensures TargetAlias(n) !in Enter(scope, TargetAlias(alias + 1), target)
      ensures JunctionAlias(n) !in Enter(scope, TargetAlias(alias + 1), target)
    {
      AliasesDistinct(n, alias + 1);
      AliasesDistinct(alias + 1, n);
    }
    AliasesDistinct(alias + 1, alias + 1);
  }

  /** Inside an EXISTS, its WHERE holds when the row is linked, live and meets the caller's conditions. */
  lemma {:induction false} WhereMeaning(
    p: Predicate, catalog: Catalog, place: Place, alias: nat, plan: RelationPlan, inner: Scope, target: Row,
      db: Database)
    requires plan.Valid() && AllAccepted(p.children, catalog, plan.target)
    requires InScope(Inside(plan, place, alias + 1), alias + 1, inner, target)
    ensures Eval(PlainJoined(AND, RelationWhere(plan, p, catalog, place, alias)), inner, db) == True <==>
      Eval(PlainJoined(AND, RelationShell(plan, p, place, alias + 1).where), inner, db) == True &&
      AndMeaning(p.children, catalog, plan.target, target, db) == True
    decreases p.children, 1
  {
    var inside := Inside(plan, place, alias + 1);
    var all := WriteAll(p.children, catalog, inside, alias + 1);
    JoinedAppend(RelationShell(plan, p, place, alias + 1).where, all.clauses, inner, db);
    if |p.children| > 0 {
      WriteAllMeaning(p.children, catalog, inside, alias + 1, inner, target, db);
    }
  }

  lemma {:induction false} RelationMeaning(
    p: Predicate, catalog: Catalog, place: Place, alias: nat, scope: Scope, row: Row, db: Database)
    requires p.operator == OpHasRelation
    requires Accepted(p, catalog, place.descriptor) && InScope(place, alias, scope, row)
    ensures Eval(Plain(Write(p, catalog, place, alias).clause), scope, db)
      == Meaning(p, catalog, place.descriptor, row, db)
    decreases p, 0
  {
    var plan := NamedPlan(catalog, place.descriptor, p.field).value;
    RelationUnfolds(p, catalog, place, alias, plan, row, db);
    if plan.junction.None? {
      DirectRelation(p, catalog, place, alias, scope, row, db, plan);
    } else {
      JunctionRelation(p, catalog, place, alias, scope, row, db, plan);
    }
  }

  lemma {:induction false} DirectRelation(
    p: Predicate, catalog: Catalog, place: Place, alias: nat, scope: Scope, row: Row, db: Database, plan: RelationPlan)
    requires plan.Valid() && plan.junction.None? && AllAccepted(p.children, catalog, plan.target)
    requires InScope(place, alias, scope, row)
    ensures var where := PlainJoined(AND, RelationWhere(plan, p, catalog, place, alias));
      Eval(SubQuery(plan.target.table, TargetAlias(alias + 1), None, where), scope, db)
        == Known(exists target <- Rows(db, plan.target.table) ::
                   Reaches(plan, row, target, db) && AndMeaning(p.children, catalog, plan.target, target, db) == True)
    decreases p.children, 3
  {
    var where := PlainJoined(AND, RelationWhere(plan, p, catalog, place, alias));
    SubQueryAlone(plan.target.table, TargetAlias(alias + 1), where, scope, db);
    forall target <- Rows(db, plan.target.table)
      ensures SelectsAlone(where, TargetAlias(alias + 1), target, scope, db) <==>
        Reaches(plan, row, target, db) && AndMeaning(p.children, catalog, plan.target, target, db) == True
    {
      DirectRow(p, catalog, place, alias, scope, row, db, plan, target);
    }
  }

  lemma {:induction false} JunctionRelation(
    p: Predicate, catalog: Catalog, place: Place, alias: nat, scope: Scope, row: Row, db: Database, plan: RelationPlan)
    requires plan.Valid() && plan.junction.Some? && AllAccepted(p.children, catalog, plan.target)
    requires InScope(place, alias, scope, row)
    ensures var j := plan.junction.value;
      var where := PlainJoined(AND, RelationWhere(plan, p, catalog, place, alias));
      var on := Equalities(TargetAlias(alias + 1), plan.targetColumns, JunctionAlias(alias + 1), j.targetColumns);
      var join := JoinClause(plan.target.table, TargetAlias(alias + 1), PlainJoined(AND, on));
      Eval(SubQuery(j.table, JunctionAlias(alias + 1), Some(join), where), scope, db)
        == Known(exists target <- Rows(db, plan.target.table) ::
                   Reaches(plan, row, target, db) && AndMeaning(p.children, catalog, plan.target, target, db) == True)
    decreases p.children, 3
  {
    hide RelationWhere, PlainJoined, Equalities, Eval, Enter, InScope;
    var j := plan.junction.value;
    var where := PlainJoined(AND, RelationWhere(plan, p, catalog, place, alias));
    var on := Equalities(TargetAlias(alias + 1), plan.targetColumns, JunctionAlias(alias + 1), j.targetColumns);
    var join := JoinClause(plan.target.table, TargetAlias(alias + 1), PlainJoined(AND, on));
    SubQueryPair(j.table, JunctionAlias(alias + 1), join, where, scope, db);
    ReachesThroughEdge(plan, row, db);
    forall edge <- Rows(db, j.table), target <- Rows(db, plan.target.table)
      ensures SelectsPair(where, JunctionAlias(alias + 1), join, edge, target, scope, db) <==>
        Live(target, plan.softDelete) && ThroughEdge(plan, row, edge, target) &&
        AndMeaning(p.children, catalog, plan.target, target, db) == True
    {
      JunctionRow(p, catalog, place, alias, scope, row, db, plan, edge, target);
    }
  }

  ghost predicate SelectsAlone(where: Condition, alias: string, row: Row, scope: Scope, db: Database) {
    Eval(where, Enter(scope, alias, row), db) == True
  }

  ghost predicate SelectsPair(
    where: Condition, alias: string, join: JoinClause, row: Row, other: Row, scope: Scope, db: Database) {
    var inner := Enter(Enter(scope, alias, row), join.alias, other);
    Eval(join.on, inner, db) == True && Eval(where, inner, db) == True
  }

  lemma SubQueryAlone(table: string, alias: string, where: Condition, scope: Scope, db: Database)
    ensures Eval(SubQuery(table, alias, None, where), scope, db)
      == Known(exists row <- Rows(db, table) :: SelectsAlone(where, alias, row, scope, db))
  {
    var c := SubQuery(table, alias, None, where);
    assert forall row :: Selects(c, row, scope, db) <==> SelectsAlone(where, alias, row, scope, db);
  }

  lemma SubQueryPair(table: string, alias: string, join: JoinClause, where: Condition, scope: Scope, db: Database)
    ensures Eval(SubQuery(table, alias, Some(join), where), scope, db)
      == Known(exists row <- Rows(db, table), other <- Rows(db, join.table) ::
                 SelectsPair(where, alias, join, row, other, scope, db))
  {
    var c := SubQuery(table, alias, Some(join), where);
    forall row
      ensures Selects(c, row, scope, db) <==>
        exists other <- Rows(db, join.table) :: SelectsPair(where, alias, join, row, other, scope, db)
    {
    }
    assert SelectsAny(c, scope, db) <==> exists row <- Rows(db, table) :: Selects(c, row, scope, db);
    if SelectsAny(c, scope, db) {
      var row :| row in Rows(db, table) && Selects(c, row, scope, db);
      var other :| other in Rows(db, join.table) && SelectsPair(where, alias, join, row, other, scope, db);
    }
  }

  lemma ReachesThroughEdge(plan: RelationPlan, source: Row, db: Database)
    requires plan.Valid() && plan.junction.Some?
    ensures forall target :: Reaches(plan, source, target, db) <==>
      Live(target, plan.softDelete) &&
      exists edge <- Rows(db, plan.junction.value.table) :: ThroughEdge(plan, source, edge, target)
  {
  }

  lemma {:induction false} DirectRow(
    p: Predicate, catalog: Catalog, place: Place, alias: nat, scope: Scope, row: Row, db: Database,
    plan: RelationPlan, target: Row)
    requires plan.Valid() && plan.junction.None? && AllAccepted(p.children, catalog, plan.target)
    requires InScope(place, alias, scope, row)
    ensures
      Eval(PlainJoined(AND, RelationWhere(plan, p, catalog, place, alias)),
        Enter(scope, TargetAlias(alias + 1), target), db)
        == True
      <==> Reaches(plan, row, target, db) && AndMeaning(p.children, catalog, plan.target, target, db) == True
    decreases p.children, 2
  {
    var inner := Enter(scope, TargetAlias(alias + 1), target);
    EnterTarget(plan, place, alias, scope, row, target);
    ShellDirect(plan, p, place, alias + 1, inner, db);
    WhereMeaning(p, catalog, place, alias, plan, inner, target, db);
  }

  lemma {:induction false} JunctionRow(
    p: Predicate, catalog: Catalog, place: Place, alias: nat, scope: Scope, row: Row, db: Database,
    plan: RelationPlan, edge: Row, target: Row)
    requires plan.Valid() && plan.junction.Some? && AllAccepted(p.children, catalog, plan.target)
    requires InScope(place, alias, scope, row)
    ensures var j := plan.junction.value;
      var inner := Enter(Enter(scope, JunctionAlias(alias + 1), edge), TargetAlias(alias + 1), target);
      var on := Equalities(TargetAlias(alias + 1), plan.targetColumns, JunctionAlias(alias + 1), j.targetColumns);
      Eval(PlainJoined(AND, on), inner, db) == True &&
      Eval(PlainJoined(AND, RelationWhere(plan, p, catalog, place, alias)), inner, db) == True
      <==>
      Live(target, plan.softDelete) && ThroughEdge(plan, row, edge, target) &&
      AndMeaning(p.children, catalog, plan.target, target, db) == True
    decreases p.children, 2
  {
    var t, j := TargetAlias(alias + 1), JunctionAlias(alias + 1);
    var inner := Enter(Enter(scope, j, edge), t, target);
    EnterJunction(plan, place, alias, scope, row, edge, target);
    EqualitiesMeaning(t, plan.targetColumns, j, plan.junction.value.targetColumns, inner, db);
    ShellJunction(plan, p, place, alias + 1, inner, db);
    WhereMeaning(p, catalog, place, alias, plan, inner, target, db);
  }

  lemma ShellDirect(plan: RelationPlan, p: Predicate, place: Place, alias: nat, inner: Scope, db: Database)
    requires plan.Valid() && plan.junction.None?
    requires TargetAlias(alias) in inner && place.Source() in inner
    ensures Eval(PlainJoined(AND, RelationShell(plan, p, place, alias).where), inner, db) == True <==>
      Linked(inner[TargetAlias(alias)], plan.targetColumns, inner[place.Source()], plan.sourceColumns) &&
      Live(inner[TargetAlias(alias)], plan.softDelete)
  {
    var t := TargetAlias(alias);
    var link := [Group(AND, Equalities(t, plan.targetColumns, place.Source(), plan.sourceColumns))];
    EqualitiesMeaning(t, plan.targetColumns, place.Source(), plan.sourceColumns, inner, db);
    LiveMeaning(t, plan.softDelete, inner, db);
    JoinedAppend(link, LiveClause(t, plan.softDelete), inner, db);
  }

  lemma ShellJunction(plan: RelationPlan, p: Predicate, place: Place, alias: nat, inner: Scope, db: Database)
    requires plan.Valid() && plan.junction.Some?
    requires TargetAlias(alias) in inner && JunctionAlias(alias) in inner && place.Source() in inner
    ensures Eval(PlainJoined(AND, RelationShell(plan, p, place, alias).where), inner, db) == True <==>
      Linked(inner[JunctionAlias(alias)], plan.junction.value.sourceColumns, inner[place.Source()],
        plan.sourceColumns) &&
      Live(inner[TargetAlias(alias)], plan.softDelete) &&
      Live(inner[JunctionAlias(alias)], plan.junction.value.softDelete)
  {
    var t, j := TargetAlias(alias), JunctionAlias(alias);
    var junction := plan.junction.value;
    var link := [Group(AND, Equalities(j, junction.sourceColumns, place.Source(), plan.sourceColumns))];
    EqualitiesMeaning(j, junction.sourceColumns, place.Source(), plan.sourceColumns, inner, db);
    LiveMeaning(t, plan.softDelete, inner, db);
    LiveMeaning(j, junction.softDelete, inner, db);
    JoinedAppend(link, LiveClause(t, plan.softDelete), inner, db);
    JoinedAppend(link + LiveClause(t, plan.softDelete), LiveClause(j, junction.softDelete), inner, db);
  }

  /** The scope inside an EXISTS over a junction joined to the target table. */
  lemma EnterJunction(plan: RelationPlan, place: Place, alias: nat, scope: Scope, row: Row, edge: Row, target: Row)
    requires InScope(place, alias, scope, row)
    ensures var inner := Enter(Enter(scope, JunctionAlias(alias + 1), edge), TargetAlias(alias + 1), target);
      && InScope(Inside(plan, place, alias + 1), alias + 1, inner, target)
      && place.Source() in inner && inner[place.Source()] == row
      && JunctionAlias(alias + 1) in inner && inner[JunctionAlias(alias + 1)] == edge
  {
    var inner := Enter(Enter(scope, JunctionAlias(alias + 1), edge), TargetAlias(alias + 1), target);
    forall n | n > alias + 1
      ensures TargetAlias(n) !in inner && JunctionAlias(n) !in inner
    {
      AliasesDistinct(n, alias + 1);
      AliasesDistinct(alias + 1, n);
    }
    AliasesDistinct(alias + 1, alias + 1);
  }

  ghost predicate ThroughEdge(plan: RelationPlan, source: Row, edge: Row, target: Row)
    requires plan.Valid() && plan.junction.Some?
  {
    var j := plan.junction.value;
    && Linked(edge, j.sourceColumns, source, plan.sourceColumns)
    && Linked(target, plan.targetColumns, edge, j.targetColumns)
    && Live(edge, j.softDelete)
  }

  /** The compiled text, read with SQL precedence and with each `?` bound to the next argument,
      has on every row of every database the truth of the tree it came from. */
  lemma CompiledTextMeansTree(
    p: Predicate, catalog: Catalog, place: Place, alias: nat, scope: Scope, row: Row, db: Database)
    requires Accepted(p, catalog, place.descriptor) && InScope(place, alias, scope, row)
    ensures var clause := Write(p, catalog, place, alias).clause;
      var read := ParseOr(Print(clause), Args(clause));
      && read.Got? && read.rest == [] && read.more == []
      && Eval(read.item, scope, db) == Meaning(p, catalog, place.descriptor, row, db)
  {
    TextMeansClause(Write(p, catalog, place, alias).clause);
    WriteMeaning(p, catalog, place, alias, scope, row, db);
  }

  // ---- the number of arguments ----

  /** The argument half of the capacity the compiler reserves before it starts. */
  function ArgumentCount(ps: seq<Predicate>): nat {
    if |ps| == 0 then 0
    else ArgumentCount(ps[..|ps| - 1]) + |ps[|ps| - 1].values| + ArgumentCount(ps[|ps| - 1].children)
  }

  method CompileCapacity(predicates: seq<Predicate>) returns (argumentCount: nat)
    ensures argumentCount == ArgumentCount(predicates)
    decreases predicates
  {
    argumentCount := 0;
    for index := 0 to |predicates|
      invariant argumentCount == ArgumentCount(predicates[..index])
    {
      var childArguments := CompileCapacity(predicates[index].children);
      argumentCount := argumentCount + |predicates[index].values| + childArguments;
      ArgumentCountGrows(predicates, index);
    }
    assert predicates[..|predicates|] == predicates;
  }

  lemma {:induction false} NoArgs(cs: seq<Clause>)
    requires AllWellFormed(cs) && forall c <- cs :: c.Atom? && (c.test.SameColumn? || c.test.NullTest?)
    ensures AllArgs(cs) == []
  {
    if |cs| > 0 {
      NoArgs(cs[..|cs| - 1]);
    }
  }

  lemma ScopeArgs(plan: RelationPlan, place: Place, alias: nat)
    requires plan.Valid()
    ensures AllArgs(ScopeClauses(plan, place, alias)) == []
  {
    var scope := ScopeClauses(plan, place, alias);
    var link, live := scope[0], scope[1..];
    NoArgs(link.terms);
    ArgsGrow([], link);
    NoArgs(live);
    ArgsAppend([link], live);
    assert [] + [link] == [link] && scope == [link] + live;
  }

  lemma ShellArgs(plan: RelationPlan, p: Predicate, place: Place, alias: nat)
    requires plan.Valid()
    ensures Args(RelationShell(plan, p, place, alias)) == []
  {
    ScopeArgs(plan, place, alias);
    if plan.junction.Some? {
      NoArgs(RelationShell(plan, p, place, alias).join.value.on);
    }
  }

  lemma RelationArgs(p: Predicate, catalog: Catalog, place: Place, alias: nat)
    requires p.operator == OpHasRelation && Accepted(p, catalog, place.descriptor)
    ensures var plan := NamedPlan(catalog, place.descriptor, p.field).value;
      Args(Write(p, catalog, place, alias).clause)
        == AllArgs(WriteAll(p.children, catalog, Inside(plan, place, alias + 1), alias + 1).clauses)
  {
    var plan := NamedPlan(catalog, place.descriptor, p.field).value;
    var shell := RelationShell(plan, p, place, alias + 1);
    var all := WriteAll(p.children, catalog, Inside(plan, place, alias + 1), alias + 1);
    ShellArgs(plan, p, place, alias + 1);
    ShellArgsGrow(shell, all.clauses);
  }

  lemma LogicalWrites(p: Predicate, catalog: Catalog, place: Place, alias: nat)
    requires (p.operator == OpAnd || p.operator == OpOr) && Accepted(p, catalog, place.descriptor)
    ensures var inside := if p.operator == OpOr then place.(disjunction := place.disjunction + 1) else place;
      var all := WriteAll(p.children, catalog, inside, alias);
      Write(p, catalog, place, alias) == Written(Group(if p.operator == OpOr then OR else AND, all.clauses), all.alias)
  {
    hide WriteAll;
  }

  lemma NotWrites(p: Predicate, catalog: Catalog, place: Place, alias: nat)
    requires p.operator == OpNot && Accepted(p, catalog, place.descriptor)
    ensures var inner := Write(p.children[0], catalog, place.(negation := place.negation + 1), alias);
      Write(p, catalog, place, alias) == Written(Inverse(inner.clause), inner.alias)
  {
  }

  lemma RelationWrites(p: Predicate, catalog: Catalog, place: Place, alias: nat, plan: RelationPlan)
    requires p.operator == OpHasRelation && Accepted(p, catalog, place.descriptor)
    requires NamedPlan(catalog, place.descriptor, p.field) == Some(plan)
    ensures var shell := RelationShell(plan, p, place, alias + 1);
      var all := WriteAll(p.children, catalog, Inside(plan, place, alias + 1), alias + 1);
      Write(p, catalog, place, alias) == Written(shell.(where := shell.where + all.clauses), all.alias)
  {
  }

  lemma ScalarWrites(p: Predicate, catalog: Catalog, place: Place, alias: nat)
    requires IsScalar(p.operator) && Accepted(p, catalog, place.descriptor)
    ensures Write(p, catalog, place, alias) == Written(Atom(ScalarTest(p, place.descriptor, place.qualifier)), alias)
  {
  }

  lemma WriteAllGrows(ps: seq<Predicate>, index: nat, catalog: Catalog, place: Place, alias: nat)
    requires index < |ps| && AllAccepted(ps[..index + 1], catalog, place.descriptor)
    ensures AllAccepted(ps[..index], catalog, place.descriptor) && Accepted(ps[index], catalog, place.descriptor)
    ensures var front := WriteAll(ps[..index], catalog, place, alias);
      var last := Write(ps[index], catalog, place, front.alias);
      WriteAll(ps[..index + 1], catalog, place, alias) == WrittenAll(front.clauses + [last.clause], last.alias)
  {
    assert ps[..index + 1][..index] == ps[..index] && ps[..index + 1][index] == ps[index];
    assert forall i | 0 <= i < index :: ps[..index][i] == ps[..index + 1][i];
  }

  lemma ArgumentCountGrows(ps: seq<Predicate>, index: nat)
    requires index < |ps|
    ensures ArgumentCount(ps[..index + 1])
      == ArgumentCount(ps[..index]) + |ps[index].values| + ArgumentCount(ps[index].children)
  {
    assert ps[..index + 1][..index] == ps[..index];
  }

  lemma ScalarArguments(p: Predicate, d: Descriptor, qualifier: string)
    requires ScalarAccepted(p, d) && IsScalar(p.operator)
    ensures |AtomArgs(ScalarTest(p, d, qualifier))| == |p.values|
  {
  }

  /** Exactly as many arguments are appended as were reserved. */
  lemma {:induction false} ArgumentsMatchCapacity(p: Predicate, catalog: Catalog, place: Place, alias: nat)
    requires Accepted(p, catalog, place.descriptor)
    ensures |Args(Write(p, catalog, place, alias).clause)| == |p.values| + ArgumentCount(p.children)
    decreases p, 1
  {
    hide Write, WriteAll, PrintJoined;
    var op := p.operator;
    if op == OpAnd || op == OpOr {
      var inside := if op == OpOr then place.(disjunction := place.disjunction + 1) else place;
      LogicalWrites(p, catalog, place, alias);
      AllArgumentsMatchCapacity(p.children, catalog, inside, alias);
    } else if op == OpNot {
      NotWrites(p, catalog, place, alias);
      ArgumentsMatchCapacity(p.children[0], catalog, place.(negation := place.negation + 1), alias);
      ArgumentCountGrows(p.children, 0);
      assert p.children[..1] == p.children;
    } else if op == OpHasRelation {
      var plan := NamedPlan(catalog, place.descriptor, p.field).value;
      RelationArgs(p, catalog, place, alias);
      AllArgumentsMatchCapacity(p.children, catalog, Inside(plan, place, alias + 1), alias + 1);
    } else {
      ScalarWrites(p, catalog, place, alias);
      ScalarArguments(p, place.descriptor, place.qualifier);
    }
  }

  lemma {:induction false} AllArgumentsMatchCapacity(ps: seq<Predicate>, catalog: Catalog, place: Place, alias: nat)
    requires AllAccepted(ps, catalog, place.descriptor)
    ensures |AllArgs(WriteAll(ps, catalog, place, alias).clauses)| == ArgumentCount(ps)
    decreases ps, 0
  {
    if |ps| > 0 {
      var n := |ps| - 1;
      assert ps[..n + 1] == ps;
      var front := WriteAll(ps[..n], catalog, place, alias);
      WriteAllGrows(ps, n, catalog, place, alias);
      ArgumentCountGrows(ps, n);
      AllArgumentsMatchCapacity(ps[..n], catalog, place, alias);
      ArgumentsMatchCapacity(ps[n], catalog, place, front.alias);
      ArgsGrow(front.clauses, Write(ps[n], catalog, place, front.alias).clause);
    }
  }
}
