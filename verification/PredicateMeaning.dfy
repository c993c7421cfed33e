/** The condition tree a caller builds (orm/public_predicate.go) and what it means for one row,
    without any reference to SQL text, aliases or placeholders. */
module PredicateMeaning {
  import opened SqlValues
  import opened LikePattern
  import opened Schema

  datatype Operator =
    | OpEqual | OpNotEqual | OpGreaterThan | OpGreaterThanOrEqual | OpLessThan | OpLessThanOrEqual
    | OpIn | OpNotIn | OpIsNull | OpIsNotNull | OpBetween
    | OpContains | OpHasPrefix | OpHasSuffix
    | OpHasRelation | OpAnd | OpOr | OpNot
    | OpUnknown

  /** A value handed to a predicate constructor. */
  datatype Argument = Nil | Bound(value: Value)

  datatype Predicate = Predicate(operator: Operator, field: string, values: seq<Argument>, children: seq<Predicate>)

  predicate IsScalar(op: Operator) {
    op != OpHasRelation && op != OpAnd && op != OpOr && op != OpNot && op != OpUnknown
  }

  predicate NoNil(values: seq<Argument>) {
    forall i | 0 <= i < |values| :: values[i].Bound?
  }

  function BoundValues(values: seq<Argument>): seq<Value>
    requires NoNil(values)
  {
    seq(|values|, i requires 0 <= i < |values| => values[i].value)
  }

  /** Which scalar predicates the compiler accepts on a model. */
  predicate ScalarAccepted(p: Predicate, d: Descriptor) {
    && |p.children| == 0
    && d.FieldByGoName(p.field).Some?
    && var field := d.FieldByGoName(p.field).value;
    && !field.computed
    && ValuesAccepted(p, field)
  }

  predicate ValuesAccepted(p: Predicate, field: Field) {
    var op := p.operator;
    if op == OpIsNull || op == OpIsNotNull then |p.values| == 0
    else
      && field.canValue && NoNil(p.values)
      && (op == OpBetween ==> |p.values| == 2)
      && (op != OpIn && op != OpNotIn && op != OpBetween ==> |p.values| == 1)
      && (IsPattern(op) ==> field.kind == KindString && p.values[0].value.Str?)
  }

  predicate IsPattern(op: Operator) {
    op == OpContains || op == OpHasPrefix || op == OpHasSuffix
  }

  ghost predicate TextMatches(op: Operator, text: string, value: string) {
    if op == OpHasPrefix then value <= text
    else if op == OpHasSuffix then |value| <= |text| && text[|text| - |value|..] == value
    else Contains(text, value)
  }

  /** A stored value against the value of an ordering or equality predicate. */
  predicate Compares(op: Operator, cell: Value, bound: Value) {
    if op == OpGreaterThan then Less(bound, cell)
    else if op == OpGreaterThanOrEqual then Less(bound, cell) || cell == bound
    else if op == OpLessThan then Less(cell, bound)
    else if op == OpLessThanOrEqual then Less(cell, bound) || cell == bound
    else (cell == bound) == (op != OpNotEqual)
  }

  ghost function ScalarMeaning(p: Predicate, cell: Option<Value>): Truth
    requires exists field :: ValuesAccepted(p, field)
  {
    var op := p.operator;
    if op == OpIsNull || op == OpIsNotNull then Known((cell == None) == (op == OpIsNull))
    // an empty list decides without looking at the row
    else if (op == OpIn || op == OpNotIn) && p.values == [] then Known(op == OpNotIn)
    else if cell == None then Unknown
    else if op == OpIn || op == OpNotIn then Known((Bound(cell.value) in p.values) == (op == OpIn))
    else if op == OpBetween then Known(!Less(cell.value, p.values[0].value) && !Less(p.values[1].value, cell.value))
    else if IsPattern(op) then
      Known(cell.value.Str? && p.values[0].value.Str? && TextMatches(op, cell.value.text, p.values[0].value.text))
    else Known(Compares(op, cell.value, p.values[0].value))
  }

  /** Two rows agree on the paired columns and none of them is NULL. */
  predicate Linked(a: Row, aColumns: seq<string>, b: Row, bColumns: seq<string>)
    requires |aColumns| == |bColumns|
  {
    forall i | 0 <= i < |aColumns| :: aColumns[i] in a && bColumns[i] in b && a[aColumns[i]] == b[bColumns[i]]
  }

  /** The column that marks deletion, if there is one, is NULL. */
  predicate Live(row: Row, softDelete: Option<string>) {
    softDelete.Some? ==> softDelete.value !in row
  }

  /** Two rows hold the same value, not NULL, in these columns. */
  predicate SameCell(a: Row, aColumn: string, b: Row, bColumn: string) {
    aColumn in a && bColumn in b && a[aColumn] == b[bColumn]
  }

  /** Not soft-deleted. */
  predicate Undeleted(row: Row, d: Descriptor) {
    forall i | 0 <= i < |d.fields| && MarksDeleted(d.fields, i) :: d.fields[i].column !in row
  }

  /** A junction row that joins a source row to a target row, not soft-deleted itself if it has a model. */
  predicate Joins(relation: Relation, catalog: Catalog, d: Descriptor, source: Row, edge: Row, target: Row)
    requires Usable(catalog, d, relation) && relation.kind == ManyToMany
  {
    var j := relation.junction.value;
    && (forall i | 0 <= i < |relation.sourceKey| ::
          SameCell(source, relation.sourceKey[i].column, edge, j.sourceColumns[i]))
    && (forall i | 0 <= i < |relation.targetKey| ::
          SameCell(target, relation.targetKey[i].column, edge, j.targetColumns[i]))
    && (relation.via != "" ==> Undeleted(edge, EdgeDescriptor(catalog, d, relation).value))
  }

  /** The target rows that belong to a source row through a relation. */
  ghost predicate Belongs(
    relation: Relation, catalog: Catalog, d: Descriptor, source: Row, target: Row, db: Database)
    requires Usable(catalog, d, relation)
  {
    Undeleted(target, catalog[relation.target]) &&
    if relation.kind == ManyToMany then
      exists edge <- Rows(db, relation.junction.value.table) :: Joins(relation, catalog, d, source, edge, target)
    else
      forall i | 0 <= i < |relation.sourceKey| ::
        SameCell(source, relation.sourceKey[i].column, target, relation.targetKey[i].column)
  }

  /** Which trees the compiler accepts on a model. */
  predicate Accepted(p: Predicate, catalog: Catalog, d: Descriptor)
    decreases p
  {
    var op := p.operator;
    if op == OpAnd || op == OpOr || op == OpNot then
      && p.field == "" && p.values == []
      && (if op == OpNot then |p.children| == 1 else |p.children| >= 2)
      && forall i | 0 <= i < |p.children| :: Accepted(p.children[i], catalog, d)
    else if op == OpHasRelation then
      && p.values == [] && d.RelationByName(p.field).Some?
      && var relation := d.RelationByName(p.field).value;
      && Usable(catalog, d, relation)
      && forall i | 0 <= i < |p.children| :: Accepted(p.children[i], catalog, catalog[relation.target])
    else op != OpUnknown && ScalarAccepted(p, d)
  }

  predicate AllAccepted(ps: seq<Predicate>, catalog: Catalog, d: Descriptor) {
    forall i | 0 <= i < |ps| :: Accepted(ps[i], catalog, d)
  }

  /** The truth of an accepted tree for one row of the model. */
  ghost function Meaning(p: Predicate, catalog: Catalog, d: Descriptor, row: Row, db: Database): Truth
    requires Accepted(p, catalog, d)
    decreases p, 1
  {
    var op := p.operator;
    if op == OpAnd then AndMeaning(p.children, catalog, d, row, db)
    else if op == OpOr then OrMeaning(p.children, catalog, d, row, db)
    else if op == OpNot then Not3(Meaning(p.children[0], catalog, d, row, db))
    else if op == OpHasRelation then
      var relation := d.RelationByName(p.field).value;
      var model := catalog[relation.target];
      Known(exists target <- Rows(db, model.table) ::
              Belongs(relation, catalog, d, row, target, db)
              && AndMeaning(p.children, catalog, model, target, db) == True)
    else ScalarMeaning(p, Column(row, d.FieldByGoName(p.field).value.column))
  }

  ghost function AndMeaning(ps: seq<Predicate>, catalog: Catalog, d: Descriptor, row: Row, db: Database): Truth
    requires AllAccepted(ps, catalog, d)
    decreases ps, 0
  {
    if |ps| == 0 then True
    else And3(AndMeaning(ps[..|ps| - 1], catalog, d, row, db), Meaning(ps[|ps| - 1], catalog, d, row, db))
  }

  ghost function OrMeaning(ps: seq<Predicate>, catalog: Catalog, d: Descriptor, row: Row, db: Database): Truth
    requires AllAccepted(ps, catalog, d)
    decreases ps, 0
  {
    if |ps| == 0 then False
    else Or3(OrMeaning(ps[..|ps| - 1], catalog, d, row, db), Meaning(ps[|ps| - 1], catalog, d, row, db))
  }
}
