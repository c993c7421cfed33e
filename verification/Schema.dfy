/** Model metadata as the compilers see it (model/descriptor.go, model/relation.go) and the
    plan of a relation predicate (orm/relation_predicate.go). */
module Schema {
  import opened SqlValues

  datatype Kind = KindBool | KindInt | KindUint | KindFloat | KindString | KindBytes | KindTime | KindCustom

  datatype Field = Field(
    goName: string,
    column: string,
    kind: Kind,
    pointerDepth: nat,
    primaryKey: bool,
    computed: bool,
    canValue: bool,
    softDelete: bool)

  datatype RelationKind = BelongsTo | HasOne | HasMany | ManyToMany

  datatype Junction = Junction(table: string, sourceColumns: seq<string>, targetColumns: seq<string>)

  /** `via` is the name of the edge relation of a projection through an edge model, or empty. */
  datatype Relation = Relation(
    goName: string,
    kind: RelationKind,
    target: string,
    sourceKey: seq<Field>,
    targetKey: seq<Field>,
    junction: Option<Junction>,
    via: string)
  {
    predicate IsCollection() {
      kind == HasMany || kind == ManyToMany
    }
  }

  datatype Descriptor = Descriptor(
    name: string,
    table: string,
    fields: seq<Field>,
    uniqueKeys: seq<seq<Field>>,
    relations: seq<Relation>)
  {
    function FieldByGoName(goName: string): Option<Field> {
      FindField(fields, goName)
    }

    function RelationByName(goName: string): Option<Relation> {
      FindRelation(relations, goName)
    }

    function PrimaryKeyFields(): seq<Field> {
      PrimaryKeysOf(fields)
    }

    function SoftDeleteField(): Option<Field> {
      FindSoftDelete(fields)
    }
  }

  /** The models that can be described, by type name. */
  type Catalog = map<string, Descriptor>

  function FindField(fields: seq<Field>, goName: string): (r: Option<Field>)
    ensures r.Some? ==> r.value in fields && r.value.goName == goName
    ensures r.None? ==> forall f <- fields :: f.goName != goName
  {
    if |fields| == 0 then None
    else if fields[0].goName == goName then Some(fields[0])
    else FindField(fields[1..], goName)
  }

  function FindRelation(relations: seq<Relation>, goName: string): (r: Option<Relation>)
    ensures r.Some? ==> r.value in relations && r.value.goName == goName
    ensures r.None? ==> forall relation <- relations :: relation.goName != goName
  {
    if |relations| == 0 then None
    else if relations[0].goName == goName then Some(relations[0])
    else FindRelation(relations[1..], goName)
  }

  function PrimaryKeysOf(fields: seq<Field>): (r: seq<Field>)
    ensures forall f :: f in r <==> f in fields && f.primaryKey
  {
    if |fields| == 0 then []
    else (if fields[0].primaryKey then [fields[0]] else []) + PrimaryKeysOf(fields[1..])
  }

  function FindSoftDelete(fields: seq<Field>): Option<Field> {
    if |fields| == 0 then None
    else if fields[0].softDelete then Some(fields[0])
    else FindSoftDelete(fields[1..])
  }

  /** The field that marks deleted rows is the first of its kind. */
  predicate MarksDeleted(fields: seq<Field>, i: int) {
    0 <= i < |fields| && fields[i].softDelete && forall k | 0 <= k < i :: !fields[k].softDelete
  }

  lemma {:induction false} SoftDeleteIsFirst(fields: seq<Field>)
    ensures FindSoftDelete(fields).None? ==> forall i :: !MarksDeleted(fields, i)
    ensures FindSoftDelete(fields).Some? ==>
      forall i :: MarksDeleted(fields, i) ==> fields[i] == FindSoftDelete(fields).value
    ensures FindSoftDelete(fields).Some? ==> exists i :: MarksDeleted(fields, i)
  {
    if |fields| > 0 && !fields[0].softDelete {
      SoftDeleteIsFirst(fields[1..]);
      forall i | MarksDeleted(fields, i)
        ensures i > 0 && MarksDeleted(fields[1..], i - 1)
      {
        assert i != 0;
        assert forall k | 0 <= k < i - 1 :: fields[1..][k] == fields[k + 1];
      }
      if i :| MarksDeleted(fields[1..], i) {
        assert MarksDeleted(fields, i + 1) by {
          assert forall k | 1 <= k <= i + 1 :: fields[k] == fields[1..][k - 1];
        }
      }
    } else if |fields| > 0 {
      assert MarksDeleted(fields, 0);
    }
  }

  function Columns(fields: seq<Field>): seq<string> {
    seq(|fields|, i requires 0 <= i < |fields| => fields[i].column)
  }

  function GoNames(fields: seq<Field>): seq<string> {
    seq(|fields|, i requires 0 <= i < |fields| => fields[i].goName)
  }

  function SoftDeleteColumn(d: Descriptor): Option<string> {
    match d.SoftDeleteField()
    case None => None
    case Some(f) => Some(f.column)
  }

  // ---- relation predicate plans ----

  datatype JunctionPlan = JunctionPlan(
    table: string, sourceColumns: seq<string>, targetColumns: seq<string>, softDelete: Option<string>)

  datatype RelationPlan = RelationPlan(
    kind: RelationKind,
    target: Descriptor,
    sourceColumns: seq<string>,
    targetColumns: seq<string>,
    softDelete: Option<string>,
    junction: Option<JunctionPlan>)
  {
    predicate Valid() {
      && |sourceColumns| > 0 && |targetColumns| > 0
      && (junction.None? ==> |sourceColumns| == |targetColumns|)
      && (junction.Some? ==>
            |junction.value.sourceColumns| == |sourceColumns| && |junction.value.targetColumns| == |targetColumns|)
    }
  }

  /** The edge model of a via relation. */
  function EdgeDescriptor(catalog: Catalog, source: Descriptor, relation: Relation): (r: Option<Descriptor>)
    ensures r.Some? ==> exists edge <- source.relations ::
      edge.goName == relation.via && edge.target in catalog && catalog[edge.target] == r.value
    ensures r.None? ==>
      (forall edge <- source.relations :: edge.goName != relation.via) ||
      exists edge <- source.relations :: edge.goName == relation.via && edge.target !in catalog
  {
    match source.RelationByName(relation.via)
    case None => None
    case Some(edge) => if edge.target in catalog then Some(catalog[edge.target]) else None
  }

  /** The metadata a relation predicate needs: paired keys, a known target, and for many-to-many a
      junction with as many columns on each side as the keys have. */
  predicate Usable(catalog: Catalog, source: Descriptor, relation: Relation) {
    && |relation.sourceKey| > 0 && |relation.targetKey| > 0 && relation.target in catalog
    && if relation.kind != ManyToMany then |relation.sourceKey| == |relation.targetKey|
       else
         && relation.junction.Some?
         && |relation.junction.value.sourceColumns| == |relation.sourceKey|
         && |relation.junction.value.targetColumns| == |relation.targetKey|
         && (relation.via != "" ==> EdgeDescriptor(catalog, source, relation).Some?)
  }

  function RelationPlanFor(catalog: Catalog, source: Descriptor, relation: Relation): (r: Option<RelationPlan>)
    ensures r.Some? ==> r.value.Valid()
    ensures r.Some? <==> Usable(catalog, source, relation)
    ensures r.Some? ==> r.value.target == catalog[relation.target]
  {
    if |relation.sourceKey| == 0 || |relation.targetKey| == 0 then None
    else if relation.kind != ManyToMany && |relation.sourceKey| != |relation.targetKey| then None
    else if relation.target !in catalog then None
    else
      var target := catalog[relation.target];
      var plan := RelationPlan(relation.kind, target, Columns(relation.sourceKey), Columns(relation.targetKey),
                               SoftDeleteColumn(target), None);
      if relation.kind != ManyToMany then Some(plan)
      else
        match relation.junction
        case None => None
        case Some(junction) =>
          if |junction.sourceColumns| != |relation.sourceKey|
            || |junction.targetColumns| != |relation.targetKey| then None
          else if relation.via == "" then
            Some(plan.(junction := Some(JunctionPlan(junction.table, junction.sourceColumns, junction.targetColumns,
              None))))
          else
            match EdgeDescriptor(catalog, source, relation)
            case None => None
            case Some(edge) =>
              Some(plan.(junction := Some(JunctionPlan(
                                       junction.table, junction.sourceColumns, junction.targetColumns,
                                         SoftDeleteColumn(edge)))))
  }

  /** The plan of the relation field with this name, if the compiler accepts it. */
  function NamedPlan(catalog: Catalog, source: Descriptor, goName: string): (r: Option<RelationPlan>)
    ensures r.Some? ==> r.value.Valid()
  {
    match source.RelationByName(goName)
    case None => None
    case Some(relation) => RelationPlanFor(catalog, source, relation)
  }
}
