/** The relation-first statements (orm/relation_topn.go, orm/relation_count.go) and what they return: the
    association rows that pass, limited and joined to their roots, or counted. */
module RelationFirst {
  import opened SqlValues
  import opened SqlText
  import opened SqlClause
  import opened Schema
  import opened PredicateMeaning
  import opened PredicateCompiler
  import opened Keyset
  import opened SelectClause
  import opened Pagination
  import opened LimitFirst
  import opened RelationRewrite

  const ASSOCIATION_ALIAS := "tidbgo_a0"
  const MANY_TARGET_ALIAS := "tidbgo_m0"

  /** FROM table [JOIN target ON ...] WHERE ...; an empty alias is the bare table name. */
  datatype AssociationQuery = AssociationQuery(table: string, alias: string, join: Option<Link>, where: seq<Clause>)
  {
    predicate WellFormed() {
      AllWellFormed(where) && (join.Some? ==> |join.value.on| > 0 && AllWellFormed(join.value.on))
    }

    ghost predicate Passes(row: Row, db: Database)
      requires WellFormed()
    {
      AllTrue(where, TableScope(table, alias, row), db)
    }

    ghost predicate PairPasses(row: Row, other: Row, db: Database)
      requires WellFormed() && join.Some?
    {
      var scope := Enter(TableScope(table, alias, row), join.value.alias, other);
      AllTrue(join.value.on, scope, db) && AllTrue(where, scope, db)
    }

    /** One row of the result per pair that passes, without the joined columns. */
    ghost function Copies(row: Row, db: Database): seq<Row>
      requires WellFormed()
    {
      if join.None? then if Passes(row, db) then [row] else []
      else
        var others := Filter(Rows(db, join.value.table), other => PairPasses(row, other, db));
        seq(|others|, i => row)
    }

    ghost function Over(rows: seq<Row>, db: Database): seq<Row>
      requires WellFormed()
    {
      if |rows| == 0 then [] else Over(rows[..|rows| - 1], db) + Copies(rows[|rows| - 1], db)
    }

    ghost function Selected(db: Database): seq<Row>
      requires WellFormed()
    {
      Over(Rows(db, table), db)
    }
  }

  // ---- the statements ----

  function AssociationTable(meta: Metadata): string {
    if meta.junction.None? then meta.target.table else meta.junction.value.table
  }

  function AssociationColumns(meta: Metadata): seq<string> {
    if meta.junction.None? then meta.targetColumns else meta.junction.value.sourceColumns
  }

  predicate Shaped(meta: Metadata) {
    && |meta.sourceColumns| > 0 && |meta.targetColumns| == |meta.targetNames| > 0
    && (meta.junction.None? ==> |meta.targetColumns| == |meta.sourceColumns|)
    && (meta.junction.Some? ==>
          |meta.junction.value.sourceColumns| == |meta.sourceColumns| &&
          |meta.junction.value.targetColumns| == |meta.targetColumns|)
  }

  function JunctionColumn(meta: Metadata, field: string): string
    requires Shaped(meta) && meta.junction.Some? && field in meta.targetNames
  {
    meta.junction.value.targetColumns[IndexOf(meta.targetNames, field)]
  }

  /** Which conditions on the target key the junction writer accepts. */
  predicate JunctionAccepted(p: Predicate, meta: Metadata)
    requires JunctionOnly(meta.targetNames, p)
  {
    if p.operator == OpEqual then
      var field := meta.target.FieldByGoName(p.field);
      field.Some? && !field.value.computed && ValuesAccepted(p, field.value)
    else
      p.field == "" && p.values == [] && forall c <- p.children :: JunctionAccepted(c, meta)
  }

  function JunctionClause(p: Predicate, meta: Metadata, qualifier: string): (c: Clause)
    requires Shaped(meta) && meta.junction.Some? && JunctionOnly(meta.targetNames, p) && JunctionAccepted(p, meta)
    ensures WellFormed(c)
  {
    if p.operator == OpEqual then
      Atom(Compare(ColumnRef(qualifier, JunctionColumn(meta, p.field)), Equal, p.values[0].value))
    else
      Group(AND, seq(|p.children|, i requires 0 <= i < |p.children| => JunctionClause(p.children[i], meta, qualifier)))
  }

  predicate JunctionAllAccepted(ps: seq<Predicate>, meta: Metadata) {
    forall i | 0 <= i < |ps| :: JunctionOnly(meta.targetNames, ps[i]) && JunctionAccepted(ps[i], meta)
  }

  function JunctionClauses(ps: seq<Predicate>, meta: Metadata, qualifier: string): (cs: seq<Clause>)
    requires Shaped(meta) && meta.junction.Some? && JunctionAllAccepted(ps, meta)
    ensures |cs| == |ps| && AllWellFormed(cs)
  {
    seq(|ps|, i requires 0 <= i < |ps| => JunctionClause(ps[i], meta, qualifier))
  }

  /** A plan whose conditions the compiler accepts on the target. */
  predicate PlanReady(catalog: Catalog, plan: RewritePlan) {
    && Shaped(plan.meta) && (plan.junctionOnly ==> plan.meta.junction.Some?)
    && if plan.junctionOnly then JunctionAllAccepted(plan.has.children, plan.meta)
       else AllAccepted(plan.has.children, catalog, plan.meta.target)
  }

  function TargetClauses(catalog: Catalog, plan: RewritePlan, qualifier: string): (cs: seq<Clause>)
    requires PlanReady(catalog, plan)
    ensures |cs| == |plan.has.children| && AllWellFormed(cs)
  {
    if plan.junctionOnly then JunctionClauses(plan.has.children, plan.meta, qualifier)
    else WriteAll(plan.has.children, catalog, Place(plan.meta.target, qualifier, 0, 0), 0).clauses
  }

  function NotNullClauses(qualifier: string, columns: seq<string>): (cs: seq<Clause>)
    ensures |cs| == |columns| && AllWellFormed(cs)
  {
    seq(|columns|, i requires 0 <= i < |columns| => Atom(NullTest(ColumnRef(qualifier, columns[i]), true)))
  }

  /** The edge scope of a via relation: live edges with whole keys. */
  function JunctionScope(junction: Option<JunctionMetadata>, qualifier: string): (cs: seq<Clause>)
    ensures AllWellFormed(cs)
  {
    if junction.None? then []
    else LiveClause(qualifier, junction.value.softDelete) + NotNullClauses(qualifier, junction.value.nonNull)
  }

  function WhereOf(catalog: Catalog, plan: RewritePlan, alias: string, targetAlias: string): (cs: seq<Clause>)
    requires PlanReady(catalog, plan)
    ensures AllWellFormed(cs)
  {
    LiveClause(targetAlias, SoftDeleteColumn(plan.meta.target)) + JunctionScope(plan.meta.junction, alias)
    + TargetClauses(catalog, plan, targetAlias)
  }

  predicate JoinsTarget(plan: RewritePlan) {
    plan.meta.junction.Some? && !plan.junctionOnly
  }

  function TargetLink(meta: Metadata): Link
    requires Shaped(meta) && meta.junction.Some?
  {
    Link(meta.target.table, MANY_TARGET_ALIAS,
         Equalities(MANY_TARGET_ALIAS, meta.targetColumns, ASSOCIATION_ALIAS, meta.junction.value.targetColumns))
  }

  function TopNQuery(catalog: Catalog, plan: RewritePlan): (q: AssociationQuery)
    requires PlanReady(catalog, plan)
    ensures q.WellFormed()
  {
    AssociationQuery(
      AssociationTable(plan.meta), ASSOCIATION_ALIAS,
      if JoinsTarget(plan) then Some(TargetLink(plan.meta)) else None,
      WhereOf(catalog, plan, ASSOCIATION_ALIAS, if JoinsTarget(plan) then MANY_TARGET_ALIAS else ASSOCIATION_ALIAS))
  }

  function CountQuery(catalog: Catalog, plan: RewritePlan): (q: AssociationQuery)
    requires PlanReady(catalog, plan) && !JoinsTarget(plan)
    ensures q.WellFormed()
  {
    AssociationQuery(AssociationTable(plan.meta), "", None, WhereOf(catalog, plan, "", ""))
  }

  // ---- what the database is assumed to keep ----

  /** No two rows with the same whole primary key, or with the same whole unique key. */
  ghost predicate KeysHold(d: Descriptor, rows: seq<Row>) {
    && (d.PrimaryKeyFields() != [] ==> CompleteDistinct(Columns(d.PrimaryKeyFields()), rows))
    && forall key <- d.uniqueKeys :: CompleteDistinct(Columns(key), rows)
  }

  lemma DeclaredKeysHold(d: Descriptor, rows: seq<Row>)
    ensures KeysHold(d, rows) <==> forall key <- DeclaredKeys(d) :: CompleteDistinct(Columns(key), rows)
  {
    hide CompleteDistinct;
    var primary := d.PrimaryKeyFields();
    assert forall key :: key in DeclaredKeys(d) <==> key in d.uniqueKeys || (primary != [] && key == primary);
  }

  ghost predicate References(rows: seq<Row>, columns: seq<string>, others: seq<Row>, otherColumns: seq<string>)
    requires |columns| == |otherColumns|
  {
    forall row <- rows :: Complete(columns, row) ==> exists other <- others :: Linked(row, columns, other, otherColumns)
  }

  /** A query the rewrite is proven for, and a database that keeps the declared keys, the relation's
      references, and for a pure junction its contract: whole and unique source-target pairs. */
  datatype Setting = Setting(catalog: Catalog, d: Descriptor, s: Selection, plan: RewritePlan, db: Database)
  {
    function Meta(): Metadata { plan.meta }

    function Target(): Descriptor { plan.meta.target }

    function Children(): seq<Predicate> { plan.has.children }

    ghost predicate ModelValid() {
      && Proven(catalog, d, s, plan) && AllAccepted(s.predicates, catalog, d)
      && UniqueNames(d.fields) && UniqueNames(Target().fields)
      && (forall f <- plan.relation.sourceKey :: f in d.fields)
      && (forall f <- plan.relation.targetKey :: f in Target().fields)
      && (forall key <- DeclaredKeys(Target()), f <- key :: f in Target().fields)
    }

    ghost predicate EdgeKeysHold(j: JunctionMetadata, edges: seq<Row>) {
      if j.via then
        var edge := EdgeDescriptor(catalog, d, plan.relation);
        edge.Some? && KeysHold(edge.value, edges)
      else
        && CompleteDistinct(j.sourceColumns + j.targetColumns, edges)
        && forall e <- edges :: Complete(j.sourceColumns, e) && Complete(j.targetColumns, e)
    }

    ghost predicate Valid() {
      && ModelValid() && Shaped(Meta())
      && (forall row <- Rows(db, d.table) :: Complete(Columns(d.PrimaryKeyFields()), row))
      && KeysHold(d, Rows(db, d.table)) && KeysHold(Target(), Rows(db, Target().table))
      && References(Rows(db, AssociationTable(Meta())), AssociationColumns(Meta()), Rows(db, d.table),
        Meta().sourceColumns)
      && (Meta().junction.Some? ==>
            var j := Meta().junction.value;
            && EdgeKeysHold(j, Rows(db, j.table))
            && References(Rows(db, j.table), j.targetColumns, Rows(db, Target().table), Meta().targetColumns))
    }

    /** The target rows that count for a root: live, and meeting the conditions. */
    ghost predicate TargetKept(t: Row)
      requires AllAccepted(Children(), catalog, Target())
    {
      Live(t, SoftDeleteColumn(Target())) && AndMeaning(Children(), catalog, Target(), t, db) == True
    }

    ghost predicate Matches(e: Row, t: Row)
      requires Shaped(Meta()) && Meta().junction.Some? && AllAccepted(Children(), catalog, Target())
    {
      TargetKept(t) && Linked(t, Meta().targetColumns, e, Meta().junction.value.targetColumns)
    }

    ghost predicate EdgeKept(e: Row)
      requires Shaped(Meta()) && Meta().junction.Some? && AllAccepted(Children(), catalog, Target())
    {
      var j := Meta().junction.value;
      Complete(j.sourceColumns, e) && Live(e, j.softDelete) && exists t <- Rows(db, Target().table) :: Matches(e, t)
    }

    /** The association rows that count, said without SQL. */
    ghost predicate Kept(row: Row)
      requires Shaped(Meta()) && AllAccepted(Children(), catalog, Target())
    {
      if Meta().junction.None? then TargetKept(row) else EdgeKept(row)
    }

    ghost function Scene(): Scene
      requires Shaped(Meta()) && AllAccepted(Children(), catalog, Target())
    {
      LimitFirst.Scene(Filter(Rows(db, AssociationTable(Meta())), row => Kept(row)), AssociationColumns(Meta()),
                       Rows(db, d.table), Meta().sourceColumns)
    }
  }
}
