/** Why the relation-first statements answer like EXISTS, and exactly when they do not. */
module RelationFirstMeaning {
  import opened SqlValues
  import opened SqlText
  import opened SqlClause
  import opened Schema
  import opened PredicateMeaning
  import opened PredicateCompiler
  import opened Ordering
  import opened Keyset
  import opened SelectClause
  import opened Pagination
  import opened LimitFirst
  import opened RelationRewrite
  import opened RelationFirst

  // ---- the conditions fix a key of the target ----

  lemma {:induction false} AndTrue(ps: seq<Predicate>, catalog: Catalog, d: Descriptor, row: Row, db: Database, i: nat)
    requires AllAccepted(ps, catalog, d) && AndMeaning(ps, catalog, d, row, db) == True && i < |ps|
    ensures Meaning(ps[i], catalog, d, row, db) == True
  {
    hide Meaning;
    if i < |ps| - 1 {
      AndTrue(ps[..|ps| - 1], catalog, d, row, db, i);
    }
  }

  lemma {:induction false} AllTrueAnd(ps: seq<Predicate>, catalog: Catalog, d: Descriptor, row: Row, db: Database)
    requires AllAccepted(ps, catalog, d) && forall i | 0 <= i < |ps| :: Meaning(ps[i], catalog, d, row, db) == True
    ensures AndMeaning(ps, catalog, d, row, db) == True
  {
    hide Meaning;
    if |ps| > 0 {
      AllTrueAnd(ps[..|ps| - 1], catalog, d, row, db);
    }
  }

  lemma AndMeans(p: Predicate, catalog: Catalog, d: Descriptor, row: Row, db: Database)
    requires p.operator == OpAnd && Accepted(p, catalog, d)
    ensures AllAccepted(p.children, catalog, d)
    ensures Meaning(p, catalog, d, row, db) == AndMeaning(p.children, catalog, d, row, db)
  {
  }

  lemma EqualMeans(p: Predicate, catalog: Catalog, d: Descriptor, row: Row, db: Database)
    requires p.operator == OpEqual && Accepted(p, catalog, d)
    ensures ScalarAccepted(p, d)
    ensures Meaning(p, catalog, d, row, db) == True <==>
      Column(row, d.FieldByGoName(p.field).value.column) == Some(p.values[0].value)
  {
  }

  /** Rows that meet conditions agree on every field the conditions fix. */
  lemma {:induction false} FixedAgrees(
    ps: seq<Predicate>, field: string, catalog: Catalog, d: Descriptor, a: Row, b: Row, db: Database)
    requires AllAccepted(ps, catalog, d) && FixedByEqual(ps, field)
    requires AndMeaning(ps, catalog, d, a, db) == True && AndMeaning(ps, catalog, d, b, db) == True
    ensures d.FieldByGoName(field).Some?
    ensures var c := d.FieldByGoName(field).value.column; c in a && c in b && a[c] == b[c]
    decreases ps
  {
    hide Meaning, AndMeaning;
    var i :| 0 <= i < |ps| && Fixes(ps[i], field);
    AndTrue(ps, catalog, d, a, db, i);
    AndTrue(ps, catalog, d, b, db, i);
    if ps[i].operator == OpAnd {
      AndMeans(ps[i], catalog, d, a, db);
      AndMeans(ps[i], catalog, d, b, db);
      FixedAgrees(ps[i].children, field, catalog, d, a, b, db);
    } else {
      EqualMeans(ps[i], catalog, d, a, db);
      EqualMeans(ps[i], catalog, d, b, db);
    }
  }

  /** The declared target key that the relation and the conditions fix. */
  ghost function FixedKey(w: Setting): (key: seq<Field>)
    requires w.Valid()
    ensures key in DeclaredKeys(w.Target()) && Covered(w.Meta(), w.Children(), GoNames(key))
  {
    FixedKeyExists(w);
    var key :| key in DeclaredKeys(w.Target()) && Covered(w.Meta(), w.Children(), GoNames(key));
    key
  }

  lemma FixedKeyExists(w: Setting)
    requires w.Valid()
    ensures exists key <- DeclaredKeys(w.Target()) :: Covered(w.Meta(), w.Children(), GoNames(key))
  {
    hide Covered;
    var names :| names in w.Meta().uniqueKeys && Covered(w.Meta(), w.Children(), names);
    MetadataKeys(w);
    var i :| 0 <= i < |w.Meta().uniqueKeys| && w.Meta().uniqueKeys[i] == names;
    assert DeclaredKeys(w.Target())[i] in DeclaredKeys(w.Target());
  }

  lemma MetadataKeys(w: Setting)
    requires MetadataFor(w.catalog, w.d, w.plan.relation) == Some(w.plan.meta)
    ensures w.Meta().uniqueKeys == KeyNames(DeclaredKeys(w.Target()))
    ensures w.Meta().targetNames == GoNames(w.plan.relation.targetKey)
    ensures w.Meta().targetColumns == Columns(w.plan.relation.targetKey)
    ensures w.Meta().sourceNames == GoNames(w.plan.relation.sourceKey)
    ensures w.Meta().sourceColumns == Columns(w.plan.relation.sourceKey)
  {
  }

  lemma FixedFieldIs(w: Setting, i: nat)
    requires w.Valid() && i < |FixedKey(w)|
    ensures var f := FixedKey(w)[i];
      && f in w.Target().fields
      && ((w.Meta().junction.None? && f.goName in w.Meta().targetNames) || FixedByEqual(w.Children(), f.goName))
  {
    hide FixedByEqual, UniquePerRoot, MetadataFor, KeysHold, References;
    var key := FixedKey(w);
    assert GoNames(key)[i] == key[i].goName && key[i] in key && GoNames(key)[i] in GoNames(key);
  }

  /** Two target rows that count, and for a direct relation belong to the same root, agree on the fixed key. */
  lemma FixedKeyAgrees(w: Setting, a: Row, b: Row)
    requires w.Valid() && AllAccepted(w.Children(), w.catalog, w.Target()) && w.TargetKept(a) && w.TargetKept(b)
    requires w.Meta().junction.None? ==>
      var columns := w.Meta().targetColumns;
      Complete(columns, a) && Complete(columns, b) && KeyOf(columns, a) == KeyOf(columns, b)
    ensures var columns := Columns(FixedKey(w));
      Complete(columns, a) && Complete(columns, b) && KeyOf(columns, a) == KeyOf(columns, b)
  {
    hide AndMeaning, FixedByEqual, KeyOf, Covered, Complete, FixedKey, Setting.Valid, Setting.TargetKept;
    var key := FixedKey(w);
    var columns := Columns(key);
    forall i | 0 <= i < |columns|
      ensures columns[i] in a && columns[i] in b && a[columns[i]] == b[columns[i]]
    {
      FixedFieldIs(w, i);
      FixedFieldAgrees(w, a, b, key[i]);
    }
    SameCells(columns, a, b);
  }

  lemma SameCells(columns: seq<string>, a: Row, b: Row)
    requires forall i | 0 <= i < |columns| :: columns[i] in a && columns[i] in b && a[columns[i]] == b[columns[i]]
    ensures Complete(columns, a) && Complete(columns, b) && KeyOf(columns, a) == KeyOf(columns, b)
  {
  }

  lemma SameCellAt(columns: seq<string>, a: Row, b: Row, i: nat)
    requires i < |columns| && Complete(columns, a) && Complete(columns, b) && KeyOf(columns, a) == KeyOf(columns, b)
    ensures columns[i] in a && columns[i] in b && a[columns[i]] == b[columns[i]]
  {
    assert KeyOf(columns, a)[i] == KeyOf(columns, b)[i];
  }

  lemma FixedFieldAgrees(w: Setting, a: Row, b: Row, f: Field)
    requires w.Valid() && AllAccepted(w.Children(), w.catalog, w.Target()) && w.TargetKept(a) && w.TargetKept(b)
    requires w.Meta().junction.None? ==>
      var columns := w.Meta().targetColumns;
      Complete(columns, a) && Complete(columns, b) && KeyOf(columns, a) == KeyOf(columns, b)
    requires f in w.Target().fields
    requires (w.Meta().junction.None? && f.goName in w.Meta().targetNames) || FixedByEqual(w.Children(), f.goName)
    ensures f.column in a && f.column in b && a[f.column] == b[f.column]
  {
    hide AndMeaning, FixedByEqual, KeyOf, Complete, MetadataFor, UniquePerRoot, KeysHold, References;
    FoundField(w.Target().fields, f);
    if FixedByEqual(w.Children(), f.goName) {
      FixedAgrees(w.Children(), f.goName, w.catalog, w.Target(), a, b, w.db);
    } else {
      MetadataKeys(w);
      var i :| 0 <= i < |w.Meta().targetNames| && w.Meta().targetNames[i] == f.goName;
      FoundField(w.Target().fields, w.plan.relation.targetKey[i]);
      SameCellAt(w.Meta().targetColumns, a, b, i);
    }
  }

  // ---- keys of filtered rows ----

  /** Rows with one whole key are one row. */
  lemma SameRow(columns: seq<string>, rows: seq<Row>, a: Row, b: Row)
    requires CompleteDistinct(columns, rows) && a in rows && b in rows
    requires Complete(columns, a) && Complete(columns, b) && KeyOf(columns, a) == KeyOf(columns, b)
    ensures a == b
  {
    hide Complete, KeyOf;
    var i :| 0 <= i < |rows| && rows[i] == a;
    var j :| 0 <= j < |rows| && rows[j] == b;
  }

  /** Rows that pass and share a whole `key` share a whole `declared` key too. */
  ghost predicate Decides(rows: seq<Row>, p: Row -> bool, key: seq<string>, declared: seq<string>) {
    forall a <- rows, b <- rows | p(a) && p(b) && Complete(key, a) && Complete(key, b) && KeyOf(key, a) == KeyOf(key,
      b) ::
      Complete(declared, a) && Complete(declared, b) && KeyOf(declared, a) == KeyOf(declared, b)
  }

  lemma LastKeyDiffers(rows: seq<Row>, p: Row -> bool, declared: seq<string>, key: seq<string>, i: nat)
    requires CompleteDistinct(declared, rows) && Decides(rows, p, key, declared)
    requires i < |rows| - 1 && p(rows[i]) && p(rows[|rows| - 1])
    requires Complete(key, rows[i]) && Complete(key, rows[|rows| - 1])
    ensures KeyOf(key, rows[i]) != KeyOf(key, rows[|rows| - 1])
  {
    hide KeyOf, Complete;
    assert rows[i] in rows && rows[|rows| - 1] in rows;
  }

  /** Then `key` is distinct among the rows that pass. */
  lemma {:induction false} FilterKeyDistinct(
    rows: seq<Row>, p: Row -> bool, declared: seq<string>, key: seq<string>)
    requires CompleteDistinct(declared, rows) && Decides(rows, p, key, declared)
    ensures CompleteDistinct(key, Filter(rows, p))
  {
    hide KeyOf, Complete, Decides;
    if |rows| > 0 {
      var n := |rows| - 1;
      FrontDecides(rows, p, declared, key);
      FilterKeyDistinct(rows[..n], p, declared, key);
      FilterIn(rows[..n], p);
      forall row <- Filter(rows[..n], p) | p(rows[n]) && Complete(key, row) && Complete(key, rows[n])
        ensures KeyOf(key, row) != KeyOf(key, rows[n])
      {
        var i :| 0 <= i < n && rows[..n][i] == row;
        LastKeyDiffers(rows, p, declared, key, i);
      }
    }
  }

  lemma FrontDecides(rows: seq<Row>, p: Row -> bool, declared: seq<string>, key: seq<string>)
    requires |rows| > 0 && CompleteDistinct(declared, rows) && Decides(rows, p, key, declared)
    ensures CompleteDistinct(declared, rows[..|rows| - 1]) && Decides(rows[..|rows| - 1], p, key, declared)
  {
    hide KeyOf, Complete;
    assert forall a <- rows[..|rows| - 1] :: a in rows;
  }

  lemma {:induction false} FilterAtMostOne(rows: seq<Row>, p: Row -> bool, declared: seq<string>)
    requires CompleteDistinct(declared, rows)
    requires forall a <- rows, b <- rows | p(a) && p(b) ::
      Complete(declared, a) && Complete(declared, b) && KeyOf(declared, a) == KeyOf(declared, b)
    ensures |Filter(rows, p)| == if exists row <- rows :: p(row) then 1 else 0
  {
    hide KeyOf, Complete;
    FilterIn(rows, p);
    var kept := Filter(rows, p);
    if exists row <- rows :: p(row) {
      var row :| row in rows && p(row);
      assert row in kept;
    }
    if |kept| > 1 {
      FilterKeyDistinct(rows, p, declared, []);
      assert kept[0] in kept && kept[1] in kept;
      EmptyKey(kept[0], kept[1]);
    }
    if |kept| == 1 {
      assert kept[0] in kept;
    }
  }

  lemma EmptyKey(a: Row, b: Row)
    ensures Complete([], a) && Complete([], b) && KeyOf([], a) == KeyOf([], b)
  {
  }

  // ---- the plan the EXISTS form uses is the same relation ----

  lemma PlanAgrees(w: Setting)
    requires w.ModelValid()
    ensures var named := NamedPlan(w.catalog, w.d, w.plan.has.field);
      && named.Some? && var r := named.value;
      && AllAccepted(w.Children(), w.catalog, w.Target())
      && r.target == w.Target() && r.softDelete == SoftDeleteColumn(w.Target())
      && r.sourceColumns == w.Meta().sourceColumns && r.targetColumns == w.Meta().targetColumns
      && (r.junction.Some? <==> w.Meta().junction.Some?)
      && (r.junction.Some? ==>
            var a, b := r.junction.value, w.Meta().junction.value;
            && a.table == b.table && a.sourceColumns == b.sourceColumns && a.targetColumns == b.targetColumns
            && a.softDelete == b.softDelete)
      && Shaped(w.Meta())
  {
    hide UniquePerRoot, CanFilterJunction, DeclaredKeys, PairUnique;
    assert w.s.predicates[0] == w.plan.has;
    assert Accepted(w.plan.has, w.catalog, w.d);
  }

  lemma {:induction false} JunctionAcceptedToo(p: Predicate, catalog: Catalog, meta: Metadata)
    requires JunctionOnly(meta.targetNames, p) && Accepted(p, catalog, meta.target)
    ensures JunctionAccepted(p, meta)
  {
    if p.operator == OpAnd {
      forall c <- p.children
        ensures JunctionAccepted(c, meta)
      {
        JunctionAcceptedToo(c, catalog, meta);
      }
    }
  }

  lemma ReadyToCompile(w: Setting)
    requires w.Valid()
    ensures AllAccepted(w.Children(), w.catalog, w.Target()) && PlanReady(w.catalog, w.plan)
  {
    hide Accepted, UniquePerRoot, MetadataFor, KeysHold, References, JunctionOnly, JunctionAccepted;
    PlanAgrees(w);
    if w.plan.junctionOnly {
      forall i | 0 <= i < |w.Children()|
        ensures JunctionOnly(w.Meta().targetNames, w.Children()[i]) && JunctionAccepted(w.Children()[i], w.Meta())
      {
        assert w.Children()[i] in w.Children();
        JunctionAcceptedToo(w.Children()[i], w.catalog, w.Meta());
      }
    }
  }

  // ---- what passes the WHERE ----

  lemma {:induction false} OverIsFilter(q: AssociationQuery, rows: seq<Row>, p: Row -> bool, db: Database)
    requires q.WellFormed() && forall row <- rows :: q.Copies(row, db) == if p(row) then [row] else []
    ensures q.Over(rows, db) == Filter(rows, p)
  {
    hide AssociationQuery.Copies;
    if |rows| > 0 {
      OverIsFilter(q, rows[..|rows| - 1], p, db);
    }
  }

  lemma ReservedNames(n: nat)
    ensures TargetAlias(n) != ASSOCIATION_ALIAS && JunctionAlias(n) != ASSOCIATION_ALIAS
    ensures TargetAlias(n) != MANY_TARGET_ALIAS && JunctionAlias(n) != MANY_TARGET_ALIAS
  {
    assert TargetAlias(n)[7] == 'r' && JunctionAlias(n)[7] == 'j';
    assert ASSOCIATION_ALIAS[7] == 'a' && MANY_TARGET_ALIAS[7] == 'm';
  }

  lemma LiveKeeps(alias: string, softDelete: Option<string>, scope: Scope, db: Database)
    requires alias in scope
    ensures AllTrue(LiveClause(alias, softDelete), scope, db) <==> Live(scope[alias], softDelete)
  {
    LiveMeaning(alias, softDelete, scope, db);
  }

  lemma NotNullKeeps(alias: string, columns: seq<string>, scope: Scope, db: Database)
    requires alias in scope
    ensures AllTrue(NotNullClauses(alias, columns), scope, db) <==> Complete(columns, scope[alias])
  {
    var cs := NotNullClauses(alias, columns);
    if |cs| > 0 {
      JoinedTrue(cs, scope, db);
      assert forall i | 0 <= i < |cs| :: Eval(Plain(cs[i]), scope, db) == True <==> columns[i] in scope[alias];
    }
  }

  ghost predicate ScopeKept(j: JunctionMetadata, e: Row) {
    Live(e, j.softDelete) && Complete(j.nonNull, e)
  }

  lemma JunctionScopeKeeps(j: JunctionMetadata, alias: string, scope: Scope, db: Database)
    requires alias in scope
    ensures AllTrue(JunctionScope(Some(j), alias), scope, db) <==> ScopeKept(j, scope[alias])
  {
    hide NotNullClauses, LiveClause;
    TwoParts(LiveClause(alias, j.softDelete), NotNullClauses(alias, j.nonNull), scope, db);
    LiveKeeps(alias, j.softDelete, scope, db);
    NotNullKeeps(alias, j.nonNull, scope, db);
  }

  lemma ConditionsKeep(catalog: Catalog, d: Descriptor, ps: seq<Predicate>, qualifier: string, scope: Scope,
    row: Row, db: Database)
    requires AllAccepted(ps, catalog, d) && InScope(Place(d, qualifier, 0, 0), 0, scope, row)
    ensures AllTrue(WriteAll(ps, catalog, Place(d, qualifier, 0, 0), 0).clauses, scope, db)
      <==> AndMeaning(ps, catalog, d, row, db) == True
  {
    if |ps| > 0 {
      WriteAllMeaning(ps, catalog, Place(d, qualifier, 0, 0), 0, scope, row, db);
    }
  }

  // ---- a direct relation ----

  lemma DirectPasses(w: Setting, q: AssociationQuery, t: Row)
    requires w.Valid() && PlanReady(w.catalog, w.plan) && w.Meta().junction.None?
    requires q == TopNQuery(w.catalog, w.plan) || (RootNameFree(w.Target().table) && q == CountQuery(w.catalog, w.plan))
    ensures AllAccepted(w.Children(), w.catalog, w.Target()) && (q.Passes(t, w.db) <==> w.TargetKept(t))
  {
    hide Accepted, Eval, PlainJoined, WriteAll, AndMeaning, Proven, Setting.Valid, LiveClause, JunctionAllAccepted;
    DirectPlan(w);
    var target := w.Target();
    var scope := TableScope(q.table, q.alias, t);
    forall n: nat | n > 0
      ensures TargetAlias(n) !in scope && JunctionAlias(n) !in scope
    {
      ReservedNames(n);
      AliasesDistinct(n, n);
    }
    assert InScope(Place(target, q.alias, 0, 0), 0, scope, t);
    ConditionsKeep(w.catalog, target, w.Children(), q.alias, scope, t, w.db);
    LiveKeeps(q.alias, SoftDeleteColumn(target), scope, w.db);
    ThreeParts(LiveClause(q.alias, SoftDeleteColumn(target)), [], TargetClauses(w.catalog, w.plan, q.alias), scope,
      w.db);
  }

  lemma DirectPlan(w: Setting)
    requires w.Valid() && w.Meta().junction.None?
    ensures !w.plan.junctionOnly && AllAccepted(w.Children(), w.catalog, w.Target())
  {
    ReadyToCompile(w);
  }

  // ---- through a junction ----

  /** A condition on the target key says the same about the target row as about its edge. */
  lemma {:induction false} JunctionClauseMeaning(
    w: Setting, p: Predicate, alias: string, scope: Scope, e: Row, t: Row)
    requires w.Valid() && Shaped(w.Meta()) && w.Meta().junction.Some?
    requires JunctionOnly(w.Meta().targetNames, p) && Accepted(p, w.catalog, w.Target())
    requires JunctionAccepted(p, w.Meta())
    requires alias in scope && scope[alias] == e
    requires Linked(t, w.Meta().targetColumns, e, w.Meta().junction.value.targetColumns)
    ensures Eval(Plain(JunctionClause(p, w.Meta(), alias)), scope, w.db) == True
      <==> Meaning(p, w.catalog, w.Target(), t, w.db) == True
    decreases p, 1
  {
    hide Setting.Valid, Meaning, AndMeaning, JunctionAccepted, Linked, Accepted;
    if p.operator == OpEqual {
      EqualMeans(p, w.catalog, w.Target(), t, w.db);
      LinkedField(w, p.field, e, t);
      EqualClause(p, w.Meta(), alias, scope, w.db);
    } else {
      AndMeans(p, w.catalog, w.Target(), t, w.db);
      AndClause(p, w.Meta(), alias);
      JunctionClausesMeaning(w, p.children, alias, scope, e, t);
    }
  }

  lemma EqualClause(p: Predicate, meta: Metadata, alias: string, scope: Scope, db: Database)
    requires Shaped(meta) && meta.junction.Some?
    requires JunctionOnly(meta.targetNames, p) && JunctionAccepted(p, meta) && p.operator == OpEqual && alias in scope
    ensures Eval(Plain(JunctionClause(p, meta, alias)), scope, db) == True
      <==> Column(scope[alias], JunctionColumn(meta, p.field)) == Some(p.values[0].value)
  {
  }

  lemma AndClause(p: Predicate, meta: Metadata, alias: string)
    requires Shaped(meta) && meta.junction.Some?
    requires JunctionOnly(meta.targetNames, p) && JunctionAccepted(p, meta) && p.operator == OpAnd
    ensures JunctionAllAccepted(p.children, meta)
    ensures Plain(JunctionClause(p, meta, alias)) == PlainJoined(AND, JunctionClauses(p.children, meta, alias))
  {
    forall i | 0 <= i < |p.children|
      ensures JunctionOnly(meta.targetNames, p.children[i]) && JunctionAccepted(p.children[i], meta)
    {
      assert p.children[i] in p.children;
    }
    assert JunctionClause(p, meta, alias) == Group(AND, JunctionClauses(p.children, meta, alias));
  }

  lemma LinkedField(w: Setting, field: string, e: Row, t: Row)
    requires w.Valid() && w.Meta().junction.Some? && field in w.Meta().targetNames
    requires Linked(t, w.Meta().targetColumns, e, w.Meta().junction.value.targetColumns)
    ensures w.Target().FieldByGoName(field).Some?
    ensures Column(t, w.Target().FieldByGoName(field).value.column) == Column(e, JunctionColumn(w.Meta(), field))
  {
    hide UniquePerRoot, MetadataFor, KeysHold, References, Proven;
    var i := IndexOf(w.Meta().targetNames, field);
    TargetKeyField(w, i);
    assert w.Meta().targetColumns[i] in t;
  }

  lemma TargetKeyField(w: Setting, i: nat)
    requires w.ModelValid() && i < |w.Meta().targetNames|
    ensures i < |w.Meta().targetColumns|
    ensures var f := w.Target().FieldByGoName(w.Meta().targetNames[i]);
      f.Some? && f.value.column == w.Meta().targetColumns[i]
  {
    hide UniquePerRoot, CanFilterJunction;
    MetadataKeys(w);
    FoundField(w.Target().fields, w.plan.relation.targetKey[i]);
  }

  lemma {:induction false} JunctionClausesMeaning(
    w: Setting, ps: seq<Predicate>, alias: string, scope: Scope, e: Row, t: Row)
    requires w.Valid() && Shaped(w.Meta()) && w.Meta().junction.Some?
    requires AllAccepted(ps, w.catalog, w.Target()) && JunctionAllAccepted(ps, w.Meta())
    requires alias in scope && scope[alias] == e
    requires Linked(t, w.Meta().targetColumns, e, w.Meta().junction.value.targetColumns)
    ensures AllTrue(JunctionClauses(ps, w.Meta(), alias), scope, w.db)
      <==> AndMeaning(ps, w.catalog, w.Target(), t, w.db) == True
    decreases ps, 0
  {
    hide Setting.Valid, Meaning, AndMeaning, JunctionAccepted, Linked, Accepted, Eval, Plain, PlainJoined, JunctionOnly;
    var cs := JunctionClauses(ps, w.Meta(), alias);
    forall i | 0 <= i < |ps|
      ensures Eval(Plain(cs[i]), scope, w.db) == True <==> Meaning(ps[i], w.catalog, w.Target(), t, w.db) == True
    {
      JunctionClauseMeaning(w, ps[i], alias, scope, e, t);
    }
    if |ps| > 0 {
      JoinedTrue(cs, scope, w.db);
    }
    RunTrue(ps, w.catalog, w.Target(), t, w.db);
  }

  lemma RunTrue(ps: seq<Predicate>, catalog: Catalog, d: Descriptor, row: Row, db: Database)
    requires AllAccepted(ps, catalog, d)
    ensures AndMeaning(ps, catalog, d, row, db) == True
      <==> forall i | 0 <= i < |ps| :: Meaning(ps[i], catalog, d, row, db) == True
  {
    hide AndMeaning, Meaning;
    if AndMeaning(ps, catalog, d, row, db) == True {
      forall i | 0 <= i < |ps|
        ensures Meaning(ps[i], catalog, d, row, db) == True
      {
        AndTrue(ps, catalog, d, row, db, i);
      }
    } else if forall i | 0 <= i < |ps| :: Meaning(ps[i], catalog, d, row, db) == True {
      AllTrueAnd(ps, catalog, d, row, db);
    }
  }

  /** Edges the scope keeps have whole keys, through IS NOT NULL or the pure-junction contract. */
  lemma ScopeMeansWhole(w: Setting, e: Row)
    requires w.Valid() && w.Meta().junction.Some? && e in Rows(w.db, w.Meta().junction.value.table)
    ensures var j := w.Meta().junction.value;
      && (ScopeKept(j, e) ==> Complete(j.sourceColumns, e) && Complete(j.targetColumns, e))
      && (Live(e, j.softDelete) && Complete(j.sourceColumns, e) && Complete(j.targetColumns, e) ==> ScopeKept(j, e))
  {
    hide UniquePerRoot, CanFilterJunction, KeysHold, References, DeclaredKeys, CompleteDistinct;
    var j := w.Meta().junction.value;
    if j.via {
      ViaNonNull(w);
      CompleteIffAll(j.nonNull, e);
      CompleteIffAll(j.sourceColumns, e);
      CompleteIffAll(j.targetColumns, e);
    } else {
      PureNonNull(w);
    }
  }

  lemma CompleteIffAll(columns: seq<string>, row: Row)
    ensures Complete(columns, row) <==> forall c <- columns :: c in row
  {
    if Complete(columns, row) {
      forall c <- columns
        ensures c in row
      {
        var i :| 0 <= i < |columns| && columns[i] == c;
      }
    }
  }

  lemma ViaNonNull(w: Setting)
    requires w.ModelValid() && w.Meta().junction.Some? && w.Meta().junction.value.via
    ensures var j := w.Meta().junction.value;
      forall c :: c in j.nonNull <==> c in j.sourceColumns || c in j.targetColumns
  {
    hide UniquePerRoot, CanFilterJunction, PairUnique;
  }

  lemma PureNonNull(w: Setting)
    requires w.ModelValid() && w.Meta().junction.Some? && !w.Meta().junction.value.via
    ensures w.Meta().junction.value.nonNull == []
  {
    hide UniquePerRoot, CanFilterJunction, PairUnique;
  }

  lemma LinkedIsWhole(a: Row, ac: seq<string>, b: Row, bc: seq<string>)
    requires |ac| == |bc| && Linked(a, ac, b, bc)
    ensures Complete(ac, a) && Complete(bc, b)
  {
  }

  /** The joined form: an edge and a target row pass together when the edge is live and whole and they match. */
  lemma PairPassesIff(w: Setting, e: Row, t: Row)
    requires w.Valid() && PlanReady(w.catalog, w.plan) && JoinsTarget(w.plan)
    ensures AllAccepted(w.Children(), w.catalog, w.Target())
    ensures TopNQuery(w.catalog, w.plan).PairPasses(e, t, w.db)
      <==> ScopeKept(w.Meta().junction.value, e) && w.Matches(e, t)
  {
    hide Accepted, Eval, PlainJoined, WriteAll, AndMeaning, Proven, Setting.Valid, LiveClause, NotNullClauses;
    hide Equalities, Linked;
    var target, meta := w.Target(), w.Meta();
    var j := meta.junction.value;
    var q := TopNQuery(w.catalog, w.plan);
    var scope := Enter(TableScope(q.table, q.alias, e), MANY_TARGET_ALIAS, t);
    forall n: nat | n > 0
      ensures TargetAlias(n) !in scope && JunctionAlias(n) !in scope
    {
      ReservedNames(n);
    }
    assert InScope(Place(target, MANY_TARGET_ALIAS, 0, 0), 0, scope, t);
    EqualitiesMeaning(MANY_TARGET_ALIAS, meta.targetColumns, ASSOCIATION_ALIAS, j.targetColumns, scope, w.db);
    ConditionsKeep(w.catalog, target, w.Children(), MANY_TARGET_ALIAS, scope, t, w.db);
    LiveKeeps(MANY_TARGET_ALIAS, SoftDeleteColumn(target), scope, w.db);
    JunctionScopeKeeps(j, ASSOCIATION_ALIAS, scope, w.db);
    ThreeParts(LiveClause(MANY_TARGET_ALIAS, SoftDeleteColumn(target)), JunctionScope(meta.junction, ASSOCIATION_ALIAS),
      TargetClauses(w.catalog, w.plan, MANY_TARGET_ALIAS), scope, w.db);
  }

  /** The junction alone: an edge passes when it counts, since its target exists. */
  lemma JunctionPassesIff(w: Setting, q: AssociationQuery, e: Row)
    requires w.Valid() && PlanReady(w.catalog, w.plan) && w.plan.junctionOnly
    requires q == TopNQuery(w.catalog, w.plan) || q == CountQuery(w.catalog, w.plan)
    requires e in Rows(w.db, w.Meta().junction.value.table)
    ensures AllAccepted(w.Children(), w.catalog, w.Target()) && (q.Passes(e, w.db) <==> w.EdgeKept(e))
  {
    hide Accepted, Eval, PlainJoined, AndMeaning, Setting.Valid, LiveClause, NotNullClauses, Linked, Complete;
    hide JunctionAllAccepted, JunctionClauses;
    ValidParts(w);
    ReadyToCompile(w);
    NoSoftDelete(w);
    var meta, j := w.Meta(), w.Meta().junction.value;
    var scope := TableScope(q.table, q.alias, e);
    var conditions := JunctionClauses(w.Children(), meta, q.alias);
    LiveKeeps(q.alias, SoftDeleteColumn(w.Target()), scope, w.db);
    JunctionScopeKeeps(j, q.alias, scope, w.db);
    ThreeParts(LiveClause(q.alias, SoftDeleteColumn(w.Target())), JunctionScope(meta.junction, q.alias), conditions,
      scope, w.db);
    forall t | Linked(t, meta.targetColumns, e, j.targetColumns)
      ensures AllTrue(conditions, scope, w.db) <==> AndMeaning(w.Children(), w.catalog, w.Target(), t, w.db) == True
    {
      JunctionClausesMeaning(w, w.Children(), q.alias, scope, e, t);
    }
    EdgeThroughTarget(w, conditions, scope, e);
  }

  lemma EdgeThroughTarget(w: Setting, conditions: seq<Clause>, scope: Scope, e: Row)
    requires w.Valid() && Shaped(w.Meta()) && w.Meta().junction.Some? && AllWellFormed(conditions)
    requires AllAccepted(w.Children(), w.catalog, w.Target()) && SoftDeleteColumn(w.Target()).None?
    requires e in Rows(w.db, w.Meta().junction.value.table)
    requires forall t | Linked(t, w.Meta().targetColumns, e, w.Meta().junction.value.targetColumns) ::
      AllTrue(conditions, scope, w.db) <==> AndMeaning(w.Children(), w.catalog, w.Target(), t, w.db) == True
    ensures ScopeKept(w.Meta().junction.value, e) && AllTrue(conditions, scope, w.db) <==> w.EdgeKept(e)
  {
    hide Accepted, AllTrue, AndMeaning, Setting.Valid, Linked, Complete, ScopeKept;
    var j := w.Meta().junction.value;
    ScopeMeansWhole(w, e);
    if ScopeKept(j, e) && AllTrue(conditions, scope, w.db) {
      ScopeIsLive(j, e);
      TargetExists(w, e);
      var t :| t in Rows(w.db, w.Target().table) && Linked(t, w.Meta().targetColumns, e, j.targetColumns);
      assert w.Matches(e, t);
    }
    if w.EdgeKept(e) {
      var t :| t in Rows(w.db, w.Target().table) && w.Matches(e, t);
      LinkedIsWhole(t, w.Meta().targetColumns, e, j.targetColumns);
    }
  }

  lemma ScopeIsLive(j: JunctionMetadata, e: Row)
    requires ScopeKept(j, e)
    ensures Live(e, j.softDelete)
  {
  }

  lemma ValidParts(w: Setting)
    requires w.Valid()
    ensures w.ModelValid() && Shaped(w.Meta())
  {
  }

  lemma NoSoftDelete(w: Setting)
    requires w.ModelValid() && w.plan.junctionOnly
    ensures SoftDeleteColumn(w.Target()).None? && w.Meta().junction.Some?
  {
  }

  lemma TargetExists(w: Setting, e: Row)
    requires w.Valid() && w.Meta().junction.Some? && e in Rows(w.db, w.Meta().junction.value.table)
    requires Complete(w.Meta().junction.value.targetColumns, e)
    ensures exists t <- Rows(w.db, w.Target().table) ::
      Linked(t, w.Meta().targetColumns, e, w.Meta().junction.value.targetColumns)
  {
    hide Setting.ModelValid, KeysHold, Setting.EdgeKeysHold;
    var j := w.Meta().junction.value;
    var t :| t in Rows(w.db, w.Target().table) && Linked(e, j.targetColumns, t, w.Meta().targetColumns);
    assert Linked(t, w.Meta().targetColumns, e, j.targetColumns);
  }

  // ---- the scene of both rewrites ----

  lemma FixedKeyDistinct(w: Setting)
    requires w.Valid()
    ensures CompleteDistinct(Columns(FixedKey(w)), Rows(w.db, w.Target().table))
  {
    hide CompleteDistinct, Proven, References, Covered;
  }

  /** An edge matches at most one target row. */
  lemma OneMatch(w: Setting, e: Row, a: Row, f: Row, b: Row)
    requires w.Valid() && Shaped(w.Meta()) && w.Meta().junction.Some?
    requires AllAccepted(w.Children(), w.catalog, w.Target())
    requires a in Rows(w.db, w.Target().table) && b in Rows(w.db, w.Target().table) && w.Matches(e, a)
    requires w.Matches(f, b)
    ensures a == b
  {
    hide Setting.Valid, Setting.TargetKept, Complete, KeyOf, Linked, FixedKey;
    FixedKeyAgrees(w, a, b);
    FixedKeyDistinct(w);
    SameRow(Columns(FixedKey(w)), Rows(w.db, w.Target().table), a, b);
  }

  lemma JoinedCopies(w: Setting, e: Row)
    requires w.Valid() && PlanReady(w.catalog, w.plan) && JoinsTarget(w.plan)
    requires AllAccepted(w.Children(), w.catalog, w.Target())
    requires e in Rows(w.db, w.Meta().junction.value.table)
    ensures TopNQuery(w.catalog, w.plan).Copies(e, w.db) == if w.EdgeKept(e) then [e] else []
  {
    hide Setting.Valid, Setting.TargetKept, Complete, Linked, FixedKey, TopNQuery;
    hide AssociationQuery.PairPasses, ScopeKept, Accepted;
    var q, targets := TopNQuery(w.catalog, w.plan), Rows(w.db, w.Target().table);
    TopNJoin(w);
    var key := Columns(FixedKey(w));
    FixedKeyDistinct(w);
    var p := t => q.PairPasses(e, t, w.db);
    forall t <- targets
      ensures p(t) <==> ScopeKept(w.Meta().junction.value, e) && w.Matches(e, t)
    {
      PairPassesIff(w, e, t);
    }
    forall a <- targets, b <- targets | p(a) && p(b)
      ensures Complete(key, a) && Complete(key, b) && KeyOf(key, a) == KeyOf(key, b)
    {
      FixedKeyAgrees(w, a, b);
    }
    FilterAtMostOne(targets, p, key);
    EdgeKeptIff(w, e);
  }

  lemma TopNJoin(w: Setting)
    requires PlanReady(w.catalog, w.plan) && JoinsTarget(w.plan)
    ensures var q := TopNQuery(w.catalog, w.plan);
      q.join.Some? && q.join.value.table == w.Target().table && q.table == w.Meta().junction.value.table
  {
  }

  lemma EdgeKeptIff(w: Setting, e: Row)
    requires w.Valid() && Shaped(w.Meta()) && w.Meta().junction.Some?
    requires AllAccepted(w.Children(), w.catalog, w.Target())
    requires e in Rows(w.db, w.Meta().junction.value.table)
    ensures w.EdgeKept(e) <==>
      ScopeKept(w.Meta().junction.value, e) && exists t <- Rows(w.db, w.Target().table) :: w.Matches(e, t)
  {
    hide Setting.Valid, Setting.TargetKept, Complete, Linked, Accepted;
    var j := w.Meta().junction.value;
    ScopeMeansWhole(w, e);
    if w.EdgeKept(e) {
      var t :| t in Rows(w.db, w.Target().table) && w.Matches(e, t);
      LinkedIsWhole(t, w.Meta().targetColumns, e, j.targetColumns);
    }
  }

  /** Both statements select exactly the association rows that count, each once. */
  lemma SelectedIsKept(w: Setting, q: AssociationQuery)
    requires w.Valid() && PlanReady(w.catalog, w.plan) && AllAccepted(w.Children(), w.catalog, w.Target())
    requires q == TopNQuery(w.catalog, w.plan)
          || (!JoinsTarget(w.plan) && RootNameFree(AssociationTable(w.Meta())) && q == CountQuery(w.catalog, w.plan))
    ensures q.Selected(w.db) == w.Scene().assoc
  {
    hide Setting.Valid, Accepted, AssociationQuery.Passes, Setting.TargetKept, Setting.EdgeKept, WhereOf;
    var rows := Rows(w.db, AssociationTable(w.Meta()));
    forall row <- rows
      ensures q.Copies(row, w.db) == if w.Kept(row) then [row] else []
    {
      if w.Meta().junction.None? {
        DirectPlan(w);
        DirectPasses(w, q, row);
      } else if w.plan.junctionOnly {
        JunctionPassesIff(w, q, row);
      } else {
        JoinedCopies(w, row);
      }
    }
    OverIsFilter(q, rows, row => w.Kept(row), w.db);
  }

  ghost function PairKey(w: Setting): (key: seq<string>)
    requires w.Valid() && w.Meta().junction.Some?
    ensures CompleteDistinct(key, Rows(w.db, w.Meta().junction.value.table))
    ensures FromPair(w, key)
  {
    PairKeyExists(w);
    var key :| FromPair(w, key) && CompleteDistinct(key, Rows(w.db, w.Meta().junction.value.table));
    key
  }

  ghost predicate FromPair(w: Setting, key: seq<string>)
    requires w.Meta().junction.Some?
  {
    var j := w.Meta().junction.value;
    forall c <- key :: c in j.sourceColumns || c in j.targetColumns
  }

  lemma PairKeyExists(w: Setting)
    requires w.Valid() && w.Meta().junction.Some?
    ensures exists key :: FromPair(w, key) && CompleteDistinct(key, Rows(w.db, w.Meta().junction.value.table))
  {
    hide UniquePerRoot, CanFilterJunction, References, DeclaredKeys, CompleteDistinct;
    var j := w.Meta().junction.value;
    var rows := Rows(w.db, j.table);
    if j.via {
      ViaPair(w);
      var edge := EdgeDescriptor(w.catalog, w.d, w.plan.relation).value;
      var key :| key in DeclaredKeys(edge) && KeyCoveredByPair(Columns(key), j.sourceColumns, j.targetColumns);
      DeclaredKeysHold(edge, rows);
      assert FromPair(w, Columns(key)) && CompleteDistinct(Columns(key), rows);
    } else {
      assert FromPair(w, j.sourceColumns + j.targetColumns)
        && CompleteDistinct(j.sourceColumns + j.targetColumns, rows);
    }
  }

  lemma ViaPair(w: Setting)
    requires w.ModelValid() && w.Meta().junction.Some? && w.Meta().junction.value.via
    ensures var edge := EdgeDescriptor(w.catalog, w.d, w.plan.relation); var j := w.Meta().junction.value;
      edge.Some? && PairUnique(edge.value, j.sourceColumns, j.targetColumns)
  {
    hide UniquePerRoot, CanFilterJunction, PairUnique;
  }

  /** Edges that count and share a source share the pair. */
  lemma SamePair(w: Setting, e: Row, f: Row)
    requires w.Valid() && Shaped(w.Meta()) && w.Meta().junction.Some?
    requires AllAccepted(w.Children(), w.catalog, w.Target())
    requires w.EdgeKept(e) && w.EdgeKept(f)
    requires var source := w.Meta().junction.value.sourceColumns;
      Complete(source, e) && Complete(source, f) && KeyOf(source, e) == KeyOf(source, f)
    ensures Complete(PairKey(w), e) && Complete(PairKey(w), f) && KeyOf(PairKey(w), e) == KeyOf(PairKey(w), f)
  {
    hide Setting.Valid, Setting.TargetKept, Complete, KeyOf, Linked, Accepted, PairKey;
    var j, targets := w.Meta().junction.value, Rows(w.db, w.Target().table);
    var a :| a in targets && w.Matches(e, a);
    var b :| b in targets && w.Matches(f, b);
    OneMatch(w, e, a, f, b);
    var key := PairKey(w);
    forall i | 0 <= i < |key|
      ensures key[i] in e && key[i] in f && e[key[i]] == f[key[i]]
    {
      if key[i] in j.sourceColumns {
        var k :| 0 <= k < |j.sourceColumns| && j.sourceColumns[k] == key[i];
        SameCellAt(j.sourceColumns, e, f, k);
      } else {
        LinkedSame(a, w.Meta().targetColumns, e, f, j.targetColumns, key[i]);
      }
    }
    SameCells(key, e, f);
  }

  lemma LinkedSame(t: Row, tc: seq<string>, e: Row, f: Row, ec: seq<string>, c: string)
    requires |tc| == |ec| && Linked(t, tc, e, ec) && Linked(t, tc, f, ec) && c in ec
    ensures c in e && c in f && e[c] == f[c]
  {
    var k :| 0 <= k < |ec| && ec[k] == c;
  }

  /** At most one association row that counts per root. */
  lemma AssociationDistinct(w: Setting)
    requires w.Valid() && Shaped(w.Meta()) && AllAccepted(w.Children(), w.catalog, w.Target())
    ensures CompleteDistinct(w.Scene().assocKey, w.Scene().assoc)
  {
    hide Setting.Valid, Setting.TargetKept, Setting.EdgeKept, Complete, KeyOf, Accepted, PairKey, FixedKey;
    hide CompleteDistinct;
    var rows, columns := Rows(w.db, AssociationTable(w.Meta())), AssociationColumns(w.Meta());
    if w.Meta().junction.None? {
      FixedKeyDistinct(w);
      var key := Columns(FixedKey(w));
      forall a <- rows, b <- rows | w.Kept(a) && w.Kept(b) &&
        Complete(columns, a) && Complete(columns, b) && KeyOf(columns, a) == KeyOf(columns, b)
        ensures Complete(key, a) && Complete(key, b) && KeyOf(key, a) == KeyOf(key, b)
      {
        FixedKeyAgrees(w, a, b);
      }
      FilterKeyDistinct(rows, row => w.Kept(row), key, columns);
    } else {
      var key := PairKey(w);
      forall a <- rows, b <- rows | w.Kept(a) && w.Kept(b) &&
        Complete(columns, a) && Complete(columns, b) && KeyOf(columns, a) == KeyOf(columns, b)
        ensures Complete(key, a) && Complete(key, b) && KeyOf(key, a) == KeyOf(key, b)
      {
        SamePair(w, a, b);
      }
      FilterKeyDistinct(rows, row => w.Kept(row), key, columns);
    }
  }

  lemma SourceIsPrimaryKey(w: Setting)
    requires w.ModelValid()
    ensures w.Meta().sourceColumns == Columns(w.d.PrimaryKeyFields())
    ensures w.Meta().sourceColumns != [] ==> w.d.PrimaryKeyFields() in DeclaredKeys(w.d)
  {
    hide UniquePerRoot, CanFilterJunction;
    MetadataKeys(w);
    var source, pk := w.plan.relation.sourceKey, w.d.PrimaryKeyFields();
    SourceNamesArePrimary(w);
    assert |GoNames(source)| == |source| && |GoNames(pk)| == |pk|;
    forall i | 0 <= i < |source|
      ensures source[i] == pk[i]
    {
      assert GoNames(source)[i] == GoNames(pk)[i];
      assert pk[i] in pk;
      FoundField(w.d.fields, source[i]);
      FoundField(w.d.fields, pk[i]);
    }
    assert source == pk;
  }

  lemma SourceNamesArePrimary(w: Setting)
    requires w.ModelValid()
    ensures GoNames(w.plan.relation.sourceKey) == GoNames(w.d.PrimaryKeyFields())
  {
    hide UniquePerRoot, CanFilterJunction, GoNames;
  }

  lemma WholeDistinct(columns: seq<string>, rows: seq<Row>)
    requires CompleteDistinct(columns, rows) && forall row <- rows :: Complete(columns, row)
    ensures DistinctKeys(columns, rows)
  {
    hide Complete, KeyOf;
    forall i, j | 0 <= i < j < |rows|
      ensures KeyOf(columns, rows[i]) != KeyOf(columns, rows[j])
    {
      assert Complete(columns, rows[i]) && Complete(columns, rows[j]);
    }
  }

  lemma SceneIsValid(w: Setting)
    requires w.Valid() && Shaped(w.Meta()) && AllAccepted(w.Children(), w.catalog, w.Target())
    ensures w.Scene().Valid()
  {
    hide Setting.TargetKept, Setting.EdgeKept, Complete, KeyOf, Accepted, CompleteDistinct, Proven;
    hide Setting.EdgeKeysHold, Linked;
    var scene := w.Scene();
    AssociationDistinct(w);
    SourceIsPrimaryKey(w);
    WholeDistinct(scene.rootKey, scene.roots);
    FilterIn(Rows(w.db, AssociationTable(w.Meta())), row => w.Kept(row));
    assert |scene.assocKey| == |scene.rootKey|;
  }

  // ---- what EXISTS keeps ----

  lemma KeepsIsHas(w: Setting, row: Row)
    requires w.ModelValid()
    ensures NamedPlan(w.catalog, w.d, w.plan.has.field).Some?
    ensures var r := NamedPlan(w.catalog, w.d, w.plan.has.field).value;
      && AllAccepted(w.Children(), w.catalog, r.target)
      && (Keeps(w.catalog, w.d, w.s, row, w.db) <==>
            exists t <- Rows(w.db, r.target.table) ::
              Reaches(r, row, t, w.db) && AndMeaning(w.Children(), w.catalog, r.target, t, w.db) == True)
  {
    hide MetadataFor, UniquePerRoot, CanFilterJunction, Meaning, Write;
    PlanAgrees(w);
    OneCondition(w, row);
    RelationUnfolds(w.plan.has, w.catalog, Place(w.d, "", 0, 0), 0, NamedPlan(w.catalog, w.d, w.plan.has.field).value,
      row, w.db);
  }

  lemma OneCondition(w: Setting, row: Row)
    requires w.ModelValid()
    ensures Accepted(w.plan.has, w.catalog, w.d)
    ensures Keeps(w.catalog, w.d, w.s, row, w.db) <==> Meaning(w.plan.has, w.catalog, w.d, row, w.db) == True
  {
    hide MetadataFor, UniquePerRoot, CanFilterJunction, Meaning, Accepted;
    assert w.s.predicates[0] == w.plan.has;
    LiveIsUndeleted(row, w.d);
    assert AndMeaning(w.s.predicates[..0], w.catalog, w.d, row, w.db) == True;
  }

  /** A root row the EXISTS form returns. */
  ghost predicate ExistsKeeps(w: Setting, row: Row)
    requires w.ModelValid()
  {
    Keeps(w.catalog, w.d, w.s, row, w.db)
  }

  lemma SceneLinks(w: Setting, row: Row)
    requires Shaped(w.Meta()) && AllAccepted(w.Children(), w.catalog, w.Target())
    ensures w.Meta().junction.None? ==>
      ((exists a <- w.Scene().assoc :: w.Scene().Links(a, row)) <==>
       exists t <- Rows(w.db, w.Target().table) ::
         w.TargetKept(t) && Linked(t, w.Meta().targetColumns, row, w.Meta().sourceColumns))
    ensures w.Meta().junction.Some? ==>
      var j := w.Meta().junction.value;
      ((exists a <- w.Scene().assoc :: w.Scene().Links(a, row)) <==>
       exists e <- Rows(w.db, j.table) :: w.EdgeKept(e) && Linked(e, j.sourceColumns, row, w.Meta().sourceColumns))
  {
    hide Linked, Setting.EdgeKept, Setting.TargetKept;
    var rows, ac, rc := Rows(w.db, AssociationTable(w.Meta())), AssociationColumns(w.Meta()), w.Meta().sourceColumns;
    FilterIn(rows, a => w.Kept(a));
    forall a
      ensures a in w.Scene().assoc && w.Scene().Links(a, row) <==> a in rows && w.Kept(a) && Linked(a, ac, row, rc)
    {
    }
  }

  /** A root has an association row that counts exactly when EXISTS keeps it. */
  lemma LinkedIffKept(w: Setting, row: Row)
    requires w.ModelValid() && Shaped(w.Meta()) && AllAccepted(w.Children(), w.catalog, w.Target())
    ensures (exists a <- w.Scene().assoc :: w.Scene().Links(a, row)) <==> ExistsKeeps(w, row)
  {
    hide Keeps, Linked, Accepted, AndMeaning, Setting.EdgeKept, Setting.TargetKept, Setting.ModelValid;
    hide Setting.Scene, Reaches;
    PlanAgrees(w);
    KeepsIsHas(w, row);
    SceneLinks(w, row);
    if w.Meta().junction.Some? {
      ReachedIffEdge(w, row);
    } else {
      ReachedIffTarget(w, row);
    }
  }

  lemma ReachedIffTarget(w: Setting, row: Row)
    requires w.ModelValid() && Shaped(w.Meta()) && w.Meta().junction.None?
    requires NamedPlan(w.catalog, w.d, w.plan.has.field).Some? && AllAccepted(w.Children(), w.catalog, w.Target())
    ensures var r := NamedPlan(w.catalog, w.d, w.plan.has.field).value;
      (exists t <- Rows(w.db, w.Target().table) ::
         w.TargetKept(t) && Linked(t, w.Meta().targetColumns, row, w.Meta().sourceColumns))
      <==> (exists t <- Rows(w.db, w.Target().table) ::
              Reaches(r, row, t, w.db) && AndMeaning(w.Children(), w.catalog, w.Target(), t, w.db) == True)
  {
    hide Setting.ModelValid, Linked, Accepted, AndMeaning, NamedPlan;
    PlanAgrees(w);
    var r, targets := NamedPlan(w.catalog, w.d, w.plan.has.field).value, Rows(w.db, w.Target().table);
    if t :| t in targets && w.TargetKept(t) && Linked(t, w.Meta().targetColumns, row, w.Meta().sourceColumns) {
      assert Reaches(r, row, t, w.db);
    }
    if t :| t in targets && Reaches(r, row, t, w.db) && AndMeaning(w.Children(), w.catalog, w.Target(), t,
      w.db) == True {
      assert w.TargetKept(t);
    }
  }

  lemma ReachedIffEdge(w: Setting, row: Row)
    requires w.ModelValid() && Shaped(w.Meta()) && w.Meta().junction.Some?
    requires NamedPlan(w.catalog, w.d, w.plan.has.field).Some? && AllAccepted(w.Children(), w.catalog, w.Target())
    ensures var j := w.Meta().junction.value; var r := NamedPlan(w.catalog, w.d, w.plan.has.field).value;
      (exists e <- Rows(w.db, j.table) :: w.EdgeKept(e) && Linked(e, j.sourceColumns, row, w.Meta().sourceColumns))
      <==> (exists t <- Rows(w.db, w.Target().table) ::
              Reaches(r, row, t, w.db) && AndMeaning(w.Children(), w.catalog, w.Target(), t, w.db) == True)
  {
    hide Setting.ModelValid, Linked, Accepted, AndMeaning, Complete;
    PlanAgrees(w);
    var r := NamedPlan(w.catalog, w.d, w.plan.has.field).value;
    var j, targets := w.Meta().junction.value, Rows(w.db, w.Target().table);
    if e :| e in Rows(w.db, j.table) && w.EdgeKept(e) && Linked(e, j.sourceColumns, row, w.Meta().sourceColumns) {
      var t :| t in targets && w.Matches(e, t);
      assert Reaches(r, row, t, w.db);
    }
    if t :| t in targets && Reaches(r, row, t, w.db) && AndMeaning(w.Children(), w.catalog, w.Target(), t,
      w.db) == True {
      var e :| e in Rows(w.db, j.table) && Linked(e, j.sourceColumns, row, w.Meta().sourceColumns) &&
        Linked(t, w.Meta().targetColumns, e, j.targetColumns) && Live(e, j.softDelete);
      LinkedIsWhole(e, j.sourceColumns, row, w.Meta().sourceColumns);
      assert w.Matches(e, t);
    }
  }

  /** The root rows of the EXISTS form. */
  ghost function ExistsRows(w: Setting): seq<Row>
    requires w.ModelValid()
  {
    Filter(Rows(w.db, w.d.table), row => ExistsKeeps(w, row))
  }

  lemma MatchedIsExists(w: Setting)
    requires w.ModelValid() && Shaped(w.Meta()) && AllAccepted(w.Children(), w.catalog, w.Target())
    ensures w.Scene().Matched() == ExistsRows(w)
  {
    hide ExistsKeeps, Accepted, Setting.Scene, Setting.ModelValid, Scene.Links;
    var scene := w.Scene();
    forall row <- Rows(w.db, w.d.table)
      ensures (exists a <- scene.assoc :: scene.Links(a, row)) <==> ExistsKeeps(w, row)
    {
      LinkedIffKept(w, row);
    }
    SceneRoots(w);
    FilterSame(scene.roots, r => exists a <- scene.assoc :: scene.Links(a, r), row => ExistsKeeps(w, row));
  }

  lemma SceneRoots(w: Setting)
    requires Shaped(w.Meta()) && AllAccepted(w.Children(), w.catalog, w.Target())
    ensures w.Scene().roots == Rows(w.db, w.d.table)
  {
  }

  // ---- TopN ----

  function Directions(orderBy: seq<OrderTerm>): (r: seq<bool>)
    ensures |r| == |orderBy|
  {
    seq(|orderBy|, i requires 0 <= i < |orderBy| => orderBy[i].direction == Descending)
  }

  /** A result of the EXISTS form: matching roots, ordered, with LIMIT and OFFSET. */
  ghost predicate ExistsAnswer(w: Setting, offset: nat, limit: nat, out: seq<Row>)
    requires w.ModelValid() && FieldsKnown(w.d, w.s.orderBy)
  {
    exists full :: IsOrdered(OrderOf(w.d, w.s.orderBy), ExistsRows(w), full) && out == Page(full, offset, limit)
  }

  /** A result of the relation-first form: association rows, ordered, with LIMIT and OFFSET, then joined
      to the root table on the relation's keys, ordered. */
  ghost predicate TopNAnswer(w: Setting, offset: nat, limit: nat, out: seq<Row>)
    requires w.Valid() && PlanReady(w.catalog, w.plan) && AllAccepted(w.Children(), w.catalog, w.Target())
    requires |AssociationColumns(w.Meta())| == |w.s.orderBy| == |w.Meta().sourceColumns|
  {
    var way := Directions(w.s.orderBy);
    exists full ::
      && IsOrdered(Order(AssociationColumns(w.Meta()), way), TopNQuery(w.catalog, w.plan).Selected(w.db), full)
      && IsOrdered(Order(w.Meta().sourceColumns, way), w.Scene().JoinRoots(Page(full, offset, limit)), out)
  }

  ghost predicate TopNSetting(w: Setting) {
    w.Valid() && TopNAllowed(w.catalog, w.d, w.s, false, w.plan)
  }

  lemma TopNReady(w: Setting)
    requires TopNSetting(w)
    ensures PlanReady(w.catalog, w.plan) && AllAccepted(w.Children(), w.catalog, w.Target())
    ensures |AssociationColumns(w.Meta())| == |w.s.orderBy| == |w.Meta().sourceColumns|
    ensures FieldsKnown(w.d, w.s.orderBy)
    ensures OrderOf(w.d, w.s.orderBy) == Order(w.Meta().sourceColumns, Directions(w.s.orderBy))
  {
    hide Proven, UniquePerRoot, CanFilterJunction, MetadataFor, KeysHold, References, Setting.EdgeKeysHold;
    hide Accepted, PlanReady;
    ReadyToCompile(w);
    MetadataParts(w);
    var orderBy, source := w.s.orderBy, w.plan.relation.sourceKey;
    forall i | 0 <= i < |orderBy|
      ensures w.d.FieldByGoName(orderBy[i].field) == Some(source[i])
    {
      assert GoNames(source)[i] == orderBy[i].field;
      FoundField(w.d.fields, source[i]);
    }
    assert OrderOf(w.d, orderBy).columns == Columns(source);
  }

  lemma MetadataParts(w: Setting)
    requires w.ModelValid()
    ensures w.Meta().sourceNames == GoNames(w.plan.relation.sourceKey)
    ensures w.Meta().sourceColumns == Columns(w.plan.relation.sourceKey)
  {
    hide UniquePerRoot, CanFilterJunction;
    MetadataKeys(w);
  }

  /** No row that counts has a NULL in its key yet sorts before one with a whole key. */
  ghost predicate NullKeysComeLast(w: Setting)
    requires TopNSetting(w)
  {
    TopNReady(w);
    w.Scene().NullKeysLast(Directions(w.s.orderBy))
  }

  /** Whenever the TopN rewrite is chosen, it returns what EXISTS with ORDER BY, LIMIT and OFFSET returns,
      row by row, on every page, if and only if rows with a NULL association key sort last. */
  lemma TopNIffNullKeysLast(w: Setting)
    requires TopNSetting(w)
    ensures PlanReady(w.catalog, w.plan) && AllAccepted(w.Children(), w.catalog, w.Target())
    ensures |AssociationColumns(w.Meta())| == |w.s.orderBy| == |w.Meta().sourceColumns| && FieldsKnown(w.d, w.s.orderBy)
    ensures NullKeysComeLast(w) <==>
      forall offset: nat, limit: nat, first, last |
        limit >= 1 && ExistsAnswer(w, offset, limit, first) && TopNAnswer(w, offset, limit, last) :: first == last
  {
    TopNReady(w);
    hide Setting.Valid, Setting.Scene, TopNQuery, AssociationQuery.Selected, ExistsRows, Scene.NullKeysLast,
      Scene.Matched,
      Scene.JoinRoots, Accepted, PlanReady, OrderOf, IsOrdered, Setting.ModelValid, Scene.Valid, TopNAllowed;
    ValidParts(w);
    var scene, way := w.Scene(), Directions(w.s.orderBy);
    SceneIsValid(w);
    SelectedIsKept(w, TopNQuery(w.catalog, w.plan));
    MatchedIsExists(w);
    SceneShape(w);
    LimitFirstIffNullKeysLast(scene, way);
    forall offset: nat, limit: nat, out
      ensures ExistsAnswer(w, offset, limit, out) <==> scene.ExistsAnswers(way, offset, limit, out)
    {
    }
    forall offset: nat, limit: nat, out
      ensures TopNAnswer(w, offset, limit, out) <==> scene.LimitFirstAnswers(way, offset, limit, out)
    {
    }
  }

  lemma SceneShape(w: Setting)
    requires Shaped(w.Meta()) && AllAccepted(w.Children(), w.catalog, w.Target())
    ensures w.Scene().assocKey == AssociationColumns(w.Meta()) && w.Scene().rootKey == w.Meta().sourceColumns
  {
  }

  /** Through a junction every association row that counts has a whole key. */
  lemma JunctionKeysAreWhole(w: Setting)
    requires w.Valid() && Shaped(w.Meta()) && AllAccepted(w.Children(), w.catalog, w.Target())
    requires w.Meta().junction.Some?
    ensures w.Scene().AllComplete()
  {
    hide Setting.Valid, Setting.Matches, Complete;
    FilterIn(Rows(w.db, AssociationTable(w.Meta())), row => w.Kept(row));
  }

  /** For pure and via many-to-many relations the rewrite needs no condition on NULL keys. */
  lemma JunctionTopNAnswersLikeExists(w: Setting, offset: nat, limit: nat, first: seq<Row>, last: seq<Row>)
    requires TopNSetting(w) && w.Meta().junction.Some? && limit >= 1
    requires PlanReady(w.catalog, w.plan) && AllAccepted(w.Children(), w.catalog, w.Target())
    requires |AssociationColumns(w.Meta())| == |w.s.orderBy| == |w.Meta().sourceColumns|
    requires FieldsKnown(w.d, w.s.orderBy)
    requires ExistsAnswer(w, offset, limit, first) && TopNAnswer(w, offset, limit, last)
    ensures first == last
  {
    hide ExistsAnswer, TopNAnswer, Setting.Valid, Setting.Scene, Complete, TopNAllowed;
    ValidParts(w);
    JunctionKeysAreWhole(w);
    TopNIffNullKeysLast(w);
    WholeKeysSortLast(w);
  }

  lemma WholeKeysSortLast(w: Setting)
    requires TopNSetting(w) && Shaped(w.Meta()) && AllAccepted(w.Children(), w.catalog, w.Target())
    requires w.Scene().AllComplete()
    ensures NullKeysComeLast(w)
  {
    hide Setting.Valid, Setting.Scene, Complete, TopNAllowed, Before;
    TopNReady(w);
    SceneShape(w);
  }

  /** One descending key column sorts NULL last, so then a nullable association key does no harm either. */
  lemma DescendingKeySortsNullLast(w: Setting)
    requires TopNSetting(w) && |w.s.orderBy| == 1 && w.s.orderBy[0].direction == Descending
    ensures NullKeysComeLast(w)
  {
    hide Setting.Valid, Setting.Scene, TopNAllowed;
    TopNReady(w);
    SceneShape(w);
    var key := w.Scene().assocKey;
    forall a <- w.Scene().assoc, b <- w.Scene().assoc | Complete(key, a) && !Complete(key, b)
      ensures !Before(Order(key, Directions(w.s.orderBy)), b, a)
    {
      assert key == [key[0]] && KeyOf(key, b)[0] == None;
    }
  }

  // ---- COUNT ----

  /** Whenever the count rewrite is chosen, counting association rows counts the roots EXISTS keeps,
      if and only if no row that counts has a NULL in its association key. */
  lemma CountIffWholeKeys(w: Setting)
    requires w.Valid() && CountAllowed(w.catalog, w.d, w.s, false, w.plan) && RootNameFree(AssociationTable(w.Meta()))
    ensures PlanReady(w.catalog, w.plan) && !JoinsTarget(w.plan) && AllAccepted(w.Children(), w.catalog, w.Target())
    ensures |CountQuery(w.catalog, w.plan).Selected(w.db)| == |ExistsRows(w)| <==> w.Scene().AllComplete()
    ensures w.Meta().junction.Some? ==> |CountQuery(w.catalog, w.plan).Selected(w.db)| == |ExistsRows(w)|
  {
    ReadyToCompile(w);
    hide Setting.Valid, Setting.Scene, AssociationQuery.Selected, ExistsRows, Scene.Matched, Accepted, Proven,
      CountQuery,
      Scene.Valid, Scene.AllComplete;
    ValidParts(w);
    SceneIsValid(w);
    SelectedIsKept(w, CountQuery(w.catalog, w.plan));
    MatchedIsExists(w);
    CountIffComplete(w.Scene());
    if w.Meta().junction.Some? {
      JunctionKeysAreWhole(w);
    }
  }
}
