/** How far declared keys reach (orm/relation_topn.go:393-403, 474-496, internal/relationtopn/decision.go:130-150): the
    tests that an edge has each source-target pair once, and a root one matching target row, hold exactly when the
    declared keys force it. */
module KeyReach {
  import opened SqlValues
  import opened Schema
  import opened PredicateMeaning
  import opened Ordering
  import opened Keyset
  import opened LimitFirst
  import opened RelationRewrite
  import opened RelationFirst

  /** The columns of the declared keys and of the pair. */
  ghost function AllColumns(edge: Descriptor, source: seq<string>, target: seq<string>): set<string> {
    (set c <- source) + (set c <- target) + (set f <- edge.fields :: f.column)
    + (set key <- edge.uniqueKeys, f <- key :: f.column)
  }

  /** A row with one value in the pair and another in every other column. */
  ghost function Marked(columns: set<string>, source: seq<string>, target: seq<string>, other: int): Row {
    map c <- columns :: if c in source || c in target then Int(0) else Int(other)
  }

  lemma KeyTellsApart(edge: Descriptor, source: seq<string>, target: seq<string>, key: seq<Field>)
    requires !KeyCoveredByPair(Columns(key), source, target) && key != []
    requires forall f <- key :: f.column in AllColumns(edge, source, target)
    ensures var columns := AllColumns(edge, source, target);
      CompleteDistinct(Columns(key), [Marked(columns, source, target, 1), Marked(columns, source, target, 2)])
  {
    var columns := AllColumns(edge, source, target);
    var a, b := Marked(columns, source, target, 1), Marked(columns, source, target, 2);
    var names := Columns(key);
    var c :| c in names && c !in source && c !in target;
    var i :| 0 <= i < |names| && names[i] == c;
    assert key[i] in key && names[i] == key[i].column;
    assert a[c] == Int(1) && b[c] == Int(2);
    assert KeyOf(names, a)[i] == Some(Int(1)) && KeyOf(names, b)[i] == Some(Int(2));
  }

  lemma PairIsTwice(columns: set<string>, source: seq<string>, target: seq<string>)
    requires (forall c <- source :: c in columns) && forall c <- target :: c in columns
    ensures !CompleteDistinct(source + target, [Marked(columns, source, target, 1), Marked(columns, source, target, 2)])
  {
    var a, b := Marked(columns, source, target, 1), Marked(columns, source, target, 2);
    var pair := source + target;
    forall i | 0 <= i < |pair|
      ensures pair[i] in a && pair[i] in b && KeyOf(pair, a)[i] == KeyOf(pair, b)[i]
    {
      assert pair[i] in pair;
      assert pair[i] in source || pair[i] in target;
    }
    assert KeyOf(pair, a) == KeyOf(pair, b);
    assert [a, b][0] == a && [a, b][1] == b;
  }

  /** A declared key within the pair makes whole pairs distinct. */
  lemma CoveredIsDistinct(key: seq<string>, source: seq<string>, target: seq<string>, rows: seq<Row>)
    requires KeyCoveredByPair(key, source, target) && CompleteDistinct(key, rows)
    ensures CompleteDistinct(source + target, rows)
  {
    var pair := source + target;
    forall i, j | 0 <= i < j < |rows| && Complete(pair, rows[i]) && Complete(pair, rows[j])
      ensures KeyOf(pair, rows[i]) != KeyOf(pair, rows[j])
    {
      if KeyOf(pair, rows[i]) == KeyOf(pair, rows[j]) {
        SameKeyWithin(key, pair, rows[i], rows[j]);
      }
    }
  }

  lemma SameKeyWithin(key: seq<string>, pair: seq<string>, a: Row, b: Row)
    requires forall c <- key :: c in pair
    requires Complete(pair, a) && Complete(pair, b) && KeyOf(pair, a) == KeyOf(pair, b)
    ensures Complete(key, a) && Complete(key, b) && KeyOf(key, a) == KeyOf(key, b)
  {
    forall i | 0 <= i < |key|
      ensures key[i] in a && key[i] in b && KeyOf(key, a)[i] == KeyOf(key, b)[i]
    {
      assert key[i] in pair;
      var k :| 0 <= k < |pair| && pair[k] == key[i];
      assert KeyOf(pair, a)[k] == KeyOf(pair, b)[k];
    }
  }

  /** The declared keys of an edge say that its whole pairs are unique if and only if no table that keeps those keys
      has a whole pair twice. */
  lemma PairUniqueExact(edge: Descriptor, source: seq<string>, target: seq<string>)
    requires forall key <- edge.uniqueKeys :: key != []
    ensures PairUnique(edge, source, target) <==>
      forall rows :: KeysHold(edge, rows) ==> CompleteDistinct(source + target, rows)
  {
    hide CompleteDistinct, KeyCoveredByPair, Marked, KeysHold;
    if PairUnique(edge, source, target) {
      forall rows | KeysHold(edge, rows)
        ensures CompleteDistinct(source + target, rows)
      {
        var key :| key in DeclaredKeys(edge) && KeyCoveredByPair(Columns(key), source, target);
        DeclaredKeysHold(edge, rows);
        CoveredIsDistinct(Columns(key), source, target, rows);
      }
    } else {
      var columns := AllColumns(edge, source, target);
      var rows := [Marked(columns, source, target, 1), Marked(columns, source, target, 2)];
      forall key <- DeclaredKeys(edge)
        ensures CompleteDistinct(Columns(key), rows)
      {
        DeclaredColumns(edge, source, target, key);
        KeyTellsApart(edge, source, target, key);
      }
      DeclaredKeysHold(edge, rows);
      PairIsTwice(columns, source, target);
    }
  }

  lemma DeclaredColumns(edge: Descriptor, source: seq<string>, target: seq<string>, key: seq<Field>)
    requires key in DeclaredKeys(edge) && forall k <- edge.uniqueKeys :: k != []
    ensures key != [] && forall f <- key :: f.column in AllColumns(edge, source, target)
  {
    if key !in edge.uniqueKeys {
      assert key == edge.PrimaryKeyFields();
      assert forall f <- key :: f in edge.fields;
    }
  }

  // ---- the keys of the target ----

  predicate UniqueColumns(fields: seq<Field>) {
    forall i, j | 0 <= i < j < |fields| :: fields[i].column != fields[j].column
  }

  /** The fields that the conditions fix by Equal. */
  function FixedFields(fields: seq<Field>, ps: seq<Predicate>): (fixed: seq<Field>)
    ensures forall f :: f in fixed <==> f in fields && FixedByEqual(ps, f.goName)
  {
    if fields == [] then []
    else (if FixedByEqual(ps, fields[0].goName) then [fields[0]] else []) + FixedFields(fields[1..], ps)
  }

  /** What two target rows of one root share when both meet the conditions: the key they are reached by, unless a
      junction stands between, and the fields the conditions fix. */
  function SharedColumns(relation: Relation, target: Descriptor, ps: seq<Predicate>): (columns: seq<string>)
  {
    (if relation.kind == ManyToMany then [] else Columns(relation.targetKey)) + Columns(FixedFields(target.fields, ps))
  }

  lemma NameIffColumn(fields: seq<Field>, some: seq<Field>, f: Field)
    requires UniqueNames(fields) && UniqueColumns(fields) && f in fields && forall g <- some :: g in fields
    ensures f.goName in GoNames(some) <==> f in some
    ensures f.column in Columns(some) <==> f in some
  {
    var i :| 0 <= i < |fields| && fields[i] == f;
    if f in some {
      var k :| 0 <= k < |some| && some[k] == f;
      assert GoNames(some)[k] == f.goName && Columns(some)[k] == f.column;
    }
    if f.goName in GoNames(some) {
      var k :| 0 <= k < |some| && GoNames(some)[k] == f.goName;
      assert some[k] in some && some[k] in fields;
      var j :| 0 <= j < |fields| && fields[j] == some[k];
      assert i == j;
    }
    if f.column in Columns(some) {
      var k :| 0 <= k < |some| && Columns(some)[k] == f.column;
      assert some[k] in some && some[k] in fields;
      var j :| 0 <= j < |fields| && fields[j] == some[k];
      assert i == j;
    }
  }

  lemma CoveredIff(meta: Metadata, relation: Relation, target: Descriptor, ps: seq<Predicate>, key: seq<Field>)
    requires UniqueNames(target.fields) && UniqueColumns(target.fields)
    requires (forall f <- key :: f in target.fields) && forall f <- relation.targetKey :: f in target.fields
    requires meta.targetNames == GoNames(relation.targetKey) && (meta.junction.None? <==> relation.kind != ManyToMany)
    ensures var reached := if relation.kind == ManyToMany then [] else Columns(relation.targetKey);
      Covered(meta, ps, GoNames(key)) <==>
      KeyCoveredByPair(Columns(key), reached, Columns(FixedFields(target.fields, ps)))
  {
    hide FixedByEqual;
    var fixed := FixedFields(target.fields, ps);
    forall i | 0 <= i < |key|
      ensures GoNames(key)[i] == key[i].goName && Columns(key)[i] == key[i].column
      ensures key[i].goName in meta.targetNames <==> key[i].column in Columns(relation.targetKey)
      ensures FixedByEqual(ps, key[i].goName) <==> key[i].column in Columns(fixed)
    {
      NameIffColumn(target.fields, relation.targetKey, key[i]);
      NameIffColumn(target.fields, fixed, key[i]);
    }
  }

  lemma MetadataTarget(catalog: Catalog, d: Descriptor, relation: Relation, meta: Metadata)
    requires MetadataFor(catalog, d, relation) == Some(meta)
    ensures relation.target in catalog && meta.target == catalog[relation.target]
    ensures meta.targetNames == GoNames(relation.targetKey) && (meta.junction.None? <==> relation.kind != ManyToMany)
    ensures meta.uniqueKeys == KeyNames(DeclaredKeys(meta.target))
  {
    hide GoNames, Columns, DeclaredKeys, PairUnique, Deduplicated;
  }

  lemma UniqueIsPair(catalog: Catalog, d: Descriptor, relation: Relation, meta: Metadata, ps: seq<Predicate>)
    requires MetadataFor(catalog, d, relation) == Some(meta)
    requires UniqueNames(meta.target.fields) && UniqueColumns(meta.target.fields)
    requires forall f <- relation.targetKey :: f in meta.target.fields
    requires forall key <- meta.target.uniqueKeys, f <- key :: f in meta.target.fields
    ensures var reached := if relation.kind == ManyToMany then [] else Columns(relation.targetKey);
      UniquePerRoot(meta, ps) <==> PairUnique(meta.target, reached, Columns(FixedFields(meta.target.fields, ps)))
  {
    hide MetadataFor, Covered, KeyCoveredByPair, DeclaredKeys, FixedByEqual;
    MetadataTarget(catalog, d, relation, meta);
    var keys := DeclaredKeys(meta.target);
    DeclaredFields(meta.target);
    forall key <- keys
      ensures var reached := if relation.kind == ManyToMany then [] else Columns(relation.targetKey);
        Covered(meta, ps, GoNames(key)) <==>
        KeyCoveredByPair(Columns(key), reached, Columns(FixedFields(meta.target.fields, ps)))
    {
      CoveredIff(meta, relation, meta.target, ps, key);
    }
    if names :| names in meta.uniqueKeys && Covered(meta, ps, names) {
      var i :| 0 <= i < |meta.uniqueKeys| && meta.uniqueKeys[i] == names;
      assert keys[i] in keys && names == GoNames(keys[i]);
    }
    if key :| key in keys && Covered(meta, ps, GoNames(key)) {
      var i :| 0 <= i < |keys| && keys[i] == key;
      assert meta.uniqueKeys[i] == GoNames(key);
    }
  }

  lemma DeclaredFields(d: Descriptor)
    requires forall key <- d.uniqueKeys, f <- key :: f in d.fields
    ensures forall key <- DeclaredKeys(d), f <- key :: f in d.fields
  {
    forall key <- DeclaredKeys(d), f <- key
      ensures f in d.fields
    {
      if key !in d.uniqueKeys { assert key == d.PrimaryKeyFields(); }
    }
  }

  /** The test that a root has one matching target row at most is exact too: it holds if and only if no table that
      keeps the declared keys has two rows that agree, without NULL, on all that the relation and the conditions fix. */
  lemma UniquePerRootExact(catalog: Catalog, d: Descriptor, relation: Relation, meta: Metadata, ps: seq<Predicate>)
    requires MetadataFor(catalog, d, relation) == Some(meta)
    requires UniqueNames(meta.target.fields) && UniqueColumns(meta.target.fields)
    requires forall f <- relation.targetKey :: f in meta.target.fields
    requires forall key <- meta.target.uniqueKeys :: key != [] && forall f <- key :: f in meta.target.fields
    ensures UniquePerRoot(meta, ps) <==>
      forall rows :: KeysHold(meta.target, rows) ==> CompleteDistinct(SharedColumns(relation, meta.target, ps), rows)
  {
    hide MetadataFor, UniquePerRoot, PairUnique, KeysHold, CompleteDistinct, FixedFields;
    UniqueIsPair(catalog, d, relation, meta, ps);
    PairUniqueExact(meta.target, if relation.kind == ManyToMany then [] else Columns(relation.targetKey),
      Columns(FixedFields(meta.target.fields, ps)));
  }
}
