/** When a collection Has may be answered from the association side: the metadata of the relation and
    the compiler's decision (orm/relation_topn.go, orm/relation_count.go, internal/relationtopn/decision.go). */
module RelationRewrite {
  import opened SqlValues
  import opened Schema
  import opened PredicateMeaning
  import opened Keyset
  import opened SelectClause

  // ---- metadata ----

  datatype JunctionMetadata = JunctionMetadata(
    table: string,
    sourceColumns: seq<string>,
    targetColumns: seq<string>,
    uniquePair: bool,
    via: bool,
    softDelete: Option<string>,
    nonNull: seq<string>)

  datatype Metadata = Metadata(
    target: Descriptor,
    sourceNames: seq<string>,
    sourceColumns: seq<string>,
    targetNames: seq<string>,
    targetColumns: seq<string>,
    uniqueKeys: seq<seq<string>>,
    sourceIsPrimaryKey: bool,
    junction: Option<JunctionMetadata>)

  /** The primary key, if there is one, and the declared candidate keys. */
  function DeclaredKeys(d: Descriptor): seq<seq<Field>> {
    (if d.PrimaryKeyFields() == [] then [] else [d.PrimaryKeyFields()]) + d.uniqueKeys
  }

  predicate KeyCoveredByPair(key: seq<string>, source: seq<string>, target: seq<string>) {
    key != [] && forall column <- key :: column in source || column in target
  }

  function Deduplicated(columns: seq<string>): (r: seq<string>)
    ensures forall c :: c in r <==> c in columns
  {
    if columns == [] then []
    else
      var front, last := Deduplicated(columns[..|columns| - 1]), columns[|columns| - 1];
      if last in front then front else front + [last]
  }

  predicate PairUnique(edge: Descriptor, source: seq<string>, target: seq<string>) {
    exists key <- DeclaredKeys(edge) :: KeyCoveredByPair(Columns(key), source, target)
  }

  function MetadataFor(catalog: Catalog, d: Descriptor, relation: Relation): Option<Metadata> {
    if relation.target !in catalog then None
    else
      var target := catalog[relation.target];
      var meta := Metadata(
        target, GoNames(relation.sourceKey), Columns(relation.sourceKey), GoNames(relation.targetKey),
        Columns(relation.targetKey), KeyNames(DeclaredKeys(target)),
        GoNames(relation.sourceKey) == GoNames(d.PrimaryKeyFields()), None);
      if relation.kind != ManyToMany then Some(meta)
      else if relation.junction.None? then None
      else
        var j := relation.junction.value;
        if |j.sourceColumns| != |relation.sourceKey| || |j.targetColumns| != |relation.targetKey| then None
        else if relation.via == "" then
          Some(meta.(junction := Some(JunctionMetadata(j.table, j.sourceColumns, j.targetColumns, true, false, None,
            []))))
        else
          match EdgeDescriptor(catalog, d, relation)
          case None => None
          case Some(edge) =>
            Some(meta.(junction := Some(JunctionMetadata(
              j.table, j.sourceColumns, j.targetColumns, PairUnique(edge, j.sourceColumns, j.targetColumns), true,
              SoftDeleteColumn(edge), Deduplicated(j.sourceColumns + j.targetColumns)))))
  }

  function KeyNames(keys: seq<seq<Field>>): (names: seq<seq<string>>)
    ensures |names| == |keys| && forall i | 0 <= i < |keys| :: names[i] == GoNames(keys[i])
  {
    seq(|keys|, i requires 0 <= i < |keys| => GoNames(keys[i]))
  }

  // ---- the metadata as it is collected ----

  method FieldGoNames(fields: seq<Field>) returns (names: seq<string>)
    ensures names == GoNames(fields)
  {
    names := [];
    for index := 0 to |fields|
      invariant |names| == index && forall i | 0 <= i < index :: names[i] == fields[i].goName
    {
      names := names + [fields[index].goName];
    }
  }

  method FieldColumns(fields: seq<Field>) returns (columns: seq<string>)
    ensures columns == Columns(fields)
  {
    columns := [];
    for index := 0 to |fields|
      invariant |columns| == index && forall i | 0 <= i < index :: columns[i] == fields[i].column
    {
      columns := columns + [fields[index].column];
    }
  }

  method UniqueGoNames(d: Descriptor) returns (names: seq<seq<string>>)
    ensures names == KeyNames(DeclaredKeys(d))
  {
    names := [];
    var primary := FieldGoNames(d.PrimaryKeyFields());
    if |primary| != 0 {
      names := [primary];
    }
    ghost var first := |names|;
    for index := 0 to |d.uniqueKeys|
      invariant |names| == first + index && (first == 1 ==> names[0] == primary)
      invariant forall i | 0 <= i < index :: names[first + i] == GoNames(d.uniqueKeys[i])
    {
      var key := FieldGoNames(d.uniqueKeys[index]);
      names := names + [key];
    }
  }

  method SameFields(left: seq<Field>, right: seq<Field>) returns (same: bool)
    ensures same <==> GoNames(left) == GoNames(right)
  {
    if |left| != |right| {
      return false;
    }
    for index := 0 to |left|
      invariant forall i | 0 <= i < index :: left[i].goName == right[i].goName
    {
      if left[index].goName != right[index].goName {
        assert GoNames(left)[index] != GoNames(right)[index];
        return false;
      }
    }
    same := true;
  }

  method KeyCovered(key: seq<string>, source: seq<string>, target: seq<string>) returns (covered: bool)
    ensures covered <==> KeyCoveredByPair(key, source, target)
  {
    if |key| == 0 {
      return false;
    }
    for index := 0 to |key|
      invariant forall i | 0 <= i < index :: key[i] in source || key[i] in target
    {
      var inSource := NameExists(source, key[index]);
      var inTarget := NameExists(target, key[index]);
      if !inSource && !inTarget {
        return false;
      }
    }
    covered := true;
  }

  method NameExists(names: seq<string>, name: string) returns (found: bool)
    ensures found <==> name in names
  {
    for index := 0 to |names|
      invariant name !in names[..index]
    {
      if names[index] == name {
        return true;
      }
    }
    assert names[..|names|] == names;
    found := false;
  }

  method EdgePairUnique(edge: Descriptor, source: seq<string>, target: seq<string>) returns (unique: bool)
    ensures unique <==> PairUnique(edge, source, target)
  {
    var primary := FieldColumns(edge.PrimaryKeyFields());
    unique := KeyCovered(primary, source, target);
    if unique {
      assert edge.PrimaryKeyFields() in DeclaredKeys(edge);
      return;
    }
    for index := 0 to |edge.uniqueKeys|
      invariant forall i | 0 <= i < index :: !KeyCoveredByPair(Columns(edge.uniqueKeys[i]), source, target)
    {
      var key := FieldColumns(edge.uniqueKeys[index]);
      unique := KeyCovered(key, source, target);
      if unique {
        assert edge.uniqueKeys[index] in DeclaredKeys(edge);
        return;
      }
    }
    unique := false;
  }

  method NonNullColumns(source: seq<string>, target: seq<string>) returns (columns: seq<string>)
    ensures columns == Deduplicated(source + target)
  {
    columns := [];
    var all := source + target;
    for index := 0 to |all|
      invariant columns == Deduplicated(all[..index])
    {
      assert all[..index + 1][..index] == all[..index];
      var found := NameExists(columns, all[index]);
      if !found {
        columns := columns + [all[index]];
      }
    }
    assert all[..|all|] == all;
  }

  /** The metadata of a relation, or none when its target, junction or edge cannot be described. */
  method CompileMetadata(catalog: Catalog, d: Descriptor, relation: Relation) returns (meta: Option<Metadata>)
    ensures meta == MetadataFor(catalog, d, relation)
  {
    hide GoNames, Columns, DeclaredKeys, KeyNames, PairUnique, Deduplicated, SoftDeleteColumn, EdgeDescriptor;
    hide PrimaryKeysOf;
    if relation.target !in catalog {
      return None;
    }
    var target := catalog[relation.target];
    var sourceNames := FieldGoNames(relation.sourceKey);
    var sourceColumns := FieldColumns(relation.sourceKey);
    var targetNames := FieldGoNames(relation.targetKey);
    var targetColumns := FieldColumns(relation.targetKey);
    var uniqueKeys := UniqueGoNames(target);
    var isPrimary := SameFields(relation.sourceKey, d.PrimaryKeyFields());
    var made := Metadata(target, sourceNames, sourceColumns, targetNames, targetColumns, uniqueKeys, isPrimary, None);
    if relation.kind != ManyToMany {
      return Some(made);
    }
    if relation.junction.None? {
      return None;
    }
    var j := relation.junction.value;
    if |j.sourceColumns| != |relation.sourceKey| || |j.targetColumns| != |relation.targetKey| {
      return None;
    }
    var junction := JunctionMetadata(j.table, j.sourceColumns, j.targetColumns, true, false, None, []);
    if relation.via != "" {
      var edge := EdgeDescriptor(catalog, d, relation);
      if edge.None? {
        return None;
      }
      var unique := EdgePairUnique(edge.value, j.sourceColumns, j.targetColumns);
      var nonNull := NonNullColumns(j.sourceColumns, j.targetColumns);
      junction := junction.(via := true, uniquePair := unique, softDelete := SoftDeleteColumn(edge.value),
        nonNull := nonNull);
    }
    meta := Some(made.(junction := Some(junction)));
  }

  lemma MetadataNames(catalog: Catalog, d: Descriptor, relation: Relation, meta: Metadata)
    requires MetadataFor(catalog, d, relation) == Some(meta)
    ensures meta.sourceNames == GoNames(relation.sourceKey)
    ensures meta.sourceIsPrimaryKey <==> GoNames(relation.sourceKey) == GoNames(d.PrimaryKeyFields())
  {
    hide GoNames, Columns, KeyNames, PairUnique, Deduplicated;
  }

  // ---- the side conditions ----

  /** A field that the conditions, read as a conjunction, equate with a value. */
  predicate Fixes(p: Predicate, field: string) {
    (p.operator == OpEqual && p.field == field) || (p.operator == OpAnd && exists c <- p.children :: Fixes(c, field))
  }

  predicate FixedByEqual(ps: seq<Predicate>, field: string) {
    exists p <- ps :: Fixes(p, field)
  }

  predicate Covered(meta: Metadata, ps: seq<Predicate>, key: seq<string>) {
    key != [] && forall field <- key :: (meta.junction.None? && field in meta.targetNames) || FixedByEqual(ps, field)
  }

  /** Some declared target key is fixed by the relation and the conditions together. */
  predicate UniquePerRoot(meta: Metadata, ps: seq<Predicate>) {
    exists key <- meta.uniqueKeys :: Covered(meta, ps, key)
  }

  function IndexOf(names: seq<string>, name: string): (i: nat)
    ensures i <= |names| && (i < |names| ==> names[i] == name) && (i == |names| <==> name !in names)
    ensures forall k | 0 <= k < i :: names[k] != name
  {
    if names == [] || names[0] == name then 0 else 1 + IndexOf(names[1..], name)
  }

  /** Only conjunctions of equalities on the target key. */
  predicate JunctionOnly(targetNames: seq<string>, p: Predicate) {
    (p.operator == OpEqual && p.field in targetNames) ||
    (p.operator == OpAnd && |p.children| >= 2 && forall c <- p.children :: JunctionOnly(targetNames, c))
  }

  predicate SameNames(fields: seq<string>, key: seq<string>) {
    |fields| == |key| && forall field <- fields :: field in key
  }

  predicate CanFilterJunction(meta: Metadata, ps: seq<Predicate>) {
    && meta.junction.Some?
    && SoftDeleteColumn(meta.target).None?
    && (exists key <- meta.uniqueKeys :: SameNames(meta.targetNames, key))
    && forall p <- ps :: JunctionOnly(meta.targetNames, p)
  }

  predicate OrderMatches(names: seq<string>, orderBy: seq<OrderTerm>) {
    |names| == |orderBy| &&
    forall i | 0 <= i < |names| :: names[i] == orderBy[i].field && orderBy[i].direction != UnknownDirection
  }

  method ConjunctiveEqualFieldExists(ps: seq<Predicate>, field: string) returns (found: bool)
    ensures found <==> FixedByEqual(ps, field)
    decreases ps
  {
    for index := 0 to |ps|
      invariant forall i | 0 <= i < index :: !Fixes(ps[i], field)
    {
      if ps[index].operator == OpEqual {
        if ps[index].field == field {
          assert ps[index] in ps && Fixes(ps[index], field);
          return true;
        }
      } else if ps[index].operator == OpAnd {
        var inside := ConjunctiveEqualFieldExists(ps[index].children, field);
        if inside {
          assert ps[index] in ps && Fixes(ps[index], field);
          return true;
        }
      }
    }
    found := false;
  }

  method RelationUniquePerRoot(meta: Metadata, ps: seq<Predicate>) returns (unique: bool)
    ensures unique <==> UniquePerRoot(meta, ps)
  {
    for k := 0 to |meta.uniqueKeys|
      invariant forall i | 0 <= i < k :: !Covered(meta, ps, meta.uniqueKeys[i])
    {
      var key := meta.uniqueKeys[k];
      var covered, index := true, 0;
      while covered && index < |key|
        invariant index <= |key|
        invariant covered ==>
          forall f <- key[..index] :: (meta.junction.None? && f in meta.targetNames) || FixedByEqual(ps, f)
        invariant !covered ==> !Covered(meta, ps, key)
      {
        if !(meta.junction.None? && key[index] in meta.targetNames) {
          covered := ConjunctiveEqualFieldExists(ps, key[index]);
        }
        index := index + 1;
      }
      assert key[..|key|] == key;
      if covered && |key| != 0 {
        assert key in meta.uniqueKeys && Covered(meta, ps, key);
        return true;
      }
    }
    unique := false;
  }

  method JunctionPredicateOnly(targetNames: seq<string>, p: Predicate) returns (only: bool)
    ensures only <==> JunctionOnly(targetNames, p)
    decreases p
  {
    if p.operator == OpEqual {
      return p.field in targetNames;
    }
    if p.operator != OpAnd || |p.children| < 2 {
      return false;
    }
    for index := 0 to |p.children|
      invariant forall i | 0 <= i < index :: JunctionOnly(targetNames, p.children[i])
    {
      only := JunctionPredicateOnly(targetNames, p.children[index]);
      if !only {
        return;
      }
    }
    only := true;
  }

  method MatchesUniqueKey(fields: seq<string>, keys: seq<seq<string>>) returns (found: bool)
    ensures found <==> exists key <- keys :: SameNames(fields, key)
  {
    for k := 0 to |keys|
      invariant forall i | 0 <= i < k :: !SameNames(fields, keys[i])
    {
      if |fields| == |keys[k]| {
        var matches, index := true, 0;
        while matches && index < |fields|
          invariant index <= |fields|
          invariant matches ==> forall i | 0 <= i < index :: fields[i] in keys[k]
          invariant !matches ==> !SameNames(fields, keys[k])
        {
          matches := NameExists(keys[k], fields[index]);
          index := index + 1;
        }
        if matches {
          assert keys[k] in keys && SameNames(fields, keys[k]);
          return true;
        }
      }
    }
    found := false;
  }

  method OrderIsKey(names: seq<string>, orderBy: seq<OrderTerm>) returns (matches: bool)
    ensures matches <==> OrderMatches(names, orderBy)
  {
    if |names| != |orderBy| {
      return false;
    }
    for index := 0 to |names|
      invariant forall i | 0 <= i < index :: names[i] == orderBy[i].field && orderBy[i].direction != UnknownDirection
    {
      if names[index] != orderBy[index].field {
        return false;
      }
      if orderBy[index].direction != Ascending && orderBy[index].direction != Descending {
        return false;
      }
    }
    matches := true;
  }

  method RelationCanFilterJunction(meta: Metadata, ps: seq<Predicate>) returns (can: bool)
    ensures can <==> CanFilterJunction(meta, ps)
  {
    if meta.junction.None? || SoftDeleteColumn(meta.target).Some? {
      return false;
    }
    var matches := MatchesUniqueKey(meta.targetNames, meta.uniqueKeys);
    if !matches {
      return false;
    }
    for index := 0 to |ps|
      invariant forall i | 0 <= i < index :: JunctionOnly(meta.targetNames, ps[i])
    {
      can := JunctionPredicateOnly(meta.targetNames, ps[index]);
      if !can {
        return;
      }
    }
    can := true;
  }

  // ---- finding the candidate ----

  predicate IsCollectionHas(d: Descriptor, p: Predicate) {
    p.operator == OpHasRelation && d.RelationByName(p.field).Some? && d.RelationByName(p.field).value.IsCollection()
  }

  /** The collection Has predicates about the root, through AND, OR and NOT, left to right. */
  function CollectionHas(d: Descriptor, p: Predicate): seq<Predicate>
    decreases p, 1
  {
    if p.operator == OpHasRelation then (if IsCollectionHas(d, p) then [p] else [])
    else if p.operator == OpAnd || p.operator == OpOr || p.operator == OpNot then AllCollectionHas(d, p.children)
    else []
  }

  function AllCollectionHas(d: Descriptor, ps: seq<Predicate>): seq<Predicate>
    decreases ps, 0
  {
    if |ps| == 0 then [] else AllCollectionHas(d, ps[..|ps| - 1]) + CollectionHas(d, ps[|ps| - 1])
  }

  datatype Candidate = Candidate(has: Predicate, direct: bool)

  function FirstOf(before: Option<Candidate>, found: seq<Predicate>, direct: bool): Option<Candidate> {
    if before.Some? || found == [] then before else Some(Candidate(found[0], direct))
  }

  class CandidateSearch {
    var count: nat
    var first: Option<Candidate>

    constructor ()
      ensures count == 0 && first == None
    {
      count, first := 0, None;
    }

    /** Adds what one predicate of the root contains; only a Has that is itself a root predicate is direct. */
    method Collect(d: Descriptor, p: Predicate, direct: bool)
      requires count == 0 <==> first.None?
      modifies this
      ensures count == old(count) + |CollectionHas(d, p)|
      ensures first == FirstOf(old(first), CollectionHas(d, p), direct && p.operator == OpHasRelation)
      ensures count == 0 <==> first.None?
      decreases p
    {
      if p.operator == OpHasRelation {
        var relation := d.RelationByName(p.field);
        if relation.Some? && (relation.value.kind == HasMany || relation.value.kind == ManyToMany) {
          count := count + 1;
          if count == 1 {
            first := Some(Candidate(p, direct));
          }
        }
      } else if p.operator == OpAnd || p.operator == OpOr || p.operator == OpNot {
        for index := 0 to |p.children|
          invariant count == old(count) + |AllCollectionHas(d, p.children[..index])|
          invariant first == FirstOf(old(first), AllCollectionHas(d, p.children[..index]), false)
          invariant count == 0 <==> first.None?
        {
          assert p.children[..index + 1][..index] == p.children[..index];
          Collect(d, p.children[index], false);
        }
        assert p.children[..|p.children|] == p.children;
      }
    }
  }

  // ---- the decision ----

  datatype Outcome =
    | NeedsMetadata | NoRewrite | Optimized | MultipleCollections | NestedCollection | SeekAfterUsed
    | RootPredicate | RootSoftDelete | SourceKeyDiffers | OrderDiffers | TargetUniqueness | EdgeUniqueness

  function DecideStructural(count: nat, direct: bool, seekAfter: bool, predicates: nat, rootSoftDelete: bool): Outcome {
    if count == 0 then NoRewrite
    else if count != 1 then MultipleCollections
    else if !direct then NestedCollection
    else if seekAfter then SeekAfterUsed
    else if predicates != 1 then RootPredicate
    else if rootSoftDelete then RootSoftDelete
    else NeedsMetadata
  }

  function DecideMetadata(sourceIsPrimary: bool, orderMatches: bool, uniquePerRoot: bool): Outcome {
    if !sourceIsPrimary then SourceKeyDiffers
    else if !orderMatches then OrderDiffers
    else if !uniquePerRoot then TargetUniqueness
    else Optimized
  }

  datatype RewritePlan = RewritePlan(has: Predicate, relation: Relation, meta: Metadata, junctionOnly: bool)

  /** What both rewrites demand: one collection Has as the only condition on the root, whose source key
      is the primary key, with at most one association row per root. */
  predicate Proven(catalog: Catalog, d: Descriptor, s: Selection, plan: RewritePlan) {
    && s.predicates == [plan.has] && IsCollectionHas(d, plan.has)
    && plan.relation == d.RelationByName(plan.has.field).value
    && s.seekAfter.None? && ActiveSoftDelete(d, s.withDeleted).None?
    && MetadataFor(catalog, d, plan.relation) == Some(plan.meta)
    && plan.meta.sourceIsPrimaryKey && UniquePerRoot(plan.meta, plan.has.children)
    && (plan.meta.junction.Some? ==> plan.meta.junction.value.uniquePair)
    && (plan.junctionOnly <==> CanFilterJunction(plan.meta, plan.has.children))
  }

  predicate TopNAllowed(catalog: Catalog, d: Descriptor, s: Selection, forceIndex: bool, plan: RewritePlan) {
    && Proven(catalog, d, s, plan)
    && !forceIndex && s.pagination.limit.Some? && s.pagination.limit.value > 0
    && s.orderBy != [] && OrderMatches(plan.meta.sourceNames, s.orderBy)
  }

  predicate CountAllowed(catalog: Catalog, d: Descriptor, s: Selection, forceIndex: bool, plan: RewritePlan) {
    && Proven(catalog, d, s, plan)
    && !forceIndex && s.pagination.limit.None? && s.pagination.offset.None?
    && (plan.meta.junction.Some? ==> plan.junctionOnly)
  }

  method FindCandidate(d: Descriptor, ps: seq<Predicate>) returns (count: nat, first: Option<Candidate>)
    ensures count == |AllCollectionHas(d, ps)| && (count == 0 <==> first.None?)
    ensures |ps| == 1 ==> first == FirstOf(None, CollectionHas(d, ps[0]), ps[0].operator == OpHasRelation)
    ensures first.Some? ==> first.value.has == AllCollectionHas(d, ps)[0]
    ensures count == 1 ==> (first.value.direct <==> exists p <- ps :: IsCollectionHas(d, p))
  {
    var search := new CandidateSearch();
    for index := 0 to |ps|
      invariant search.count == |AllCollectionHas(d, ps[..index])|
      invariant search.count == 0 <==> search.first.None?
      invariant index == 0 ==> search.first == None
      invariant index == 1 ==> search.first == FirstOf(None, CollectionHas(d, ps[0]), ps[0].operator == OpHasRelation)
      invariant search.first.Some? ==> search.first.value.has == AllCollectionHas(d, ps[..index])[0]
      invariant search.count == 0 ==> forall i | 0 <= i < index :: !IsCollectionHas(d, ps[i])
      invariant search.count == 1 ==>
        (search.first.value.direct <==> exists i | 0 <= i < index :: IsCollectionHas(d, ps[i]))
    {
      assert ps[..index + 1][..index] == ps[..index];
      search.Collect(d, ps[index], true);
    }
    assert ps[..|ps|] == ps;
    return search.count, search.first;
  }

  /** One collection Has, found directly in a single root predicate, is that predicate. */
  lemma OnlyCandidate(d: Descriptor, ps: seq<Predicate>)
    requires |ps| == 1
    ensures AllCollectionHas(d, ps) == CollectionHas(d, ps[0])
    ensures IsCollectionHas(d, ps[0]) <==> CollectionHas(d, ps[0]) != [] && ps[0].operator == OpHasRelation
    ensures IsCollectionHas(d, ps[0]) ==> CollectionHas(d, ps[0]) == [ps[0]]
  {
    assert AllCollectionHas(d, ps[..0]) == [];
  }

  /** The only condition on the root is a Has about a collection. */
  predicate OneCollection(d: Descriptor, s: Selection) {
    |s.predicates| == 1 && IsCollectionHas(d, s.predicates[0])
  }

  /** The checks on the query itself that come before the metadata, and how far they go well. */
  ghost predicate Passes(d: Descriptor, s: Selection, checks: nat) {
    && (checks > 0 ==> |AllCollectionHas(d, s.predicates)| == 1)
    && (checks > 1 ==> exists p <- s.predicates :: IsCollectionHas(d, p))
    && (checks > 2 ==> s.seekAfter.None?)
    && (checks > 3 ==> OneCollection(d, s))
    && (checks > 4 ==> s.withDeleted || forall i :: !MarksDeleted(d.fields, i))
  }

  /** What a reason for not rewriting says about the query: it is the first check that fails. */
  ghost predicate Explains(outcome: Outcome, catalog: Catalog, d: Descriptor, s: Selection) {
    var relation := if OneCollection(d, s) then d.RelationByName(s.predicates[0].field) else None;
    var meta := if relation.Some? then MetadataFor(catalog, d, relation.value) else None;
    var primary := relation.Some? && GoNames(relation.value.sourceKey) == GoNames(d.PrimaryKeyFields());
    var ordered := relation.Some? && OrderMatches(GoNames(relation.value.sourceKey), s.orderBy);
    match outcome
    case MultipleCollections => |AllCollectionHas(d, s.predicates)| > 1
    case NestedCollection => Passes(d, s, 1) && forall p <- s.predicates :: !IsCollectionHas(d, p)
    case SeekAfterUsed => Passes(d, s, 2) && s.seekAfter.Some?
    case RootPredicate => Passes(d, s, 3) && |s.predicates| > 1
    case RootSoftDelete => Passes(d, s, 4) && !s.withDeleted && exists i :: MarksDeleted(d.fields, i)
    case EdgeUniqueness =>
      Passes(d, s, 5) && meta.Some? && meta.value.junction.Some? && !meta.value.junction.value.uniquePair
    case SourceKeyDiffers => Passes(d, s, 5) && meta.Some? && !primary
    case OrderDiffers => Passes(d, s, 5) && meta.Some? && primary && !ordered
    case TargetUniqueness =>
      Passes(d, s, 5) && meta.Some? && primary && ordered && !UniquePerRoot(meta.value, s.predicates[0].children)
    case NeedsMetadata => false
    case _ => true
  }

  /** The metadata part of the decision. */
  method AnalyzeRelation(catalog: Catalog, d: Descriptor, s: Selection, has: Predicate)
    returns (outcome: Outcome, plan: Option<RewritePlan>)
    requires Passes(d, s, 5) && s.predicates == [has] && OneCollection(d, s)
    requires s.seekAfter.None? && ActiveSoftDelete(d, s.withDeleted).None?
    ensures Explains(outcome, catalog, d, s)
    ensures outcome == Optimized <==> plan.Some?
    ensures plan.Some? ==> Proven(catalog, d, s, plan.value) && OrderMatches(plan.value.meta.sourceNames, s.orderBy)
    ensures plan.None? ==> forall p :: Proven(catalog, d, s, p) ==> !OrderMatches(p.meta.sourceNames, s.orderBy)
  {
    hide CollectionHas, AllCollectionHas, MetadataFor, UniquePerRoot, CanFilterJunction, GoNames, OrderMatches, Passes;
    hide PrimaryKeysOf, FindRelation, FindSoftDelete, MarksDeleted;
    plan := None;
    var relation := d.RelationByName(has.field).value;
    var found := CompileMetadata(catalog, d, relation);
    if found.None? {
      return NoRewrite, None;
    }
    var meta := found.value;
    MetadataNames(catalog, d, relation, meta);
    if meta.junction.Some? && !meta.junction.value.uniquePair {
      return EdgeUniqueness, None;
    }
    var unique := RelationUniquePerRoot(meta, has.children);
    var orderMatches := OrderIsKey(meta.sourceNames, s.orderBy);
    outcome := DecideMetadata(meta.sourceIsPrimaryKey, orderMatches, unique);
    if outcome == Optimized {
      var junctionOnly := RelationCanFilterJunction(meta, has.children);
      plan := Some(RewritePlan(has, relation, meta, junctionOnly));
    }
  }

  /** The TopN rewrite is chosen exactly when it is allowed, and otherwise the reason is one that holds. */
  method AnalyzeTopN(catalog: Catalog, d: Descriptor, s: Selection, forceIndex: bool)
    returns (outcome: Outcome, plan: Option<RewritePlan>)
    ensures Explains(outcome, catalog, d, s)
    ensures outcome == Optimized <==> plan.Some?
    ensures plan.Some? ==> TopNAllowed(catalog, d, s, forceIndex, plan.value)
    ensures plan.None? ==> forall p :: !TopNAllowed(catalog, d, s, forceIndex, p)
  {
    hide CollectionHas, AllCollectionHas, MetadataFor, UniquePerRoot, CanFilterJunction, GoNames, OrderMatches;
    hide PrimaryKeysOf, FindRelation, FindSoftDelete, MarksDeleted;
    plan := None;
    if forceIndex || s.pagination.limit.None? || s.pagination.limit.value <= 0 || |s.orderBy| == 0 {
      return NoRewrite, None;
    }
    var count, first := FindCandidate(d, s.predicates);
    if |s.predicates| == 1 { OnlyCandidate(d, s.predicates); }
    if count == 0 {
      return NoRewrite, None;
    }
    SoftDeleteIsFirst(d.fields);
    outcome := DecideStructural(count, first.value.direct, s.seekAfter.Some?, |s.predicates|,
                                ActiveSoftDelete(d, s.withDeleted).Some?);
    if outcome == NeedsMetadata {
      outcome, plan := AnalyzeRelation(catalog, d, s, first.value.has);
    }
  }

  /** The count rewrite is chosen exactly when it is allowed. */
  method AnalyzeCount(catalog: Catalog, d: Descriptor, s: Selection,
    forceIndex: bool) returns (plan: Option<RewritePlan>)
    ensures plan.Some? ==> CountAllowed(catalog, d, s, forceIndex, plan.value)
    ensures plan.None? ==> forall p :: !CountAllowed(catalog, d, s, forceIndex, p)
  {
    hide CollectionHas, AllCollectionHas, MetadataFor, UniquePerRoot;
    if forceIndex || s.pagination.limit.Some? || s.pagination.offset.Some? || s.seekAfter.Some? {
      return None;
    }
    if ActiveSoftDelete(d, s.withDeleted).Some? {
      return None;
    }
    var count, first := FindCandidate(d, s.predicates);
    if |s.predicates| == 1 { OnlyCandidate(d, s.predicates); }
    if count != 1 || !first.value.direct || |s.predicates| != 1 {
      return None;
    }
    var has := first.value.has;
    var relation := d.RelationByName(has.field).value;
    var found := CompileMetadata(catalog, d, relation);
    if found.None? {
      return None;
    }
    var meta := found.value;
    if !meta.sourceIsPrimaryKey {
      return None;
    }
    var unique := RelationUniquePerRoot(meta, has.children);
    if !unique || (meta.junction.Some? && !meta.junction.value.uniquePair) {
      return None;
    }
    var junctionOnly := meta.junction.Some?;
    if junctionOnly {
      var can := RelationCanFilterJunction(meta, has.children);
      if !can {
        return None;
      }
    }
    plan := Some(RewritePlan(has, relation, meta, junctionOnly));
  }
}
