/** What a tree of conditions tells the compiler besides its truth: where the semi-join hint goes
    (orm/relation_predicate.go:290-294) and when the root needs an alias (orm/select_clause.go:199-207). */
module SemiJoin {
  import opened SqlText
  import opened SqlClause
  import opened Schema
  import opened PredicateMeaning
  import opened PredicateCompiler
  import opened SelectClause

  /** For each Has of a tree, in writing order, whether it is hinted: a Has about a collection, with conditions of its
      own, that stands under no NOT and no OR. */
  function Hinted(p: Predicate, catalog: Catalog, d: Descriptor, conjunctive: bool): seq<bool>
    requires Accepted(p, catalog, d)
    decreases p, 1
  {
    if p.operator == OpAnd then AllHinted(p.children, catalog, d, conjunctive)
    else if p.operator == OpOr || p.operator == OpNot then AllHinted(p.children, catalog, d, false)
    else if p.operator == OpHasRelation then
      var relation := d.RelationByName(p.field).value;
      [conjunctive && p.children != [] && (relation.kind == HasMany || relation.kind == ManyToMany)]
      + AllHinted(p.children, catalog, catalog[relation.target], conjunctive)
    else []
  }

  function AllHinted(ps: seq<Predicate>, catalog: Catalog, d: Descriptor, conjunctive: bool): seq<bool>
    requires AllAccepted(ps, catalog, d)
    decreases ps, 0
  {
    if |ps| == 0 then []
    else AllHinted(ps[..|ps| - 1], catalog, d, conjunctive) + Hinted(ps[|ps| - 1], catalog, d, conjunctive)
  }

  /** For each EXISTS of a clause, in writing order, whether it starts with the hint. */
  function HintsIn(c: Clause): seq<bool>
    decreases c, 1
  {
    match c
    case Group(_, parts) => AllHints(parts)
    case Inverse(inner) => HintsIn(inner)
    case Related(hints, _, _, _, where) => [hints == [SEMI_JOIN_REWRITE]] + AllHints(where)
    case _ => []
  }

  function AllHints(cs: seq<Clause>): seq<bool>
    decreases cs, 0
  {
    if |cs| == 0 then [] else AllHints(cs[..|cs| - 1]) + HintsIn(cs[|cs| - 1])
  }

  lemma {:induction false} HintsJoin(a: seq<Clause>, b: seq<Clause>)
    ensures AllHints(a + b) == AllHints(a) + AllHints(b)
  {
    if |b| == 0 {
      assert a + b == a;
    } else {
      HintsJoin(a, b[..|b| - 1]);
      assert (a + b)[..|a + b| - 1] == a + b[..|b| - 1];
    }
  }

  lemma {:induction false} NoHints(cs: seq<Clause>)
    requires forall c <- cs :: c.Atom?
    ensures AllHints(cs) == []
  {
    if |cs| > 0 { NoHints(cs[..|cs| - 1]); }
  }

  lemma HintsOfOne(c: Clause)
    ensures AllHints([c]) == HintsIn(c)
  {
    assert [c][..0] == [];
  }

  lemma ScopeHasNoHints(plan: RelationPlan, place: Place, alias: nat)
    requires plan.Valid()
    ensures AllHints(ScopeClauses(plan, place, alias)) == []
  {
    var target := TargetAlias(alias);
    var link := if plan.junction.None? then Equalities(target, plan.targetColumns, place.Source(), plan.sourceColumns)
      else Equalities(JunctionAlias(alias), plan.junction.value.sourceColumns, place.Source(), plan.sourceColumns);
    NoHints(link);
    HintsOfOne(Group(AND, link));
    NoHints(LiveClause(target, plan.softDelete));
    HintsJoin([Group(AND, link)], LiveClause(target, plan.softDelete));
    if plan.junction.Some? {
      var live := LiveClause(JunctionAlias(alias), plan.junction.value.softDelete);
      NoHints(live);
      HintsJoin([Group(AND, link)] + LiveClause(target, plan.softDelete), live);
    }
  }

  /** The hint stands exactly at the Has predicates it is meant for, in every tree. */
  lemma {:induction false} HintsAreRight(p: Predicate, catalog: Catalog, place: Place, alias: nat)
    requires Accepted(p, catalog, place.descriptor)
    ensures HintsIn(Write(p, catalog, place, alias).clause)
      == Hinted(p, catalog, place.descriptor, place.negation == 0 && place.disjunction == 0)
    decreases p, 1
  {
    hide Write, WriteAll, AllHints, AllHinted;
    var op := p.operator;
    if op == OpAnd || op == OpOr {
      var inside := if op == OpOr then place.(disjunction := place.disjunction + 1) else place;
      LogicalWrites(p, catalog, place, alias);
      AllHintsAreRight(p.children, catalog, inside, alias);
    } else if op == OpNot {
      NotWrites(p, catalog, place, alias);
      HintsAreRight(p.children[0], catalog, place.(negation := place.negation + 1), alias);
      OneHinted(p.children, catalog, place.descriptor);
    } else if op == OpHasRelation {
      RelationHints(p, catalog, place, alias);
    } else {
      ScalarWrites(p, catalog, place, alias);
    }
  }

  lemma OneHinted(ps: seq<Predicate>, catalog: Catalog, d: Descriptor)
    requires |ps| == 1 && AllAccepted(ps, catalog, d)
    ensures AllHinted(ps, catalog, d, false) == Hinted(ps[0], catalog, d, false)
  {
    assert ps[..0] == [];
  }

  lemma {:induction false} RelationHints(p: Predicate, catalog: Catalog, place: Place, alias: nat)
    requires p.operator == OpHasRelation && Accepted(p, catalog, place.descriptor)
    ensures HintsIn(Write(p, catalog, place, alias).clause)
      == Hinted(p, catalog, place.descriptor, place.negation == 0 && place.disjunction == 0)
    decreases p, 0
  {
    hide Write, WriteAll, AllHints, AllHinted, ScopeClauses;
    var relation := place.descriptor.RelationByName(p.field).value;
    var plan := NamedPlan(catalog, place.descriptor, p.field).value;
    var shell := RelationShell(plan, p, place, alias + 1);
    var all := WriteAll(p.children, catalog, Inside(plan, place, alias + 1), alias + 1);
    assert plan.kind == relation.kind && plan.target == catalog[relation.target];
    RelationWrites(p, catalog, place, alias, plan);
    HintsJoin(shell.where, all.clauses);
    ScopeHasNoHints(plan, place, alias + 1);
    assert AllHints(shell.where) == [] && [] + AllHints(all.clauses) == AllHints(all.clauses);
    AllHintsAreRight(p.children, catalog, Inside(plan, place, alias + 1), alias + 1);
  }

  lemma {:induction false} AllHintsAreRight(ps: seq<Predicate>, catalog: Catalog, place: Place, alias: nat)
    requires AllAccepted(ps, catalog, place.descriptor)
    ensures AllHints(WriteAll(ps, catalog, place, alias).clauses)
      == AllHinted(ps, catalog, place.descriptor, place.negation == 0 && place.disjunction == 0)
    decreases ps, 0
  {
    hide Write, WriteAll, HintsIn, Hinted, AllHints, AllHinted, Accepted;
    HintedSplits(ps, catalog, place.descriptor, place.negation == 0 && place.disjunction == 0);
    if |ps| == 0 {
      NothingWrittenHere(catalog, place, alias);
      assert ps == [];
    } else {
      var n := |ps| - 1;
      assert ps[..n + 1] == ps;
      var front := WriteAll(ps[..n], catalog, place, alias);
      var last := Write(ps[n], catalog, place, front.alias).clause;
      WriteAllGrows(ps, n, catalog, place, alias);
      AllHintsAreRight(ps[..n], catalog, place, alias);
      HintsAreRight(ps[n], catalog, place, front.alias);
      HintsOfOne(last);
      HintsJoin(front.clauses, [last]);
    }
  }

  lemma HintedSplits(ps: seq<Predicate>, catalog: Catalog, d: Descriptor, conjunctive: bool)
    requires AllAccepted(ps, catalog, d)
    ensures |ps| == 0 ==> AllHinted(ps, catalog, d, conjunctive) == []
    ensures |ps| > 0 ==>
      var n := |ps| - 1;
      AllHinted(ps, catalog, d, conjunctive)
      == AllHinted(ps[..n], catalog, d, conjunctive) + Hinted(ps[n], catalog, d, conjunctive)
  {
    hide Hinted, Accepted;
  }

  lemma NothingWrittenHere(catalog: Catalog, place: Place, alias: nat)
    ensures WriteAll([], catalog, place, alias).clauses == [] && AllHints([]) == []
  {
  }

  // ---- the alias of the root ----

  lemma HasRelationIs(p: Predicate)
    ensures HasRelation(p) <==>
      p.operator == OpHasRelation ||
      ((p.operator == OpAnd || p.operator == OpOr || p.operator == OpNot) && AnyRelation(p.children))
  {
  }

  lemma AnyOfOne(ps: seq<Predicate>)
    requires |ps| == 1
    ensures AnyRelation(ps) <==> HasRelation(ps[0])
  {
    hide HasRelation;
  }

  /** A tree gives out an alias exactly when a Has stands in it outside of another Has. */
  lemma {:induction false} AliasGivenIff(p: Predicate, catalog: Catalog, place: Place, alias: nat)
    requires Accepted(p, catalog, place.descriptor)
    ensures Write(p, catalog, place, alias).alias > alias <==> HasRelation(p)
    decreases p, 1
  {
    hide Write, WriteAll, HasRelation, AnyRelation, RelationShell, RelationPlanFor, ScalarTest;
    var op := p.operator;
    HasRelationIs(p);
    if op == OpAnd || op == OpOr {
      var inside := if op == OpOr then place.(disjunction := place.disjunction + 1) else place;
      LogicalWrites(p, catalog, place, alias);
      AnyAliasGivenIff(p.children, catalog, inside, alias);
    } else if op == OpNot {
      NotWrites(p, catalog, place, alias);
      AliasGivenIff(p.children[0], catalog, place.(negation := place.negation + 1), alias);
      AnyOfOne(p.children);
    } else if op == OpHasRelation {
      RelationWrites(p, catalog, place, alias, NamedPlan(catalog, place.descriptor, p.field).value);
    } else {
      ScalarWrites(p, catalog, place, alias);
    }
  }

  /** The root is given its alias exactly when its conditions give out aliases to other tables. */
  lemma {:induction false} AnyAliasGivenIff(ps: seq<Predicate>, catalog: Catalog, place: Place, alias: nat)
    requires AllAccepted(ps, catalog, place.descriptor)
    ensures WriteAll(ps, catalog, place, alias).alias > alias <==> AnyRelation(ps)
    decreases ps, 0
  {
    hide Write, WriteAll, HasRelation, AnyRelation, Accepted;
    AnySplits(ps);
    if |ps| == 0 {
      NothingGiven(catalog, place, alias);
      assert ps == [];
    } else {
      var n := |ps| - 1;
      assert ps[..n + 1] == ps;
      var front := WriteAll(ps[..n], catalog, place, alias);
      WriteAllGrows(ps, n, catalog, place, alias);
      AnyAliasGivenIff(ps[..n], catalog, place, alias);
      AliasGivenIff(ps[n], catalog, place, front.alias);
    }
  }

  lemma AnySplits(ps: seq<Predicate>)
    ensures |ps| == 0 ==> !AnyRelation(ps)
    ensures |ps| > 0 ==> (AnyRelation(ps) <==> AnyRelation(ps[..|ps| - 1]) || HasRelation(ps[|ps| - 1]))
  {
    hide HasRelation;
    if |ps| > 0 {
      var n := |ps| - 1;
      assert forall i | 0 <= i < n :: ps[..n][i] == ps[i];
      if i :| 0 <= i < |ps| && HasRelation(ps[i]) && i < n {
        assert HasRelation(ps[..n][i]);
      }
    }
  }

  lemma NothingGiven(catalog: Catalog, place: Place, alias: nat)
    ensures WriteAll([], catalog, place, alias).alias == alias
  {
  }
}
