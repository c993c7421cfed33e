/** The predicate compiler as the object the source has: it appends to its query and argument
    fields, counts aliases, and switches scope around the conditions of a relation. */
module PredicateWriter {
  import opened SqlValues
  import opened SqlText
  import opened SqlClause
  import opened LikePattern
  import opened Schema
  import opened PredicateMeaning
  import opened PredicateCompiler

  class Compiler {
    const catalog: Catalog
    var descriptor: Descriptor
    var query: seq<Token>
    var arguments: seq<Value>
    var qualifier: string
    var relationAlias: nat
    var negationDepth: nat
    var disjunctionDepth: nat

    constructor (catalog: Catalog, descriptor: Descriptor, query: seq<Token>, arguments: seq<Value>, qualifier: string)
      ensures this.catalog == catalog && this.query == query && this.arguments == arguments && relationAlias == 0
      ensures Here() == Place(descriptor, qualifier, 0, 0)
    {
      this.catalog, this.descriptor, this.query, this.arguments := catalog, descriptor, query, arguments;
      this.qualifier, relationAlias, negationDepth, disjunctionDepth := qualifier, 0, 0, 0;
    }

    function Here(): Place
      reads this
    {
      Place(descriptor, qualifier, negationDepth, disjunctionDepth)
    }

    /** The state after appending a clause and giving out aliases up to a number. */
    ghost predicate Appended(query0: seq<Token>, arguments0: seq<Value>, w: Written)
      requires WellFormed(w.clause)
      reads this
    {
      query == query0 + Print(w.clause) && arguments == arguments0 + Args(w.clause) && relationAlias == w.alias
    }

    /** Writes one condition. It is refused exactly when it is not accepted on the model; the scope
        and both depth counters are as before either way. */
    method WriteCondition(p: Predicate) returns (ok: bool)
      modifies this
      ensures Here() == old(Here()) && relationAlias >= old(relationAlias)
      ensures ok <==> Accepted(p, catalog, old(descriptor))
      ensures ok ==> Appended(old(query), old(arguments), Write(p, catalog, old(Here()), old(relationAlias)))
      decreases p, 2
    {
      if p.operator == OpAnd || p.operator == OpOr {
        ok := WriteGroup(p);
      } else if p.operator == OpNot {
        ok := WriteNot(p);
      } else if p.operator == OpHasRelation {
        ok := WriteRelation(p);
      } else if p.operator == OpUnknown {
        ok := false;
      } else {
        ok := WriteScalar(p);
      }
    }

    method WriteNot(p: Predicate) returns (ok: bool)
      requires p.operator == OpNot
      modifies this
      ensures Here() == old(Here()) && relationAlias >= old(relationAlias)
      ensures ok <==> Accepted(p, catalog, old(descriptor))
      ensures ok ==> Appended(old(query), old(arguments), Write(p, catalog, old(Here()), old(relationAlias)))
      decreases p, 0
    {
      hide WriteAll, Write, Print, Args, Accepted;
      LogicalAccepted(p, catalog, descriptor);
      if p.field != "" || |p.values| != 0 || |p.children| != 1 {
        return false;
      }
      query := query + [Word(NOT), LParen];
      negationDepth := negationDepth + 1;
      ghost var inner := Here();
      ok := WriteCondition(p.children[0]);
      negationDepth := negationDepth - 1;
      query := query + [RParen];
      if ok {
        NotWrites(p, catalog, old(Here()), old(relationAlias));
        InverseWritten(old(query), Write(p.children[0], catalog, inner, old(relationAlias)).clause);
      }
    }

    method WriteGroup(p: Predicate) returns (ok: bool)
      requires p.operator == OpAnd || p.operator == OpOr
      modifies this
      ensures Here() == old(Here()) && relationAlias >= old(relationAlias)
      ensures ok <==> Accepted(p, catalog, old(descriptor))
      ensures ok ==> Appended(old(query), old(arguments), Write(p, catalog, old(Here()), old(relationAlias)))
      decreases p, 0
    {
      hide WriteAll, Write, RunText, Print, Args, AllArgs, Accepted;
      LogicalAccepted(p, catalog, descriptor);
      if p.field != "" || |p.values| != 0 || |p.children| < 2 {
        return false;
      }
      var connective := if p.operator == OpOr then OR else AND;
      query := query + [LParen];
      if p.operator == OpOr {
        disjunctionDepth := disjunctionDepth + 1;
      }
      ok := WriteRun(p.children, connective, false);
      if p.operator == OpOr {
        disjunctionDepth := disjunctionDepth - 1;
      }
      query := query + [RParen];
      if ok {
        GroupWritten(old(query), p, catalog, old(Here()), old(relationAlias));
      }
    }

    /** Writes conditions with a connective before each one, or between them when the run starts here. */
    method WriteRun(ps: seq<Predicate>, connective: Keyword, continued: bool) returns (ok: bool)
      modifies this
      ensures Here() == old(Here()) && relationAlias >= old(relationAlias)
      ensures ok <==> AllAccepted(ps, catalog, old(descriptor))
      ensures ok ==>
        var all := WriteAll(ps, catalog, old(Here()), old(relationAlias));
        && query == old(query) + RunText(connective, continued, all.clauses)
        && arguments == old(arguments) + AllArgs(all.clauses) && relationAlias == all.alias
      decreases ps, 0
    {
      hide WriteAll, Write, RunText, AllArgs, Print, Args, Accepted;
      ghost var place, alias := Here(), relationAlias;
      ghost var all := WriteAll(ps[..0], catalog, place, alias);
      NothingWritten(connective, continued, ps[..0], catalog, place, alias);
      for index := 0 to |ps|
        invariant Here() == place && relationAlias >= alias
        invariant AllAccepted(ps[..index], catalog, place.descriptor)
        invariant all == WriteAll(ps[..index], catalog, place, alias)
        invariant query == old(query) + RunText(connective, continued, all.clauses)
        invariant arguments == old(arguments) + AllArgs(all.clauses) && relationAlias == all.alias
      {
        ghost var before := query;
        if continued || index != 0 {
          query := query + [Word(connective)];
        }
        assert query == before + Separator(connective, continued || index != 0);
        ok := WriteCondition(ps[index]);
        if !ok {
          return;
        }
        ghost var last := Write(ps[index], catalog, place, all.alias);
        assert AllAccepted(ps[..index + 1], catalog, place.descriptor);
        WriteAllGrows(ps, index, catalog, place, alias);
        RunWritten(old(query), old(arguments), connective, continued, all.clauses, last.clause);
        all := WrittenAll(all.clauses + [last.clause], last.alias);
      }
      assert ps[..|ps|] == ps;
      ok := true;
    }

    /** EXISTS over the target, or over the junction joined to the target, in its own scope. */
    method WriteRelation(p: Predicate) returns (ok: bool)
      requires p.operator == OpHasRelation
      modifies this
      ensures Here() == old(Here()) && relationAlias >= old(relationAlias)
      ensures ok <==> Accepted(p, catalog, old(descriptor))
      ensures ok ==> Appended(old(query), old(arguments), Write(p, catalog, old(Here()), old(relationAlias)))
      decreases p, 1
    {
      hide WriteAll, Write, RunText, ShellText, Print, Args, AllArgs, Accepted;
      HasAccepted(p, catalog, descriptor);
      if |p.values| != 0 {
        return false;
      }
      var found := NamedPlan(catalog, descriptor, p.field);
      if found.None? {
        return false;
      }
      ok := WriteExists(p, found.value);
      if ok {
        RelationWritten(old(query), p, catalog, old(Here()), old(relationAlias), found.value);
      }
    }

    method WriteExists(p: Predicate, plan: RelationPlan) returns (ok: bool)
      requires plan.Valid()
      modifies this
      ensures Here() == old(Here()) && relationAlias >= old(relationAlias)
      ensures ok <==> AllAccepted(p.children, catalog, plan.target)
      ensures ok ==>
        var place, alias := old(Here()), old(relationAlias) + 1;
        var all := WriteAll(p.children, catalog, Inside(plan, place, alias), alias);
        && query == ((old(query) + ShellText(RelationShell(plan, p, place, alias)))
          + RunText(AND, true, all.clauses)) + [RParen]
        && arguments == old(arguments) + AllArgs(all.clauses) && relationAlias == all.alias
      decreases p, 0
    {
      hide RelationShell, ShellText, RunText, AllArgs, WriteAll;
      relationAlias := relationAlias + 1;
      var aliasIndex := relationAlias;
      WriteShell(plan, p, aliasIndex);

      var sourceDescriptor, sourceQualifier := descriptor, qualifier;
      descriptor, qualifier := plan.target, TargetAlias(aliasIndex);
      ok := WriteRun(p.children, AND, true);
      descriptor, qualifier := sourceDescriptor, sourceQualifier;
      if ok {
        query := query + [RParen];
      }
    }

    /** Everything of an EXISTS up to the caller's own conditions. */
    method WriteShell(plan: RelationPlan, p: Predicate, aliasIndex: nat)
      requires plan.Valid()
      modifies `query
      ensures query == old(query) + ShellText(RelationShell(plan, p, Here(), aliasIndex))
    {
      hide PrintJoined, PrintLink, RelatedHead, ScopeClauses;
      ghost var shell := RelationShell(plan, p, Here(), aliasIndex);
      WriteSource(plan, p, aliasIndex);
      ghost var source := query;
      query := query + [Word(WHERE)];
      WriteScope(plan, aliasIndex);
      Regroup(source, [Word(WHERE)], PrintJoined(AND, shell.where));
      NestFront(old(query), RelatedHead(shell.hints, shell.table, shell.alias), PrintLink(shell.join),
        [Word(WHERE)] + PrintJoined(AND, shell.where));
    }

    /** The tables of an EXISTS. */
    method WriteSource(plan: RelationPlan, p: Predicate, aliasIndex: nat)
      requires plan.Valid()
      modifies `query
      ensures var shell := RelationShell(plan, p, Here(), aliasIndex);
        query == (old(query) + RelatedHead(shell.hints, shell.table, shell.alias)) + PrintLink(shell.join)
    {
      var targetAlias, junctionAlias := TargetAlias(aliasIndex), JunctionAlias(aliasIndex);
      ghost var shell := RelationShell(plan, p, Here(), aliasIndex);
      query := query + [Word(EXISTS), LParen, Word(SELECT)];
      if UsesSemiJoin(plan, p, Here()) {
        query := query + [SEMI_JOIN_REWRITE];
      }
      query := query + [Literal("1"), Word(FROM)];
      query := query + if plan.junction.None? then TableText(plan.target.table, targetAlias)
                       else TableText(plan.junction.value.table, junctionAlias);
      HeadWritten(old(query), shell.hints, shell.table, shell.alias);
      assert query == old(query) + RelatedHead(shell.hints, shell.table, shell.alias);
      if plan.junction.Some? {
        ghost var before := query;
        query := query + [Word(JOIN)] + TableText(plan.target.table, targetAlias) + [Word(ON), LParen];
        WriteEqualities(targetAlias, plan.targetColumns, junctionAlias, plan.junction.value.targetColumns);
        query := query + [RParen];
        LinkWritten(before, shell.join.value);
      }
    }

    /** The correlation and the soft-delete scopes of an EXISTS. */
    method WriteScope(plan: RelationPlan, aliasIndex: nat)
      requires plan.Valid()
      modifies `query
      ensures query == old(query) + PrintJoined(AND, ScopeClauses(plan, Here(), aliasIndex))
    {
      var targetAlias, junctionAlias := TargetAlias(aliasIndex), JunctionAlias(aliasIndex);
      var sourceAlias := Here().Source();
      hide Equalities;
      query := query + [LParen];
      if plan.junction.None? {
        WriteEqualities(targetAlias, plan.targetColumns, sourceAlias, plan.sourceColumns);
      } else {
        WriteEqualities(junctionAlias, plan.junction.value.sourceColumns, sourceAlias, plan.sourceColumns);
      }
      query := query + [RParen];
      ghost var link := Group(AND,
        if plan.junction.None? then Equalities(targetAlias, plan.targetColumns, sourceAlias, plan.sourceColumns)
        else Equalities(junctionAlias, plan.junction.value.sourceColumns, sourceAlias, plan.sourceColumns));
      Enclose(old(query), [LParen], PrintJoined(AND, link.terms), [RParen]);
      assert query == old(query) + PrintJoined(AND, [link]);
      WriteLive(targetAlias, plan.softDelete);
      LiveGrows(old(query), [link], targetAlias, plan.softDelete);
      if plan.junction.Some? {
        WriteLive(junctionAlias, plan.junction.value.softDelete);
        LiveGrows(old(query), [link] + LiveClause(targetAlias, plan.softDelete), junctionAlias,
          plan.junction.value.softDelete);
      }
    }

    method WriteLive(alias: string, softDelete: Option<string>)
      modifies `query
      ensures query == old(query) + RunText(AND, true, LiveClause(alias, softDelete))
    {
      if softDelete.Some? {
        query := query + [Word(AND)];
        ghost var before := query;
        query := query + ColumnText(ColumnRef(alias, softDelete.value)) + [Word(IS), Word(NULL)];
        ghost var test := NullTest(ColumnRef(alias, softDelete.value), false);
        Regroup(before, ColumnText(ColumnRef(alias, softDelete.value)), [Word(IS), Word(NULL)]);
        Regroup(old(query), [Word(AND)], AtomText(test));
        assert PrintJoined(AND, [Atom(test)]) == AtomText(test);
      }
    }

    method WriteEqualities(left: string, leftColumns: seq<string>, right: string, rightColumns: seq<string>)
      requires |leftColumns| == |rightColumns|
      modifies `query
      ensures query == old(query) + PrintJoined(AND, Equalities(left, leftColumns, right, rightColumns))
    {
      ghost var all := Equalities(left, leftColumns, right, rightColumns);
      for index := 0 to |leftColumns|
        invariant query == old(query) + PrintJoined(AND, all[..index])
      {
        ghost var before := query;
        if index != 0 {
          query := query + [Word(AND)];
        }
        query := query + ColumnText(ColumnRef(left, leftColumns[index])) + [Op(Equal)] +
        ColumnText(ColumnRef(right, rightColumns[index]));
        assert all[..index + 1] == all[..index] + [all[index]];
        JoinGrows(AND, all[..index], all[index]);
        ghost var separator := Separator(AND, index != 0);
        SameWritten(before + separator, ColumnRef(left, leftColumns[index]), ColumnRef(right, rightColumns[index]));
        Regroup(old(query), PrintJoined(AND, all[..index]), separator + Print(all[index]));
        Regroup(before, separator, Print(all[index]));
      }
      assert all[..|leftColumns|] == all;
    }

    method WriteScalar(p: Predicate) returns (ok: bool)
      requires IsScalar(p.operator)
      modifies this
      ensures Here() == old(Here()) && relationAlias >= old(relationAlias)
      ensures ok <==> Accepted(p, catalog, old(descriptor))
      ensures ok ==> Appended(old(query), old(arguments), Write(p, catalog, old(Here()), old(relationAlias)))
    {
      if |p.children| != 0 {
        return false;
      }
      var found := descriptor.FieldByGoName(p.field);
      if found.None? || found.value.computed {
        return false;
      }
      var field := found.value;
      if p.operator == OpIn || p.operator == OpNotIn {
        ok := WriteIn(p, field);
      } else if p.operator == OpIsNull || p.operator == OpIsNotNull {
        ok := WriteNull(p, field);
      } else {
        ok := WriteValues(p, field);
      }
    }

    /** Comparisons, BETWEEN and string patterns. */
    method WriteValues(p: Predicate, field: Field) returns (ok: bool)
      requires IsScalar(p.operator) && p.operator !in {OpIn, OpNotIn, OpIsNull, OpIsNotNull}
      requires |p.children| == 0 && descriptor.FieldByGoName(p.field) == Some(field) && !field.computed
      modifies `query, `arguments
      ensures ok <==> ScalarAccepted(p, descriptor)
      ensures ok ==> query == old(query) + AtomText(ScalarTest(p, descriptor, qualifier))
      ensures ok ==> arguments == old(arguments) + AtomArgs(ScalarTest(p, descriptor, qualifier))
    {
      var column := ColumnRef(qualifier, field.column);
      var op := p.operator;
      if |p.values| != (if op == OpBetween then 2 else 1) || !field.canValue {
        return false;
      }
      if exists i :: 0 <= i < |p.values| && p.values[i] == Nil {
        return false;
      }
      if IsPattern(op) && (field.kind != KindString || !p.values[0].value.Str?) {
        return false;
      }
      if op == OpBetween {
        query := query + ColumnText(column) + [Word(BETWEEN), Question, Word(AND), Question];
        arguments := arguments + [p.values[0].value, p.values[1].value];
      } else if IsPattern(op) {
        query := query + ColumnText(column) + [Word(LIKE), Question, Word(ESC), Literal("!")];
        var pattern, _ := EscapeLikePattern(p.values[0].value.text, op != OpHasPrefix, op != OpHasSuffix);
        arguments := arguments + [Str(pattern)];
      } else {
        query := query + ColumnText(column) + [Op(ComparisonOf(op)), Question];
        arguments := arguments + [p.values[0].value];
      }
      Regroup(old(query), ColumnText(column), AtomTail(ScalarTest(p, descriptor, qualifier)));
      ok := true;
    }

    method WriteNull(p: Predicate, field: Field) returns (ok: bool)
      requires p.operator == OpIsNull || p.operator == OpIsNotNull
      requires |p.children| == 0 && descriptor.FieldByGoName(p.field) == Some(field) && !field.computed
      modifies `query
      ensures ok <==> ScalarAccepted(p, descriptor)
      ensures ok ==> query == old(query) + AtomText(ScalarTest(p, descriptor, qualifier))
    {
      if |p.values| != 0 {
        return false;
      }
      var column := ColumnRef(qualifier, field.column);
      var test := if p.operator == OpIsNotNull then [Word(IS), Word(NOT), Word(NULL)] else [Word(IS), Word(NULL)];
      query := query + ColumnText(column) + test;
      Regroup(old(query), ColumnText(column), test);
      ok := true;
    }

    method WriteIn(p: Predicate, field: Field) returns (ok: bool)
      requires p.operator == OpIn || p.operator == OpNotIn
      requires |p.children| == 0 && descriptor.FieldByGoName(p.field) == Some(field) && !field.computed
      modifies `query, `arguments
      ensures ok <==> ScalarAccepted(p, descriptor)
      ensures ok ==> query == old(query) + AtomText(ScalarTest(p, descriptor, qualifier))
      ensures ok ==> arguments == old(arguments) + AtomArgs(ScalarTest(p, descriptor, qualifier))
    {
      if !field.canValue {
        return false;
      }
      if exists i :: 0 <= i < |p.values| && p.values[i] == Nil {
        return false;
      }
      var negate := p.operator == OpNotIn;
      if |p.values| == 0 {
        query := query + [Word(if negate then TRUE else FALSE)];
        return true;
      }
      var column := ColumnRef(qualifier, field.column);
      var open := if negate then [Word(NOT), Word(IN), LParen] else [Word(IN), LParen];
      query := query + ColumnText(column) + open;
      ghost var start, values := query, BoundValues(p.values);
      for index := 0 to |p.values|
        invariant query == start + Marks(index)
        invariant arguments == old(arguments) + values[..index]
      {
        ghost var before := query;
        if index != 0 {
          query := query + [Comma];
        }
        query := query + [Question];
        Regroup(start, Marks(index), if index == 0 then [Question] else [Comma, Question]);
        arguments := arguments + [p.values[index].value];
        assert values[..index + 1] == values[..index] + [values[index]];
      }
      assert values[..|values|] == values;
      query := query + [RParen];
      ListWritten(old(query), ColumnText(column), open, Marks(|values|));
      ok := true;
    }
  }

  lemma ListWritten(q: seq<Token>, column: seq<Token>, open: seq<Token>, marks: seq<Token>)
    ensures (((q + column) + open) + marks) + [RParen] == q + (column + (open + marks + [RParen]))
  {
    Enclose(q, column, open, marks);
    Enclose(q, column, open + marks, [RParen]);
    Regroup(open, marks, [RParen]);
  }

  // ---- what is accepted, one operator at a time ----

  lemma LogicalAccepted(p: Predicate, catalog: Catalog, d: Descriptor)
    requires p.operator == OpAnd || p.operator == OpOr || p.operator == OpNot
    ensures Accepted(p, catalog, d) <==>
      && p.field == "" && p.values == [] && AllAccepted(p.children, catalog, d)
      && (if p.operator == OpNot then |p.children| == 1 else |p.children| >= 2)
  {
  }

  lemma HasAccepted(p: Predicate, catalog: Catalog, d: Descriptor)
    requires p.operator == OpHasRelation
    ensures Accepted(p, catalog, d) <==>
      && p.values == [] && NamedPlan(catalog, d, p.field).Some?
      && AllAccepted(p.children, catalog, NamedPlan(catalog, d, p.field).value.target)
  {
  }

  // ---- how pieces written one after another add up ----

  lemma Enclose(q: seq<Token>, open: seq<Token>, body: seq<Token>, close: seq<Token>)
    ensures ((q + open) + body) + close == q + ((open + body) + close)
    ensures ((q + open) + body) + close == q + (open + (body + close))
  {
  }

  lemma NestFront(q: seq<Token>, h: seq<Token>, l: seq<Token>, w: seq<Token>)
    ensures ((q + h) + l) + w == q + (h + (l + w))
  {
  }

  lemma HeadWritten(q: seq<Token>, hints: seq<Token>, table: string, alias: string)
    ensures (((q + [Word(EXISTS), LParen, Word(SELECT)]) + hints) + [Literal("1"), Word(FROM)])
      + TableText(table, alias)
      == q + RelatedHead(hints, table, alias)
  {
    assert [Word(EXISTS), LParen, Word(SELECT)] == [Word(EXISTS)] + [LParen, Word(SELECT)];
    Regroup(q, [Word(EXISTS)], [LParen, Word(SELECT)]);
    var tail := [Literal("1"), Word(FROM)] + TableText(table, alias);
    NestFront(q + [Word(EXISTS)], [LParen, Word(SELECT)], hints, tail);
    Regroup(q, [Word(EXISTS)], [LParen, Word(SELECT)] + (hints + tail));
    Regroup((q + [Word(EXISTS), LParen, Word(SELECT)]) + hints, [Literal("1"), Word(FROM)], TableText(table, alias));
  }

  lemma LinkWritten(q: seq<Token>, link: Link)
    requires |link.on| > 0 && AllWellFormed(link.on)
    ensures (((q + [Word(JOIN)] + TableText(link.table, link.alias)) + [Word(ON), LParen])
      + PrintJoined(AND, link.on)) + [RParen]
      == q + PrintLink(Some(link))
  {
    var head := [Word(JOIN)] + TableText(link.table, link.alias);
    Regroup(q, [Word(JOIN)], TableText(link.table, link.alias));
    var on := PrintJoined(AND, link.on);
    Enclose(q, head, [Word(ON), LParen], on);
    Enclose(q, head + [Word(ON), LParen], on, [RParen]);
  }

  lemma InverseWritten(q: seq<Token>, inner: Clause)
    requires WellFormed(inner)
    ensures ((q + [Word(NOT), LParen]) + Print(inner)) + [RParen] == q + Print(Inverse(inner))
    ensures Args(Inverse(inner)) == Args(inner)
  {
    Enclose(q, [Word(NOT), LParen], Print(inner), [RParen]);
  }

  lemma GroupWritten(q: seq<Token>, p: Predicate, catalog: Catalog, place: Place, alias: nat)
    requires (p.operator == OpAnd || p.operator == OpOr) && Accepted(p, catalog, place.descriptor)
    ensures var inside := if p.operator == OpOr then place.(disjunction := place.disjunction + 1) else place;
      var all := WriteAll(p.children, catalog, inside, alias);
      var w := Write(p, catalog, place, alias);
      && ((q + [LParen]) + RunText(if p.operator == OpOr then OR else AND, false,
        all.clauses)) + [RParen] == q + Print(w.clause)
      && Args(w.clause) == AllArgs(all.clauses) && w.alias == all.alias
  {
    hide WriteAll, Write, PrintJoined, AllArgs;
    var inside := if p.operator == OpOr then place.(disjunction := place.disjunction + 1) else place;
    var all := WriteAll(p.children, catalog, inside, alias);
    LogicalWrites(p, catalog, place, alias);
    Enclose(q, [LParen], PrintJoined(if p.operator == OpOr then OR else AND, all.clauses), [RParen]);
  }

  lemma NothingWritten(
    connective: Keyword, continued: bool, none: seq<Predicate>, catalog: Catalog, place: Place, alias: nat)
    requires none == []
    ensures AllAccepted(none, catalog, place.descriptor)
    ensures var all := WriteAll(none, catalog, place, alias);
      all == WrittenAll([], alias) && RunText(connective, continued, all.clauses) == [] && AllArgs(all.clauses) == []
  {
  }

  lemma RunWritten(
    q: seq<Token>, args: seq<Value>, connective: Keyword, continued: bool, cs: seq<Clause>, last: Clause)
    requires AllWellFormed(cs) && WellFormed(last)
    ensures AllWellFormed(cs + [last])
    ensures ((q + RunText(connective, continued, cs)) + Separator(connective, continued || |cs| > 0)) + Print(last)
      == q + RunText(connective, continued, cs + [last])
    ensures (args + AllArgs(cs)) + Args(last) == args + AllArgs(cs + [last])
  {
    var separator := Separator(connective, continued || |cs| > 0);
    RunGrows(connective, continued, cs, last);
    Regroup(q + RunText(connective, continued, cs), separator, Print(last));
    Regroup(q, RunText(connective, continued, cs), separator + Print(last));
    ArgsGrow(cs, last);
    Regroup(args, AllArgs(cs), Args(last));
  }

  lemma RelationWritten(q: seq<Token>, p: Predicate, catalog: Catalog, place: Place, alias: nat, plan: RelationPlan)
    requires p.operator == OpHasRelation && Accepted(p, catalog, place.descriptor)
    requires NamedPlan(catalog, place.descriptor, p.field) == Some(plan)
    ensures var all := WriteAll(p.children, catalog, Inside(plan, place, alias + 1), alias + 1);
      var w := Write(p, catalog, place, alias);
      && ((q + ShellText(RelationShell(plan, p, place, alias + 1))) + RunText(AND, true, all.clauses)) + [RParen]
        == q + Print(w.clause)
      && Args(w.clause) == AllArgs(all.clauses) && w.alias == all.alias
  {
    var shell := RelationShell(plan, p, place, alias + 1);
    var all := WriteAll(p.children, catalog, Inside(plan, place, alias + 1), alias + 1);
    RelationWrites(p, catalog, place, alias, plan);
    ShellArgs(plan, p, place, alias + 1);
    ShellGrows(shell, all.clauses);
    ShellCloses(shell.(where := shell.where + all.clauses));
    Regroup(q, ShellText(shell), RunText(AND, true, all.clauses));
    Regroup(q, ShellText(shell) + RunText(AND, true, all.clauses), [RParen]);
  }

  lemma SameWritten(q: seq<Token>, one: ColumnRef, other: ColumnRef)
    ensures ((q + ColumnText(one)) + [Op(Equal)]) + ColumnText(other) == q + Print(Atom(SameColumn(one, other)))
  {
    Enclose(q, ColumnText(one), [Op(Equal)], ColumnText(other));
  }

  lemma LiveGrows(q: seq<Token>, cs: seq<Clause>, alias: string, softDelete: Option<string>)
    requires |cs| > 0 && AllWellFormed(cs)
    ensures (q + PrintJoined(AND, cs)) + RunText(AND, true, LiveClause(alias, softDelete))
      == q + PrintJoined(AND, cs + LiveClause(alias, softDelete))
  {
    RunJoins(AND, cs, LiveClause(alias, softDelete));
    Regroup(q, PrintJoined(AND, cs), RunText(AND, true, LiveClause(alias, softDelete)));
  }
}
