/** Numbering the plans of joined relations in place and writing their columns and joins
    (orm/inline_preload.go:110-117,157-189). */
module InlineWriter {
  import opened SqlText
  import opened SqlClause
  import opened PredicateCompiler
  import opened PredicateWriter
  import opened InlinePreload
  import opened InlineJoin

  /** A plan being compiled; the two names are given by the numbering. */
  class PlanNode {
    const plan: InlinePlan
    const inlineChildren: seq<PlanNode>
    var sourceAlias: string
    var targetAlias: string

    constructor (plan: InlinePlan, inlineChildren: seq<PlanNode>)
      ensures this.plan == plan && this.inlineChildren == inlineChildren
    {
      this.plan, this.inlineChildren, sourceAlias, targetAlias := plan, inlineChildren, "", "";
    }
  }

  /** The nodes mirror the plans. */
  ghost predicate Mirrors(nodes: seq<PlanNode>, plans: seq<InlinePlan>)
    decreases plans
  {
    |nodes| == |plans| && forall i | 0 <= i < |plans| ::
      nodes[i].plan == plans[i] && Mirrors(nodes[i].inlineChildren, plans[i].children)
  }

  /** The nodes of the tree in the order they are numbered. */
  ghost function NodesOf(node: PlanNode, plan: InlinePlan): (all: seq<PlanNode>)
    requires Mirrors(node.inlineChildren, plan.children)
    ensures |all| == Size(plan)
    decreases plan, 1
  {
    [node] + Nodes(node.inlineChildren, plan.children)
  }

  ghost function Nodes(nodes: seq<PlanNode>, plans: seq<InlinePlan>): (all: seq<PlanNode>)
    requires Mirrors(nodes, plans)
    ensures |all| == Sizes(plans)
    decreases plans, 0
  {
    if |plans| == 0 then []
    else
      var n := |plans| - 1;
      Nodes(nodes[..n], plans[..n]) + NodesOf(nodes[n], plans[n])
  }

  ghost predicate Apart(all: seq<PlanNode>) {
    forall i, j | 0 <= i < j < |all| :: all[i] != all[j]
  }

  /** The nodes carry the names of these joins, in order. */
  ghost predicate Named(all: seq<PlanNode>, js: seq<Join>)
    reads all
  {
    |all| == |js| && forall k | 0 <= k < |all| ::
      all[k].plan == js[k].plan && all[k].sourceAlias == js[k].source && all[k].targetAlias == js[k].alias
  }

  lemma NamedOn(a: seq<PlanNode>, ja: seq<Join>, b: seq<PlanNode>, jb: seq<Join>)
    requires Named(a, ja) && Named(b, jb)
    ensures Named(a + b, ja + jb)
  {
  }

  lemma {:induction false} NodesInFront(nodes: seq<PlanNode>, plans: seq<InlinePlan>, i: nat)
    requires Mirrors(nodes, plans) && i <= |plans|
    ensures Mirrors(nodes[..i], plans[..i]) && Nodes(nodes[..i], plans[..i]) <= Nodes(nodes, plans)
    decreases |plans|
  {
    if i == |plans| {
      assert nodes[..i] == nodes && plans[..i] == plans;
    } else {
      var n := |plans| - 1;
      NodesInFront(nodes[..n], plans[..n], i);
      assert nodes[..n][..i] == nodes[..i] && plans[..n][..i] == plans[..i];
    }
  }

  /** The nodes before one, and those of its tree, are all different. */
  lemma NodeParts(nodes: seq<PlanNode>, plans: seq<InlinePlan>, i: nat)
    requires Mirrors(nodes, plans) && i < |plans| && Apart(Nodes(nodes, plans))
    ensures Mirrors(nodes[..i], plans[..i]) && Mirrors(nodes[..i + 1], plans[..i + 1])
    ensures nodes[i].plan == plans[i] && Mirrors(nodes[i].inlineChildren, plans[i].children)
    ensures var before, here := Nodes(nodes[..i], plans[..i]), NodesOf(nodes[i], plans[i]);
      && Nodes(nodes[..i + 1], plans[..i + 1]) == before + here
      && (forall x <- here :: x !in before && x in Nodes(nodes, plans)) && Apart(here)
  {
    hide Mirrors, NodesOf;
    NodesInFront(nodes, plans, i);
    NodesInFront(nodes, plans, i + 1);
    MirrorAt(nodes, plans, i);
    assert nodes[..i + 1][..i] == nodes[..i] && plans[..i + 1][..i] == plans[..i];
    TwoApart(Nodes(nodes[..i], plans[..i]), NodesOf(nodes[i], plans[i]), Nodes(nodes, plans));
  }

  lemma TwoApart(before: seq<PlanNode>, here: seq<PlanNode>, all: seq<PlanNode>)
    requires Apart(all) && before + here <= all
    ensures (forall x <- here :: x !in before && x in all) && Apart(here)
  {
    var b := |before|;
    assert forall i | 0 <= i < b :: all[i] == before[i];
    forall i | 0 <= i < |here|
      ensures here[i] == all[b + i]
    {
    }
  }

  lemma MirrorAt(nodes: seq<PlanNode>, plans: seq<InlinePlan>, i: nat)
    requires Mirrors(nodes, plans) && i < |plans|
    ensures |nodes| == |plans| && nodes[i].plan == plans[i] && Mirrors(nodes[i].inlineChildren, plans[i].children)
  {
  }

  lemma SomeApart(node: PlanNode, below: seq<PlanNode>, all: seq<PlanNode>)
    requires Apart(all) && [node] + below == all
    ensures node !in below && Apart(below) && node in all && forall x <- below :: x in all
  {
    assert all[0] == node && forall i | 0 <= i < |below| :: all[i + 1] == below[i];
  }

  /** Numbers the plans from `nextAlias` on, each before the plans below it. */
  method AssignInlinePreloadAliases(nodes: seq<PlanNode>, sourceAlias: string, nextAlias: nat,
    ghost plans: seq<InlinePlan>)
    returns (next: nat)
    requires AllValid(plans) && Mirrors(nodes, plans) && Apart(Nodes(nodes, plans))
    modifies Nodes(nodes, plans)
    ensures next == nextAlias + Sizes(plans)
    ensures Named(Nodes(nodes, plans), Joins(plans, sourceAlias, nextAlias))
    decreases plans, 0
  {
    hide Joins, JoinsOf, Nodes, NodesOf, Apart, Valid, DistinctRelations, Sizes, Mirrors;
    next := nextAlias;
    NothingNamed(nodes, plans, sourceAlias, nextAlias);
    for index := 0 to |nodes|
      invariant Mirrors(nodes[..index], plans[..index]) && AllValid(plans[..index])
      invariant next == nextAlias + Sizes(plans[..index])
      invariant Named(Nodes(nodes[..index], plans[..index]), Joins(plans[..index], sourceAlias, nextAlias))
    {
      NodeParts(nodes, plans, index);
      PlanAt(plans, index);
      ghost var before, here := Nodes(nodes[..index], plans[..index]), NodesOf(nodes[index], plans[index]);
      ghost var js, jh := Joins(plans[..index], sourceAlias, nextAlias), JoinsOf(plans[index], sourceAlias, next);
      assert forall k | 0 <= k < |here| :: here[k] in here;
      assert forall k | 0 <= k < |before| :: before[k] in before && before[k] !in here;
      assert Named(before, js) && forall k | 0 <= k < |before| :: allocated(before[k]);
      next := NumberNode(nodes[index], sourceAlias, next, plans[index]);
      NamedOn(before, js, here, jh);
      NextJoins(plans, sourceAlias, nextAlias, index);
    }
    assert nodes[..|nodes|] == nodes && plans[..|plans|] == plans;
  }

  method NumberNode(node: PlanNode, sourceAlias: string, nextAlias: nat, ghost plan: InlinePlan) returns (next: nat)
    requires Valid(plan) && node.plan == plan && Mirrors(node.inlineChildren, plan.children)
    requires Apart(NodesOf(node, plan))
    modifies NodesOf(node, plan)
    ensures next == nextAlias + Size(plan)
    ensures Named(NodesOf(node, plan), JoinsOf(plan, sourceAlias, nextAlias))
    decreases plan, 1
  {
    hide Joins, Nodes, Valid, DistinctRelations, Sizes, Mirrors, Apart;
    BelowValid(plan);
    ghost var below, js := Nodes(node.inlineChildren, plan.children), Joins(plan.children, AliasAt(nextAlias),
      nextAlias + 1);
    SomeApart(node, below, NodesOf(node, plan));
    assert forall k | 0 <= k < |below| :: below[k] in below && below[k] in NodesOf(node, plan);
    node.sourceAlias := sourceAlias;
    node.targetAlias := AliasAt(nextAlias);
    next := AssignInlinePreloadAliases(node.inlineChildren, node.targetAlias, nextAlias + 1, plan.children);
    NamedOn([node], [Join(sourceAlias, AliasAt(nextAlias), plan)], below, js);
  }

  lemma NothingNamed(nodes: seq<PlanNode>, plans: seq<InlinePlan>, sourceAlias: string, nextAlias: nat)
    requires AllValid(plans) && Mirrors(nodes, plans)
    ensures |nodes| == |plans| && Mirrors(nodes[..0], plans[..0]) && AllValid(plans[..0])
    ensures Sizes(plans[..0]) == 0 && Nodes(nodes[..0], plans[..0]) == []
    ensures Joins(plans[..0], sourceAlias, nextAlias) == []
  {
  }

  lemma PlanAt(plans: seq<InlinePlan>, i: nat)
    requires AllValid(plans) && i < |plans|
    ensures AllValid(plans[..i]) && AllValid(plans[..i + 1]) && Valid(plans[i]) && AllValid(plans[i].children)
  {
  }

  lemma BelowValid(plan: InlinePlan)
    requires Valid(plan)
    ensures AllValid(plan.children)
  {
  }

  lemma NextJoins(plans: seq<InlinePlan>, source: string, next: nat, i: nat)
    requires AllValid(plans) && i < |plans|
    ensures Sizes(plans[..i + 1]) == Sizes(plans[..i]) + Size(plans[i])
    ensures Joins(plans[..i + 1], source, next)
      == Joins(plans[..i], source, next) + JoinsOf(plans[i], source, next + Sizes(plans[..i]))
  {
    assert plans[..i + 1][..i] == plans[..i];
    JoinsUnfold(plans[..i + 1], source, next);
  }

  // ---- the text ----

  function FieldsText(alias: string, fields: seq<ScanField>): seq<Token> {
    if |fields| == 0 then []
    else FieldsText(alias, fields[..|fields| - 1]) + ([Comma] + ColumnText(ColumnRef(alias,
      fields[|fields| - 1].column)))
  }

  /** The joined columns, each after a comma: what Selected reads, in its order. */
  function ColumnsText(js: seq<Join>): seq<Token> {
    if |js| == 0 then []
    else ColumnsText(js[..|js| - 1]) + FieldsText(js[|js| - 1].alias, js[|js| - 1].plan.fields)
  }

  function JoinText(j: Join): seq<Token>
    requires Valid(j.plan)
  {
    [Literal("LEFT"), Word(JOIN)] + (TableText(j.plan.table, j.alias)
      + ([Word(ON), LParen] + (PrintJoined(AND, On(j)) + [RParen])))
  }

  function JoinsText(js: seq<Join>): seq<Token>
    requires forall j <- js :: Valid(j.plan)
  {
    if |js| == 0 then [] else JoinsText(js[..|js| - 1]) + JoinText(js[|js| - 1])
  }

  lemma {:induction false} ColumnsTextOn(a: seq<Join>, b: seq<Join>)
    ensures ColumnsText(a + b) == ColumnsText(a) + ColumnsText(b)
    decreases |b|
  {
    hide FieldsText;
    if b == [] {
      assert a + b == a;
    } else {
      assert (a + b)[..|a + b| - 1] == a + b[..|b| - 1];
      ColumnsTextOn(a, b[..|b| - 1]);
    }
  }

  lemma {:induction false} JoinsTextOn(a: seq<Join>, b: seq<Join>)
    requires (forall j <- a :: Valid(j.plan)) && forall j <- b :: Valid(j.plan)
    ensures JoinsText(a + b) == JoinsText(a) + JoinsText(b)
    decreases |b|
  {
    hide JoinText, Valid;
    if b == [] {
      assert a + b == a;
    } else {
      assert (a + b)[..|a + b| - 1] == a + b[..|b| - 1];
      JoinsTextOn(a, b[..|b| - 1]);
    }
  }

  lemma {:induction false} NamedFront(nodes: seq<PlanNode>, plans: seq<InlinePlan>, source: string, next: nat, i: nat)
    requires AllValid(plans) && Mirrors(nodes, plans) && i <= |plans|
    requires Named(Nodes(nodes, plans), Joins(plans, source, next))
    ensures AllValid(plans[..i]) && Mirrors(nodes[..i], plans[..i])
    ensures Named(Nodes(nodes[..i], plans[..i]), Joins(plans[..i], source, next))
    decreases |plans|
  {
    hide NodesOf, JoinsOf, Named, Valid, Sizes;
    if i == |plans| {
      assert nodes[..i] == nodes && plans[..i] == plans;
    } else {
      var n := |plans| - 1;
      JoinsUnfold(plans, source, next);
      JoinsCount(plans[..n], source, next);
      NamedParts(Nodes(nodes[..n], plans[..n]), Joins(plans[..n], source, next),
        NodesOf(nodes[n], plans[n]), JoinsOf(plans[n], source, next + Sizes(plans[..n])));
      NamedFront(nodes[..n], plans[..n], source, next, i);
      assert nodes[..n][..i] == nodes[..i] && plans[..n][..i] == plans[..i];
    }
  }

  lemma JoinsCount(plans: seq<InlinePlan>, source: string, next: nat)
    requires AllValid(plans)
    ensures |Joins(plans, source, next)| == Sizes(plans)
  {
    JoinsNumbered(plans, source, next, source, next);
  }

  lemma NamedParts(a: seq<PlanNode>, ja: seq<Join>, b: seq<PlanNode>, jb: seq<Join>)
    requires Named(a + b, ja + jb) && |a| == |ja|
    ensures Named(a, ja) && Named(b, jb)
  {
    assert forall k | 0 <= k < |a| :: (a + b)[k] == a[k] && (ja + jb)[k] == ja[k];
    assert forall k | 0 <= k < |b| :: b[k] == (a + b)[|a| + k];
    assert forall k | 0 <= k < |jb| :: jb[k] == (ja + jb)[|a| + k];
  }

  /** The names of one node, and of those below it. */
  lemma NamedAt(nodes: seq<PlanNode>, plans: seq<InlinePlan>, source: string, next: nat, i: nat)
    requires AllValid(plans) && Mirrors(nodes, plans) && i < |plans|
    requires Named(Nodes(nodes, plans), Joins(plans, source, next))
    ensures nodes[i].plan == plans[i] && Valid(plans[i]) && AllValid(plans[i].children)
    ensures Mirrors(nodes[i].inlineChildren, plans[i].children)
    ensures var at := next + Sizes(plans[..i]);
      && nodes[i].sourceAlias == source && nodes[i].targetAlias == AliasAt(at)
      && Named(Nodes(nodes[i].inlineChildren, plans[i].children), Joins(plans[i].children, AliasAt(at), at + 1))
  {
    hide Joins, JoinsOf, Nodes, NodesOf, Valid, AllValid, Sizes, Mirrors, Named;
    var at := next + Sizes(plans[..i]);
    NamedFront(nodes, plans, source, next, i + 1);
    NextNodes(nodes, plans, i);
    PlanAt(plans, i);
    NextJoins(plans, source, next, i);
    JoinsCount(plans[..i], source, next);
    JoinsOfUnfold(plans[i], source, at);
    var first, below := Join(source, AliasAt(at), plans[i]), Nodes(nodes[i].inlineChildren, plans[i].children);
    var js := Joins(plans[i].children, AliasAt(at), at + 1);
    NamedParts(Nodes(nodes[..i], plans[..i]), Joins(plans[..i], source, next), [nodes[i]] + below, [first] + js);
    OneNamed(nodes[i], below, first, js);
  }

  lemma NextNodes(nodes: seq<PlanNode>, plans: seq<InlinePlan>, i: nat)
    requires Mirrors(nodes, plans) && i < |plans|
    ensures |nodes| == |plans| && nodes[i].plan == plans[i] && Mirrors(nodes[i].inlineChildren, plans[i].children)
    ensures Mirrors(nodes[..i], plans[..i]) && Mirrors(nodes[..i + 1], plans[..i + 1])
    ensures Nodes(nodes[..i + 1], plans[..i + 1])
      == Nodes(nodes[..i], plans[..i]) + ([nodes[i]] + Nodes(nodes[i].inlineChildren, plans[i].children))
  {
    hide Mirrors;
    MirrorAt(nodes, plans, i);
    NodesInFront(nodes, plans, i);
    NodesInFront(nodes, plans, i + 1);
    assert nodes[..i + 1][..i] == nodes[..i] && plans[..i + 1][..i] == plans[..i];
  }

  lemma OneNamed(node: PlanNode, below: seq<PlanNode>, j: Join, js: seq<Join>)
    requires Named([node] + below, [j] + js)
    ensures node.sourceAlias == j.source && node.targetAlias == j.alias && Named(below, js)
  {
    NamedParts([node], [j], below, js);
    assert [node][0] == node;
  }

  /** Appends the joined columns to the select list. */
  method WriteInlinePreloadColumns(query0: seq<Token>, nodes: seq<PlanNode>,
    ghost plans: seq<InlinePlan>, ghost source: string, ghost next: nat)
    returns (query: seq<Token>)
    requires AllValid(plans) && Mirrors(nodes, plans) && Named(Nodes(nodes, plans), Joins(plans, source, next))
    ensures query == query0 + ColumnsText(Joins(plans, source, next))
    decreases plans
  {
    hide Joins, Nodes, Valid, Mirrors, Named, Sizes, ColumnText, FieldsText;
    query := query0;
    NoText(plans, source, next);
    MirrorCount(nodes, plans);
    ghost var all, js := Nodes(nodes, plans), Joins(plans, source, next);
    assert Named(all, js) && forall k | 0 <= k < |all| :: allocated(all[k]);
    for index := 0 to |nodes|
      invariant Named(all, js) && AllValid(plans[..index])
      invariant query == query0 + ColumnsText(Joins(plans[..index], source, next))
    {
      NamedAt(nodes, plans, source, next, index);
      ghost var at := next + Sizes(plans[..index]);
      ghost var before := query;
      query := WriteFields(query, nodes[index].targetAlias, nodes[index].plan.fields);
      NamedAt(nodes, plans, source, next, index);
      query := WriteInlinePreloadColumns(query, nodes[index].inlineChildren, plans[index].children, AliasAt(at), at
        + 1);
      NextColumns(plans, source, next, index);
      Regroup(before, FieldsText(AliasAt(at), plans[index].fields),
        ColumnsText(Joins(plans[index].children, AliasAt(at), at + 1)));
      Regroup(query0, ColumnsText(Joins(plans[..index], source, next)), ColumnsText(JoinsOf(plans[index], source, at)));
    }
    assert plans[..|plans|] == plans;
  }

  method WriteFields(query0: seq<Token>, alias: string, fields: seq<ScanField>) returns (query: seq<Token>)
    ensures query == query0 + FieldsText(alias, fields)
  {
    hide ColumnText;
    query := query0;
    for index := 0 to |fields|
      invariant query == query0 + FieldsText(alias, fields[..index])
    {
      query := query + [Comma];
      query := query + ColumnText(ColumnRef(alias, fields[index].column));
      assert fields[..index + 1][..index] == fields[..index];
    }
    assert fields[..|fields|] == fields;
  }

  lemma NoText(plans: seq<InlinePlan>, source: string, next: nat)
    requires AllValid(plans)
    ensures AllValid(plans[..0]) && Joins(plans[..0], source, next) == [] && ColumnsText([]) == []
    ensures JoinsText([]) == []
  {
  }

  lemma MirrorCount(nodes: seq<PlanNode>, plans: seq<InlinePlan>)
    requires Mirrors(nodes, plans)
    ensures |nodes| == |plans|
  {
  }

  lemma NextColumns(plans: seq<InlinePlan>, source: string, next: nat, i: nat)
    requires AllValid(plans) && i < |plans| && AllValid(plans[..i])
    ensures AllValid(plans[..i + 1]) && Valid(plans[i]) && AllValid(plans[i].children)
    ensures var at := next + Sizes(plans[..i]);
      && ColumnsText(Joins(plans[..i + 1], source, next))
        == ColumnsText(Joins(plans[..i], source, next)) + ColumnsText(JoinsOf(plans[i], source, at))
      && ColumnsText(JoinsOf(plans[i], source, at))
        == FieldsText(AliasAt(at), plans[i].fields) + ColumnsText(Joins(plans[i].children, AliasAt(at), at + 1))
  {
    hide Joins, JoinsOf, Valid, AllValid, Sizes, FieldsText;
    PlanAt(plans, i);
    NextJoins(plans, source, next, i);
    var at := next + Sizes(plans[..i]);
    ColumnsTextOn(Joins(plans[..i], source, next), JoinsOf(plans[i], source, at));
    JoinsOfUnfold(plans[i], source, at);
    var j := Join(source, AliasAt(at), plans[i]);
    ColumnsTextOn([j], Joins(plans[i].children, AliasAt(at), at + 1));
    assert ColumnsText([j]) == FieldsText(j.alias, j.plan.fields) by { assert [j][..0] == []; }
  }

  lemma NextTexts(plans: seq<InlinePlan>, source: string, next: nat, i: nat)
    requires AllValid(plans) && i < |plans| && AllValid(plans[..i])
    ensures AllValid(plans[..i + 1]) && Valid(plans[i]) && AllValid(plans[i].children)
    ensures var at := next + Sizes(plans[..i]);
      && JoinsText(Joins(plans[..i + 1], source, next))
        == JoinsText(Joins(plans[..i], source, next)) + JoinsText(JoinsOf(plans[i], source, at))
      && JoinsText(JoinsOf(plans[i], source, at))
        == JoinText(Join(source, AliasAt(at), plans[i])) + JoinsText(Joins(plans[i].children, AliasAt(at), at + 1))
  {
    hide Joins, JoinsOf, Valid, AllValid, Sizes, JoinText;
    PlanAt(plans, i);
    NextJoins(plans, source, next, i);
    var at := next + Sizes(plans[..i]);
    JoinsTextOn(Joins(plans[..i], source, next), JoinsOf(plans[i], source, at));
    JoinsOfUnfold(plans[i], source, at);
    var j := Join(source, AliasAt(at), plans[i]);
    JoinsTextOn([j], Joins(plans[i].children, AliasAt(at), at + 1));
    assert JoinsText([j]) == JoinText(j) by { assert [j][..0] == []; }
  }

  /** Appends the joins to the FROM clause. */
  method WriteInlinePreloadJoins(c: Compiler, nodes: seq<PlanNode>,
    ghost plans: seq<InlinePlan>, ghost source: string, ghost next: nat)
    requires AllValid(plans) && Mirrors(nodes, plans) && Named(Nodes(nodes, plans), Joins(plans, source, next))
    modifies c`query
    ensures c.query == old(c.query) + JoinsText(Joins(plans, source, next))
    decreases plans
  {
    hide Joins, Nodes, Valid, Mirrors, Named, Sizes, JoinText;
    NoText(plans, source, next);
    MirrorCount(nodes, plans);
    ghost var all, js := Nodes(nodes, plans), Joins(plans, source, next);
    assert Named(all, js) && forall k | 0 <= k < |all| :: allocated(all[k]);
    for index := 0 to |nodes|
      invariant Named(all, js) && AllValid(plans[..index])
      invariant c.query == old(c.query) + JoinsText(Joins(plans[..index], source, next))
    {
      NamedAt(nodes, plans, source, next, index);
      ghost var at := next + Sizes(plans[..index]);
      ghost var before := c.query;
      WriteJoin(c, nodes[index]);
      NamedAt(nodes, plans, source, next, index);
      WriteInlinePreloadJoins(c, nodes[index].inlineChildren, plans[index].children, AliasAt(at), at + 1);
      NextTexts(plans, source, next, index);
      Regroup(before, JoinText(Join(source, AliasAt(at), plans[index])),
        JoinsText(Joins(plans[index].children, AliasAt(at), at + 1)));
      Regroup(old(c.query), JoinsText(Joins(plans[..index], source, next)),
        JoinsText(JoinsOf(plans[index], source, at)));
    }
    assert plans[..|plans|] == plans;
  }

  method WriteJoin(c: Compiler, node: PlanNode)
    requires Valid(node.plan)
    modifies c`query
    ensures c.query == old(c.query) + JoinText(Join(node.sourceAlias, node.targetAlias, node.plan))
  {
    hide PrintJoined, TableText, Equalities, RunText, LiveClause;
    var plan := node.plan;
    ghost var on := On(Join(node.sourceAlias, node.targetAlias, plan));
    c.query := c.query + [Literal("LEFT"), Word(JOIN)];
    c.query := c.query + TableText(plan.table, node.targetAlias);
    c.query := c.query + [Word(ON), LParen];
    ghost var open := c.query;
    c.WriteEqualities(node.sourceAlias, plan.sourceColumns, node.targetAlias, plan.targetColumns);
    c.WriteLive(node.targetAlias, plan.softDelete);
    c.query := c.query + [RParen];
    ghost var es := Equalities(node.sourceAlias, plan.sourceColumns, node.targetAlias, plan.targetColumns);
    LiveGrows(open, es, node.targetAlias, plan.softDelete);
    Regroup(open, PrintJoined(AND, on), [RParen]);
    Enclose(old(c.query) + [Literal("LEFT"), Word(JOIN)], TableText(plan.table, node.targetAlias), [Word(ON), LParen],
      PrintJoined(AND, on) + [RParen]);
    Regroup(old(c.query), [Literal("LEFT"), Word(JOIN)],
      TableText(plan.table, node.targetAlias) + ([Word(ON), LParen] + (PrintJoined(AND, on) + [RParen])));
  }
}
