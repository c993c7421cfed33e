/** What a statement with inlined to-one relations returns (orm/inline_preload.go): the numbered LEFT
    JOINs, their rows, and that hydrating a row gives the records it was joined to. */
module InlineJoin {
  import opened SqlValues
  import opened SqlText
  import opened SqlClause
  import opened PredicateMeaning
  import opened PredicateCompiler
  import opened InlinePreload

  function AliasAt(n: nat): string {
    "tidbgo_t" + Decimal(n)
  }

  /** The names held in constants are the same numbering. */
  lemma FirstAliases()
    ensures AliasAt(0) == "tidbgo_t0" && AliasAt(1) == "tidbgo_t1" && AliasAt(8) == "tidbgo_t8"
  {
  }

  lemma AliasesApart(m: nat, n: nat)
    ensures AliasAt(m) == AliasAt(n) <==> m == n
    ensures AliasAt(m) != ""
  {
    assert AliasAt(m)[8..] == Decimal(m) && AliasAt(n)[8..] == Decimal(n);
    if Decimal(m) == Decimal(n) {
      DecimalInjective(m, n);
    }
  }

  /** One LEFT JOIN: the joined relation, the name of the table it is joined to, and its own. */
  datatype Join = Join(source: string, alias: string, plan: InlinePlan)

  function On(j: Join): (cs: seq<Clause>)
    requires Valid(j.plan)
    ensures AllWellFormed(cs) && |cs| > 0
  {
    Equalities(j.source, j.plan.sourceColumns, j.alias, j.plan.targetColumns) + LiveClause(j.alias, j.plan.softDelete)
  }

  function Size(plan: InlinePlan): nat {
    1 + Sizes(plan.children)
  }

  function Sizes(plans: seq<InlinePlan>): nat {
    if |plans| == 0 then 0 else Sizes(plans[..|plans| - 1]) + Size(plans[|plans| - 1])
  }

  /** The joins in the order they are written, a record before the records below it. */
  function JoinsOf(plan: InlinePlan, source: string, next: nat): (js: seq<Join>)
    requires Valid(plan)
    ensures forall j <- js :: Valid(j.plan)
    decreases plan, 1
  {
    [Join(source, AliasAt(next), plan)] + Joins(plan.children, AliasAt(next), next + 1)
  }

  function Joins(plans: seq<InlinePlan>, source: string, next: nat): (js: seq<Join>)
    requires AllValid(plans)
    ensures forall j <- js :: Valid(j.plan)
    decreases plans, 0
  {
    if |plans| == 0 then []
    else
      var n := |plans| - 1;
      Joins(plans[..n], source, next) + JoinsOf(plans[n], source, next + Sizes(plans[..n]))
  }

  lemma JoinsUnfold(plans: seq<InlinePlan>, source: string, next: nat)
    requires AllValid(plans) && |plans| > 0
    ensures var n := |plans| - 1;
      && AllValid(plans[..n]) && Valid(plans[n]) && ColumnCounts(plans)
        == ColumnCounts(plans[..n]) + ColumnCount(plans[n])
      && Joins(plans, source, next) == Joins(plans[..n], source, next)
        + JoinsOf(plans[n], source, next + Sizes(plans[..n]))
  {
    hide Valid, JoinsOf, ColumnCount;
  }

  lemma NoJoins(plans: seq<InlinePlan>, source: string, next: nat, s: Scope)
    requires AllValid(plans)
    ensures |plans| == 0 ==> Joins(plans, source, next) == [] && ColumnCounts(plans) == 0 && Selected([], s) == []
  {
  }

  lemma JoinsOfUnfold(plan: InlinePlan, source: string, next: nat)
    requires Valid(plan)
    ensures AllValid(plan.children) && ColumnCount(plan) == |plan.fields| + ColumnCounts(plan.children)
    ensures JoinsOf(plan, source, next)
      == [Join(source, AliasAt(next), plan)] + Joins(plan.children, AliasAt(next), next + 1)
  {
    hide Joins, ColumnCounts, Sizes;
  }

  // ---- the numbering ----

  /** The name of the root, or a number from `base` up to but not including `n`. */
  predicate Earlier(name: string, root: string, base: nat, n: nat) {
    name == root || exists m: nat :: base <= m < n && name == AliasAt(m)
  }

  /** The k-th join has the k-th number, and is joined to the root or to a record with a smaller one. */
  predicate Numbered(js: seq<Join>, root: string, base: nat, next: nat) {
    forall k | 0 <= k < |js| :: js[k].alias == AliasAt(next + k) && Earlier(js[k].source, root, base, next + k)
  }

  lemma {:induction false} JoinsNumbered(plans: seq<InlinePlan>, source: string, next: nat, root: string, base: nat)
    requires AllValid(plans) && base <= next && Earlier(source, root, base, next)
    ensures |Joins(plans, source, next)| == Sizes(plans) && Numbered(Joins(plans, source, next), root, base, next)
    decreases plans, 0
  {
    hide Earlier, JoinsOf, Valid;
    if |plans| > 0 {
      var n := |plans| - 1;
      JoinsNumbered(plans[..n], source, next, root, base);
      EarlierToo(source, root, base, next, next + Sizes(plans[..n]));
      JoinsOfNumbered(plans[n], source, next + Sizes(plans[..n]), root, base);
      NumberedOn(Joins(plans[..n], source, next), JoinsOf(plans[n], source, next + Sizes(plans[..n])), root, base,
        next);
    }
  }

  lemma {:induction false} JoinsOfNumbered(plan: InlinePlan, source: string, next: nat, root: string, base: nat)
    requires Valid(plan) && base <= next && Earlier(source, root, base, next)
    ensures |JoinsOf(plan, source, next)| == Size(plan) && Numbered(JoinsOf(plan, source, next), root, base, next)
    decreases plan, 1
  {
    hide Joins, Sizes;
    JoinsNumbered(plan.children, AliasAt(next), next + 1, root, base);
    NumberedOn([Join(source, AliasAt(next), plan)], Joins(plan.children, AliasAt(next), next + 1), root, base, next);
  }

  lemma EarlierToo(name: string, root: string, base: nat, n: nat, more: nat)
    requires Earlier(name, root, base, n) && n <= more
    ensures Earlier(name, root, base, more)
  {
  }

  lemma NumberedOn(a: seq<Join>, b: seq<Join>, root: string, base: nat, next: nat)
    requires Numbered(a, root, base, next) && Numbered(b, root, base, next + |a|)
    ensures Numbered(a + b, root, base, next)
  {
    forall k | 0 <= k < |a + b|
      ensures (a + b)[k].alias == AliasAt(next + k) && Earlier((a + b)[k].source, root, base, next + k)
    {
      if k >= |a| { assert (a + b)[k] == b[k - |a|] && next + |a| + (k - |a|) == next + k; }
    }
  }

  // ---- the rows of the FROM clause ----

  /** The ON condition on a row of the joined table. */
  ghost predicate OnTrue(j: Join, row: Row, scope: Scope, db: Database)
    requires Valid(j.plan)
  {
    Eval(PlainJoined(AND, On(j)), Enter(scope, j.alias, row), db) == True
  }

  ghost function Matching(j: Join, rows: seq<Row>, scope: Scope, db: Database): seq<Row>
    requires Valid(j.plan)
  {
    if |rows| == 0 then []
    else
      var n := |rows| - 1;
      Matching(j, rows[..n], scope, db) + if OnTrue(j, rows[n], scope, db) then [rows[n]] else []
  }

  /** LEFT JOIN: every matching row, or one row of NULLs. */
  ghost function LeftJoin(j: Join, scope: Scope, db: Database): (scopes: seq<Scope>)
    requires Valid(j.plan)
    ensures |scopes| > 0
  {
    var rows := Matching(j, Rows(db, j.plan.table), scope, db);
    if |rows| == 0 then [Enter(scope, j.alias, map[])]
    else seq(|rows|, i requires 0 <= i < |rows| => Enter(scope, j.alias, rows[i]))
  }

  ghost function JoinEach(j: Join, scopes: seq<Scope>, db: Database): (r: seq<Scope>)
    requires Valid(j.plan)
    ensures |r| >= |scopes|
  {
    if |scopes| == 0 then []
    else JoinEach(j, scopes[..|scopes| - 1], db) + LeftJoin(j, scopes[|scopes| - 1], db)
  }

  ghost function From(js: seq<Join>, scope: Scope, db: Database): (scopes: seq<Scope>)
    requires forall j <- js :: Valid(j.plan)
    ensures |scopes| > 0
  {
    if |js| == 0 then [scope] else JoinEach(js[|js| - 1], From(js[..|js| - 1], scope, db), db)
  }

  /** A source row and the target row of a relation: equal keys, and not soft-deleted. */
  predicate Pairs(plan: InlinePlan, source: Row, target: Row)
    requires Valid(plan)
  {
    Linked(source, plan.sourceColumns, target, plan.targetColumns) && Live(target, plan.softDelete)
  }

  lemma OnMeansPairs(j: Join, row: Row, scope: Scope, db: Database)
    requires Valid(j.plan) && j.source in scope && j.source != j.alias && j.source != ""
    ensures OnTrue(j, row, scope, db) <==> Pairs(j.plan, scope[j.source], row)
  {
    hide Eval, PlainJoined;
    var inner := Enter(scope, j.alias, row);
    var es := Equalities(j.source, j.plan.sourceColumns, j.alias, j.plan.targetColumns);
    assert inner[j.source] == scope[j.source] && inner[j.alias] == row;
    EqualitiesMeaning(j.source, j.plan.sourceColumns, j.alias, j.plan.targetColumns, inner, db);
    LiveMeaning(j.alias, j.plan.softDelete, inner, db);
    JoinedAppend(es, LiveClause(j.alias, j.plan.softDelete), inner, db);
  }

  /** Reading the ON text back gives its condition, and no argument is taken. */
  lemma OnReads(j: Join, rest: seq<Token>, more: seq<Value>)
    requires Valid(j.plan)
    ensures ParseOr(PrintJoined(AND, On(j)) + ([RParen] + rest), more)
      == Got(PlainJoined(AND, On(j)), [RParen] + rest, more)
  {
    hide PrintJoined, PlainJoined;
    JoinedTextMeansClauses(On(j), [RParen] + rest, more);
    NoOnArguments(On(j));
    assert [] + more == more;
  }

  lemma {:induction false} NoOnArguments(cs: seq<Clause>)
    requires AllWellFormed(cs) && forall c <- cs :: c.Atom? && (c.test.SameColumn? || c.test.NullTest?)
    ensures AllArgs(cs) == []
  {
    if |cs| > 0 {
      assert cs[|cs| - 1] in cs && forall c <- cs[..|cs| - 1] :: c in cs;
      NoOnArguments(cs[..|cs| - 1]);
    }
  }

  lemma {:induction false} MatchingIff(j: Join, rows: seq<Row>, scope: Scope, db: Database, row: Row)
    requires Valid(j.plan)
    ensures row in Matching(j, rows, scope, db) <==> row in rows && OnTrue(j, row, scope, db)
  {
    if |rows| > 0 {
      hide OnTrue;
      MatchingIff(j, rows[..|rows| - 1], scope, db, row);
      assert rows == rows[..|rows| - 1] + [rows[|rows| - 1]];
    }
  }

  /** In this scope the join found a row that pairs with its source, or there is none. */
  ghost predicate Settled(j: Join, s: Scope, db: Database)
    requires Valid(j.plan)
  {
    && j.alias in s && j.source in s
    && if s[j.alias] in Rows(db, j.plan.table) && Pairs(j.plan, s[j.source], s[j.alias]) then true
       else s[j.alias] == map[] && forall row <- Rows(db, j.plan.table) :: !Pairs(j.plan, s[j.source], row)
  }

  lemma LeftJoinSettles(j: Join, t: Scope, s: Scope, db: Database)
    requires Valid(j.plan) && j.source in t && j.source != j.alias && j.source != ""
    requires s in LeftJoin(j, t, db)
    ensures Settled(j, s, db) && s == Enter(t, j.alias, s[j.alias])
  {
    hide OnTrue, Pairs;
    var rows := Rows(db, j.plan.table);
    forall row: Row
      ensures row in Matching(j, rows, t, db) <==> row in rows && Pairs(j.plan, t[j.source], row)
    {
      MatchingIff(j, rows, t, db, row);
      OnMeansPairs(j, row, t, db);
    }
    var found := Matching(j, rows, t, db);
    if found == [] {
      assert s == Enter(t, j.alias, map[]);
      assert forall row <- rows :: row !in found;
    } else {
      var i :| 0 <= i < |found| && s == Enter(t, j.alias, found[i]);
      assert found[i] in found;
    }
  }

  lemma {:induction false} JoinEachFrom(j: Join, scopes: seq<Scope>, db: Database, s: Scope) returns (t: Scope)
    requires Valid(j.plan) && s in JoinEach(j, scopes, db)
    ensures t in scopes && s in LeftJoin(j, t, db)
  {
    var n := |scopes| - 1;
    if s in LeftJoin(j, scopes[n], db) {
      t := scopes[n];
    } else {
      t := JoinEachFrom(j, scopes[..n], db, s);
    }
  }

  /** A name for the root that no join takes. */
  ghost predicate RootName(root: string, next: nat) {
    root != "" && forall m: nat :: AliasAt(m) == root ==> m < next
  }

  lemma SourceBefore(js: seq<Join>, root: string, next: nat, k: nat, i: nat)
    requires Numbered(js, root, next, next) && RootName(root, next) && k <= i < |js|
    ensures js[k].source != js[i].alias && js[k].source != "" && js[i].alias != root && root != ""
    ensures js[k].source == root || exists m: nat :: m < k && js[m].alias == js[k].source
    ensures k < i ==> js[k].alias != js[i].alias
  {
    AliasesApart(next + i, next + k);
    if js[k].source != root {
      var m: nat :| next <= m < next + k && js[k].source == AliasAt(m);
      AliasesApart(m, next + i);
      assert js[m - next].alias == js[k].source;
    }
  }

  lemma NumberedFront(js: seq<Join>, root: string, next: nat)
    requires |js| > 0 && Numbered(js, root, next, next)
    ensures Numbered(js[..|js| - 1], root, next, next) && forall j <- js[..|js| - 1] :: j in js
  {
  }

  lemma AliasesGiven(js: seq<Join>, root: string, next: nat, k: nat, i: nat)
    requires Numbered(js, root, next, next) && k < |js| && i < |js|
    ensures js[k].alias != "" && js[i].alias != "" && (js[k].alias == js[i].alias <==> k == i)
  {
    AliasesApart(next + k, next + i);
    AliasesApart(next + i, next + k);
  }

  /** Every row of the FROM clause has the root row, and every join in it is settled. */
  lemma {:induction false} FromSettles(js: seq<Join>, root: string, next: nat, row: Row, db: Database, s: Scope)
    requires (forall j <- js :: Valid(j.plan)) && Numbered(js, root, next, next) && RootName(root, next)
    requires s in From(js, map[root := row], db)
    ensures root in s && s[root] == row && forall j <- js :: Settled(j, s, db)
    decreases |js|
  {
    hide Pairs, LeftJoin, JoinEach, Valid, Numbered, RootName, Rows;
    if |js| > 0 {
      var n := |js| - 1;
      var front, last := js[..n], js[n];
      var t := JoinEachFrom(last, From(front, map[root := row], db), db, s);
      NumberedFront(js, root, next);
      FromSettles(front, root, next, row, db, t);
      SourceBefore(js, root, next, n, n);
      SourceIn(js, root, next, db, t);
      LeftJoinSettles(last, t, s, db);
      forall j <- js
        ensures Settled(j, s, db)
      {
        var k :| 0 <= k < |js| && js[k] == j;
        if k < n {
          assert front[k] == j && j in front;
          SourceBefore(js, root, next, k, n);
          AliasesGiven(js, root, next, k, n);
        }
      }
    }
  }

  lemma SourceIn(js: seq<Join>, root: string, next: nat, db: Database, t: Scope)
    requires |js| > 0 && (forall j <- js :: Valid(j.plan)) && Numbered(js, root, next, next) && RootName(root, next)
    requires root in t && forall j <- js[..|js| - 1] :: Settled(j, t, db)
    ensures js[|js| - 1].source in t
  {
    hide Pairs, Numbered, Valid, RootName;
    var n := |js| - 1;
    SourceBefore(js, root, next, n, n);
    if js[n].source != root {
      var m: nat :| m < n && js[m].alias == js[n].source;
      assert js[..n][m] == js[m] && js[m] in js[..n];
      assert Settled(js[m], t, db);
    }
  }

  // ---- how often a root comes back ----

  function Partners(plan: InlinePlan, rows: seq<Row>, source: Row): seq<Row>
    requires Valid(plan)
  {
    if |rows| == 0 then []
    else Partners(plan, rows[..|rows| - 1], source) + if Pairs(plan, source,
      rows[|rows| - 1]) then [rows[|rows| - 1]] else []
  }

  lemma {:induction false} MatchingIsPartners(j: Join, rows: seq<Row>, t: Scope, db: Database)
    requires Valid(j.plan) && j.source in t && j.source != j.alias && j.source != ""
    ensures Matching(j, rows, t, db) == Partners(j.plan, rows, t[j.source])
  {
    if |rows| > 0 {
      hide OnTrue, Pairs;
      MatchingIsPartners(j, rows[..|rows| - 1], t, db);
      OnMeansPairs(j, rows[|rows| - 1], t, db);
    }
  }

  /** More than one row for the source of this join. */
  ghost predicate Doubles(j: Join, s: Scope, db: Database)
    requires Valid(j.plan)
  {
    j.source in s && |Partners(j.plan, Rows(db, j.plan.table), s[j.source])| > 1
  }

  lemma {:induction false} JoinEachHolds(j: Join, scopes: seq<Scope>, db: Database, t: Scope)
    requires Valid(j.plan) && t in scopes
    ensures |JoinEach(j, scopes, db)| >= |LeftJoin(j, t, db)|
    ensures forall s <- LeftJoin(j, t, db) :: s in JoinEach(j, scopes, db)
  {
    hide LeftJoin;
    var n := |scopes| - 1;
    if t != scopes[n] {
      assert scopes == scopes[..n] + [scopes[n]];
      JoinEachHolds(j, scopes[..n], db, t);
    }
  }

  lemma LeftJoinDoubles(j: Join, t: Scope, db: Database)
    requires Valid(j.plan) && j.source in t && j.source != j.alias && j.source != ""
    ensures |LeftJoin(j, t, db)| > 1 <==> Doubles(j, t, db)
  {
    hide Matching, Partners;
    MatchingIsPartners(j, Rows(db, j.plan.table), t, db);
  }

  /** Joining one more table changes no source row. */
  lemma SourcesKept(js: seq<Join>, root: string, next: nat, row: Row, db: Database, t: Scope, s: Scope)
    requires |js| > 0 && (forall j <- js :: Valid(j.plan)) && Numbered(js, root, next, next) && RootName(root, next)
    requires t in From(js[..|js| - 1], map[root := row], db) && s in LeftJoin(js[|js| - 1], t, db)
    ensures forall j <- js :: Doubles(j, s, db) <==> Doubles(j, t, db)
    ensures var last := js[|js| - 1]; last.source in t && last.source != last.alias && last.source != ""
  {
    hide Partners, LeftJoin, JoinEach, From, Pairs, Valid, Numbered, RootName;
    var n := |js| - 1;
    NumberedFront(js, root, next);
    FromSettles(js[..n], root, next, row, db, t);
    SourceIn(js, root, next, db, t);
    SourceBefore(js, root, next, n, n);
    LeftJoinSettles(js[n], t, s, db);
    forall j <- js
      ensures Doubles(j, s, db) <==> Doubles(j, t, db)
    {
      var k :| 0 <= k < |js| && js[k] == j;
      SourceBefore(js, root, next, k, n);
      if k < n { assert js[..n][k] == j && j in js[..n]; }
    }
  }

  /** Where the last join made rows more, or they were more before it. */
  lemma RepeatsBelow(js: seq<Join>, root: string, next: nat, row: Row, db: Database) returns (t: Scope, j: Join)
    requires |js| > 0 && (forall j <- js :: Valid(j.plan)) && Numbered(js, root, next, next) && RootName(root, next)
    requires |From(js, map[root := row], db)| > 1
    requires |From(js[..|js| - 1], map[root := row], db)| > 1 ==>
      exists s <- From(js[..|js| - 1], map[root := row], db), j <- js[..|js| - 1] :: Doubles(j, s, db)
    ensures t in From(js[..|js| - 1], map[root := row], db) && j in js && Doubles(j, t, db)
  {
    hide Doubles, LeftJoin;
    var n := |js| - 1;
    var scopes := From(js[..n], map[root := row], db);
    if |scopes| > 1 {
      t, j :| t in scopes && j in js[..n] && Doubles(j, t, db);
    } else {
      t, j := scopes[0], js[n];
      var s := LeftJoin(j, t, db)[0];
      SourcesKept(js, root, next, row, db, t, s);
      assert JoinEach(j, scopes, db) == LeftJoin(j, t, db) by {
        assert JoinEach(j, [], db) == [] && scopes[..0] == [];
      }
      LeftJoinDoubles(j, t, db);
    }
  }

  /** A root comes back more than once if and only if one of its joined records has two partner rows. */
  lemma {:induction false} RootRepeatsIff(js: seq<Join>, root: string, next: nat, row: Row, db: Database)
    requires (forall j <- js :: Valid(j.plan)) && Numbered(js, root, next, next) && RootName(root, next)
    ensures |From(js, map[root := row], db)| > 1 <==> exists s <- From(js, map[root := row], db),
      j <- js :: Doubles(j, s, db)
    decreases |js|
  {
    hide Doubles, LeftJoin, JoinEach, Settled, Valid, Numbered, RootName;
    if |js| > 0 {
      var n := |js| - 1;
      var front, last := js[..n], js[n];
      var scopes, all := From(front, map[root := row], db), From(js, map[root := row], db);
      NumberedFront(js, root, next);
      RootRepeatsIff(front, root, next, row, db);
      if |all| > 1 {
        var t, j := RepeatsBelow(js, root, next, row, db);
        var s := LeftJoin(last, t, db)[0];
        JoinEachHolds(last, scopes, db, t);
        SourcesKept(js, root, next, row, db, t, s);
        assert Doubles(j, s, db);
      }
      if s, j :| s in all && j in js && Doubles(j, s, db) {
        var t := JoinEachFrom(last, scopes, db, s);
        SourcesKept(js, root, next, row, db, t, s);
        assert Doubles(j, t, db);
        if j == last {
          LeftJoinDoubles(last, t, db);
          JoinEachHolds(last, scopes, db, t);
        }
      }
    }
  }

  // ---- the values of a row, and the records in them ----

  function RowAt(s: Scope, alias: string): Row {
    if alias in s then s[alias] else map[]
  }

  function CellsOf(fields: seq<ScanField>, row: Row): (cells: Cells)
    ensures |cells| == |fields|
  {
    seq(|fields|, i requires 0 <= i < |fields| => Column(row, fields[i].column))
  }

  /** The values of the emitted columns, join by join. */
  function Selected(js: seq<Join>, s: Scope): Cells {
    if |js| == 0 then []
    else Selected(js[..|js| - 1], s) + CellsOf(js[|js| - 1].plan.fields, RowAt(s, js[|js| - 1].alias))
  }

  lemma {:induction false} SelectedParts(a: seq<Join>, b: seq<Join>, s: Scope)
    ensures Selected(a + b, s) == Selected(a, s) + Selected(b, s)
    decreases |b|
  {
    if b == [] {
      assert a + b == a;
    } else {
      var n := |b| - 1;
      assert (a + b)[..|a + b| - 1] == a + b[..n];
      SelectedParts(a, b[..n], s);
    }
  }

  /** The record at a number, if its row has the whole key. */
  function TreeOf(plan: InlinePlan, s: Scope, next: nat): Option<Joined>
    decreases plan, 1
  {
    var row := RowAt(s, AliasAt(next));
    if forall c <- plan.targetColumns :: c in row
      then Some(Joined(CellsOf(plan.fields, row), TreesOf(plan.children, s, next + 1)))
    else None
  }

  function TreesOf(plans: seq<InlinePlan>, s: Scope, next: nat): (ts: seq<Option<Joined>>)
    ensures |ts| == |plans|
    decreases plans, 0
  {
    if |plans| == 0 then []
    else
      var n := |plans| - 1;
      TreesOf(plans[..n], s, next) + [TreeOf(plans[n], s, next + Sizes(plans[..n]))]
  }

  /** Stored rows have a NULL only where the model can hold one. */
  ghost predicate StoresFit(plan: InlinePlan, db: Database) {
    && (forall row <- Rows(db, plan.table), f <- plan.fields :: f.column !in row ==> f.holdsNull)
    && forall child <- plan.children :: StoresFit(child, db)
  }

  /** The record is that of a row paired with the source, and below it likewise; it is absent only when
      no row pairs. */
  ghost predicate JoinedTo(plan: InlinePlan, source: Row, t: Option<Joined>, db: Database)
    requires Valid(plan)
    decreases plan
  {
    match t
    case None => forall row <- Rows(db, plan.table) :: !Pairs(plan, source, row)
    case Some(record) =>
      exists row <- Rows(db, plan.table) ::
        && Pairs(plan, source, row) && record.cells == CellsOf(plan.fields, row) && |record.related| == |plan.children|
        && forall i | 0 <= i < |plan.children| :: JoinedTo(plan.children[i], row, record.related[i], db)
  }

  ghost predicate AllJoinedTo(plans: seq<InlinePlan>, source: Row, ts: seq<Option<Joined>>, db: Database)
    requires AllValid(plans)
  {
    |ts| == |plans| && forall i | 0 <= i < |plans| :: JoinedTo(plans[i], source, ts[i], db)
  }

  ghost predicate AllSettled(js: seq<Join>, s: Scope, db: Database)
    requires forall j <- js :: Valid(j.plan)
  {
    forall j <- js :: Settled(j, s, db)
  }

  /** Below a row of NULLs there are only rows of NULLs. */
  lemma {:induction false} NullsBelow(plans: seq<InlinePlan>, source: string, next: nat, s: Scope, db: Database)
    requires AllValid(plans) && RowAt(s, source) == map[] && AllSettled(Joins(plans, source, next), s, db)
    ensures Selected(Joins(plans, source, next), s) == Nulls(ColumnCounts(plans))
    decreases plans, 0
  {
    hide Settled, Valid, AllValid, Joins, JoinsOf, Selected, ColumnCounts, ColumnCount, Rows;
    NoJoins(plans, source, next, s);
    if |plans| > 0 {
      JoinsUnfold(plans, source, next);
      var n := |plans| - 1;
      var a, b := Joins(plans[..n], source, next), JoinsOf(plans[n], source, next + Sizes(plans[..n]));
      SettledParts(a, b, s, db);
      NullsBelow(plans[..n], source, next, s, db);
      NullBelow(plans[n], source, next + Sizes(plans[..n]), s, db);
      SelectedParts(a, b, s);
    }
  }

  lemma SettledParts(a: seq<Join>, b: seq<Join>, s: Scope, db: Database)
    requires (forall j <- a + b :: Valid(j.plan)) && AllSettled(a + b, s, db)
    ensures (forall j <- a :: j in a + b && Valid(j.plan)) && AllSettled(a, s, db)
    ensures (forall j <- b :: j in a + b && Valid(j.plan)) && AllSettled(b, s, db)
  {
    assert forall j <- a :: j in a + b;
    assert forall j <- b :: j in a + b;
  }

  /** The join of a relation, and those below it. */
  lemma OneJoin(plan: InlinePlan, source: string, next: nat, s: Scope, db: Database)
    requires Valid(plan) && AllSettled(JoinsOf(plan, source, next), s, db)
    ensures AllValid(plan.children) && Settled(Join(source, AliasAt(next), plan), s, db)
    ensures AllSettled(Joins(plan.children, AliasAt(next), next + 1), s, db)
    ensures Selected(JoinsOf(plan, source, next), s)
      == CellsOf(plan.fields, RowAt(s, AliasAt(next))) + Selected(Joins(plan.children, AliasAt(next), next + 1), s)
  {
    hide Settled, Joins, ColumnCount, ColumnCounts;
    var j := Join(source, AliasAt(next), plan);
    var a, b := [j], Joins(plan.children, AliasAt(next), next + 1);
    JoinsOfUnfold(plan, source, next);
    SettledParts(a, b, s, db);
    SelectedParts(a, b, s);
    assert Selected(a, s) == CellsOf(plan.fields, RowAt(s, j.alias)) by { assert a[..0] == []; }
  }

  lemma {:induction false} NullBelow(plan: InlinePlan, source: string, next: nat, s: Scope, db: Database)
    requires Valid(plan) && RowAt(s, source) == map[] && AllSettled(JoinsOf(plan, source, next), s, db)
    ensures Selected(JoinsOf(plan, source, next), s) == Nulls(ColumnCount(plan))
    decreases plan, 1
  {
    hide Joins, JoinsOf, ColumnCounts, Selected, AllSettled;
    OneJoin(plan, source, next, s, db);
    assert plan.sourceColumns[0] !in s[source];
    NullsBelow(plan.children, AliasAt(next), next + 1, s, db);
  }

  /** The values of one relation are its record laid out, and the record is the one joined. */
  lemma {:induction false} TreeIsFlat(plan: InlinePlan, source: string, next: nat, s: Scope, db: Database)
    requires Valid(plan) && StoresFit(plan, db) && source in s && AllSettled(JoinsOf(plan, source, next), s, db)
    ensures var t := TreeOf(plan, s, next);
      && (t.Some? ==> Fits(plan, t.value)) && JoinedTo(plan, s[source], t, db)
      && Flatten(plan, t) == Selected(JoinsOf(plan, source, next), s)
    decreases plan, 1
  {
    hide Joins, JoinsOf, ColumnCounts, Selected, AllSettled, Fits, Live, Linked;
    var alias := AliasAt(next);
    OneJoin(plan, source, next, s, db);
    if s[alias] in Rows(db, plan.table) && Pairs(plan, s[source], s[alias]) {
      TreesAreFlat(plan.children, alias, next + 1, s, db);
      RecordIs(plan, s, source, next, db);
    } else {
      AbsentIs(plan, s, next);
      NullsBelow(plan.children, alias, next + 1, s, db);
    }
  }

  lemma AbsentIs(plan: InlinePlan, s: Scope, next: nat)
    requires Valid(plan) && RowAt(s, AliasAt(next)) == map[]
    ensures TreeOf(plan, s, next) == None
  {
    assert plan.targetColumns[0] !in RowAt(s, AliasAt(next));
  }

  lemma {:induction false} TreesAreFlat(plans: seq<InlinePlan>, source: string, next: nat, s: Scope, db: Database)
    requires AllValid(plans) && (forall plan <- plans :: StoresFit(plan, db)) && source in s
    requires AllSettled(Joins(plans, source, next), s, db)
    ensures var ts := TreesOf(plans, s, next);
      && AllFit(plans, ts) && AllJoinedTo(plans, s[source], ts, db)
      && FlattenAll(plans, ts) == Selected(Joins(plans, source, next), s)
    decreases plans, 0
  {
    hide AllValid, Joins, JoinsOf, Selected, StoresFit, AllSettled, TreeOf, TreesOf, Fits, AllFit, JoinedTo;
    hide AllJoinedTo;
    hide Flatten, FlattenAll, ColumnCount, ColumnCounts, Sizes;
    if |plans| == 0 {
      NoTrees(plans, source, next, s, db);
    } else {
      JoinsUnfold(plans, source, next);
      TreesUnfold(plans, s, next);
      var n := |plans| - 1;
      var a, b := Joins(plans[..n], source, next), JoinsOf(plans[n], source, next + Sizes(plans[..n]));
      SettledParts(a, b, s, db);
      TreesAreFlat(plans[..n], source, next, s, db);
      TreeIsFlat(plans[n], source, next + Sizes(plans[..n]), s, db);
      SelectedParts(a, b, s);
      LastTree(plans, s[source], TreesOf(plans[..n], s, next), TreeOf(plans[n], s, next + Sizes(plans[..n])), db);
    }
  }

  lemma NoTrees(plans: seq<InlinePlan>, source: string, next: nat, s: Scope, db: Database)
    requires AllValid(plans) && |plans| == 0 && source in s
    ensures var ts := TreesOf(plans, s, next);
      AllFit(plans, ts) && AllJoinedTo(plans, s[source], ts, db)
        && FlattenAll(plans, ts) == Selected(Joins(plans, source, next), s)
  {
  }

  lemma TreesUnfold(plans: seq<InlinePlan>, s: Scope, next: nat)
    requires |plans| > 0
    ensures var n := |plans| - 1;
      TreesOf(plans, s, next) == TreesOf(plans[..n], s, next) + [TreeOf(plans[n], s, next + Sizes(plans[..n]))]
  {
    hide TreeOf, Sizes;
  }

  /** The records of all relations, from those before the last and the last. */
  lemma LastTree(plans: seq<InlinePlan>, source: Row, ts: seq<Option<Joined>>, t: Option<Joined>, db: Database)
    requires AllValid(plans) && |plans| > 0 && AllValid(plans[..|plans| - 1])
    requires AllFit(plans[..|plans| - 1], ts) && AllJoinedTo(plans[..|plans| - 1], source, ts, db)
    requires (t.Some? ==> Fits(plans[|plans| - 1], t.value)) && JoinedTo(plans[|plans| - 1], source, t, db)
    ensures AllFit(plans, ts + [t]) && AllJoinedTo(plans, source, ts + [t], db)
    ensures FlattenAll(plans, ts + [t]) == FlattenAll(plans[..|plans| - 1], ts) + Flatten(plans[|plans| - 1], t)
  {
    hide Valid, Fits, JoinedTo, Flatten, ColumnCount, ColumnCounts;
    assert (ts + [t])[..|plans| - 1] == ts;
  }

  lemma RecordIs(plan: InlinePlan, s: Scope, source: string, next: nat, db: Database)
    requires Valid(plan) && StoresFit(plan, db) && source in s && AliasAt(next) in s
    requires var row := s[AliasAt(next)]; row in Rows(db, plan.table) && Pairs(plan, s[source], row)
    requires var ts := TreesOf(plan.children, s, next + 1);
      AllFit(plan.children, ts) && AllJoinedTo(plan.children, s[AliasAt(next)], ts, db)
    ensures var t := TreeOf(plan, s, next); t.Some? && Fits(plan, t.value) && JoinedTo(plan, s[source], t, db)
    ensures TreeOf(plan, s, next).value
      == Joined(CellsOf(plan.fields, s[AliasAt(next)]), TreesOf(plan.children, s, next + 1))
  {
    var row := s[AliasAt(next)];
    var t := TreeOf(plan, s, next);
    forall c <- plan.targetColumns
      ensures c in row
    {
      var i :| 0 <= i < |plan.targetColumns| && plan.targetColumns[i] == c;
    }
    var cells := t.value.cells;
    forall i | 0 <= i < |cells| && cells[i] == None
      ensures plan.fields[i].holdsNull
    {
      assert plan.fields[i] in plan.fields;
    }
    forall k <- plan.targetKeyScan
      ensures k < |cells| && cells[k].Some?
    {
      var i :| 0 <= i < |plan.targetKeyScan| && plan.targetKeyScan[i] == k;
      assert plan.targetColumns[i] in plan.targetColumns;
    }
  }

  /** Hydrating a returned row gives the records its root is joined to. */
  lemma HydrationIsJoin(plans: seq<InlinePlan>, root: string, next: nat, row: Row, db: Database, s: Scope)
    requires AllValid(plans) && (forall plan <- plans :: StoresFit(plan, db)) && RootName(root, next)
    requires s in From(Joins(plans, root, next), map[root := row], db)
    ensures var ts := TreesOf(plans, s, next);
      UnflattenAll(plans, Selected(Joins(plans, root, next), s)) == Hydrated(ts) && AllJoinedTo(plans, row, ts, db)
  {
    hide UnflattenAll, Settled, From;
    JoinsNumbered(plans, root, next, root, next);
    FromSettles(Joins(plans, root, next), root, next, row, db, s);
    TreesAreFlat(plans, root, next, s, db);
    RoundTrip(plans, TreesOf(plans, s, next));
  }
}
