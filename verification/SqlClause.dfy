/** The shapes of condition text the compilers write, with the argument list each one appends,
    and the proof that reading the text back gives the condition that was meant. */
module SqlClause {
  import opened SqlValues
  import opened SqlText

  datatype Clause =
    | Atom(test: Condition)
    | Group(connective: Keyword, terms: seq<Clause>)   // "(" term AND term ... ")"
    | Inverse(inner: Clause)                           // "NOT (" inner ")"
    | Related(hints: seq<Token>, table: string, alias: string, join: Option<Link>, where: seq<Clause>)

  /** The JOIN part of an EXISTS over a junction: one group of column equalities. */
  datatype Link = Link(table: string, alias: string, on: seq<Clause>)

  predicate AtomicTest(test: Condition) {
    match test
    case Constant(_) => true
    case Compare(_, _, _) => true
    case SameColumn(_, _) => true
    case NullTest(_, _) => true
    case InList(_, list, _) => |list| > 0
    case Range(_, _, _) => true
    case LikeTest(_, _) => true
    case _ => false
  }

  predicate WellFormed(c: Clause) {
    match c
    case Atom(test) => AtomicTest(test)
    case Group(connective, terms) =>
      (connective == AND || connective == OR) && |terms| > 0 && forall i | 0 <= i < |terms| :: WellFormed(terms[i])
    case Inverse(inner) => WellFormed(inner)
    case Related(hints, _, _, join, where) =>
      && |hints| <= 1 && (|hints| == 1 ==> hints[0].Hint?)
      && |where| > 0 && (forall i | 0 <= i < |where| :: WellFormed(where[i]))
      && (join.Some? ==> |join.value.on| > 0 && forall i | 0 <= i < |join.value.on| :: WellFormed(join.value.on[i]))
  }

  predicate AllWellFormed(cs: seq<Clause>) {
    forall i | 0 <= i < |cs| :: WellFormed(cs[i])
  }

  // ---- the text ----

  function ColumnText(column: ColumnRef): seq<Token> {
    if column.qualifier == "" then [Ident(column.name)]
    else [Ident(column.qualifier), Dot, Ident(column.name)]
  }

  /** `n` placeholders separated by commas. */
  function Marks(n: nat): seq<Token> {
    if n == 0 then [] else if n == 1 then [Question] else Marks(n - 1) + [Comma, Question]
  }

  function AtomTail(test: Condition): seq<Token>
    requires AtomicTest(test)
  {
    match test
    case Constant(_) => []
    case Compare(_, op, _) => [Op(op), Question]
    case SameColumn(_, other) => [Op(Equal)] + ColumnText(other)
    case NullTest(_, negated) => if negated then [Word(IS), Word(NOT), Word(NULL)] else [Word(IS), Word(NULL)]
    case InList(_, list, negated) =>
      (if negated then [Word(NOT), Word(IN), LParen] else [Word(IN), LParen]) + Marks(|list|) + [RParen]
    case Range(_, _, _) => [Word(BETWEEN), Question, Word(AND), Question]
    case LikeTest(_, _) => [Word(LIKE), Question, Word(ESC), Literal("!")]
  }

  function AtomColumn(test: Condition): ColumnRef
    requires AtomicTest(test) && !test.Constant?
  {
    if test.SameColumn? then test.one else test.column
  }

  function AtomText(test: Condition): seq<Token>
    requires AtomicTest(test)
  {
    if test.Constant? then [Word(if test.value then TRUE else FALSE)]
    else ColumnText(AtomColumn(test)) + AtomTail(test)
  }

  function AtomArgs(test: Condition): seq<Value>
    requires AtomicTest(test)
  {
    match test
    case Compare(_, _, bound) => [bound]
    case InList(_, list, _) => list
    case Range(_, low, high) => [low, high]
    case LikeTest(_, pattern) => [pattern]
    case _ => []
  }

  function TableText(table: string, alias: string): seq<Token> {
    [Ident(table), Word(AS), Ident(alias)]
  }

  function Print(c: Clause): seq<Token>
    requires WellFormed(c)
    decreases c, 1
  {
    match c
    case Atom(test) => AtomText(test)
    case Group(connective, terms) => [LParen] + PrintJoined(connective, terms) + [RParen]
    case Inverse(inner) => [Word(NOT), LParen] + Print(inner) + [RParen]
    case Related(hints, table, alias, join, where) =>
      RelatedHead(hints, table, alias) + (PrintLink(join) + ([Word(WHERE)] + (PrintJoined(AND, where) + [RParen])))
  }

  function RelatedHead(hints: seq<Token>, table: string, alias: string): seq<Token> {
    [Word(EXISTS)] + ([LParen, Word(SELECT)] + (hints + ([Literal("1"), Word(FROM)] + TableText(table, alias))))
  }

  function PrintLink(join: Option<Link>): seq<Token>
    requires join.Some? ==> |join.value.on| > 0 && AllWellFormed(join.value.on)
    decreases join, 0
  {
    match join
    case None => []
    case Some(link) =>
      [Word(JOIN)] + TableText(link.table, link.alias) + [Word(ON), LParen] + PrintJoined(AND, link.on) + [RParen]
  }

  function PrintJoined(connective: Keyword, cs: seq<Clause>): seq<Token>
    requires AllWellFormed(cs)
    decreases cs, 0
  {
    if |cs| == 0 then []
    else if |cs| == 1 then Print(cs[0])
    else PrintJoined(connective, cs[..|cs| - 1]) + [Word(connective)] + Print(cs[|cs| - 1])
  }

  // ---- the arguments, in the order they are appended ----

  function Args(c: Clause): seq<Value>
    requires WellFormed(c)
    decreases c, 1
  {
    match c
    case Atom(test) => AtomArgs(test)
    case Group(_, terms) => AllArgs(terms)
    case Inverse(inner) => Args(inner)
    case Related(_, _, _, join, where) => (if join.Some? then AllArgs(join.value.on) else []) + AllArgs(where)
  }

  function AllArgs(cs: seq<Clause>): seq<Value>
    requires AllWellFormed(cs)
    decreases cs, 0
  {
    if |cs| == 0 then [] else AllArgs(cs[..|cs| - 1]) + Args(cs[|cs| - 1])
  }

  // ---- the condition meant ----

  function Plain(c: Clause): Condition
    requires WellFormed(c)
    decreases c, 1
  {
    match c
    case Atom(test) => test
    case Group(connective, terms) => PlainJoined(connective, terms)
    case Inverse(inner) => Negation(Plain(inner))
    case Related(_, table, alias, join, where) => SubQuery(table, alias, PlainLink(join), PlainJoined(AND, where))
  }

  function PlainLink(join: Option<Link>): Option<JoinClause>
    requires join.Some? ==> |join.value.on| > 0 && AllWellFormed(join.value.on)
    decreases join, 0
  {
    match join
    case None => None
    case Some(link) => Some(JoinClause(link.table, link.alias, PlainJoined(AND, link.on)))
  }

  function PlainJoined(connective: Keyword, cs: seq<Clause>): Condition
    requires |cs| > 0 && AllWellFormed(cs)
    decreases cs, 0
  {
    if |cs| == 1 then Plain(cs[0])
    else
      var left := PlainJoined(connective, cs[..|cs| - 1]);
      var right := Plain(cs[|cs| - 1]);
      if connective == OR then Either(left, right) else Both(left, right)
  }

  // ---- reading an atom back ----

  lemma ColumnReads(column: ColumnRef, rest: seq<Token>, args: seq<Value>)
    requires !Starts(rest, Dot)
    ensures ParseColumn(ColumnText(column) + rest, args) == Got(column, rest, args)
  {
    var text := ColumnText(column) + rest;
    assert text[|ColumnText(column)|..] == rest;
  }

  lemma {:induction false} MarksReads(list: seq<Value>, rest: seq<Token>, more: seq<Value>)
    requires |list| > 0
    ensures ParseList(Marks(|list|) + [RParen] + rest, list + more) == Got(list, rest, more)
  {
    var text, args := Marks(|list|) + [RParen] + rest, list + more;
    MarksFront(|list|);
    assert args[0] == list[0] && args[1..] == list[1..] + more;
    assert list == [list[0]] + list[1..];
    if |list| == 1 {
      assert text[0] == Question && text[1] == RParen && text[2..] == rest;
      assert list == [list[0]] && args[1..] == more;
    } else {
      assert text[0] == Question && text[1] == Comma;
      assert text[2..] == Marks(|list| - 1) + [RParen] + rest;
      MarksReads(list[1..], rest, more);
    }
  }

  lemma {:induction false} MarksFront(n: nat)
    requires n > 0
    ensures Marks(n) == if n == 1 then [Question] else [Question, Comma] + Marks(n - 1)
  {
    if n > 1 {
      MarksFront(n - 1);
    }
  }

  lemma InReads(column: ColumnRef, list: seq<Value>, negated: bool, rest: seq<Token>, more: seq<Value>)
    requires |list| > 0
    ensures ParseTest(column, AtomTail(InList(column, list, negated)) + rest, list + more)
      == Got(InList(column, list, negated), rest, more)
  {
    var tail := AtomTail(InList(column, list, negated)) + rest;
    var marks := Marks(|list|) + [RParen] + rest;
    var open := tail[if negated then 2 else 1..];
    assert open == [LParen] + marks;
    assert open[1..] == marks;
    MarksReads(list, rest, more);
  }

  lemma NullReads(column: ColumnRef, negated: bool, rest: seq<Token>, more: seq<Value>)
    ensures ParseTest(column, AtomTail(NullTest(column, negated)) + rest, more)
      == Got(NullTest(column, negated), rest, more)
  {
    var tail := AtomTail(NullTest(column, negated)) + rest;
    assert tail[1..] == (if negated then [Word(NOT), Word(NULL)] else [Word(NULL)]) + rest;
    assert tail[1..][if negated then 2 else 1..] == rest;
  }

  lemma SameReads(column: ColumnRef, other: ColumnRef, rest: seq<Token>, more: seq<Value>)
    requires !Starts(rest, Dot)
    ensures ParseTest(column, AtomTail(SameColumn(column, other)) + rest, more)
      == Got(SameColumn(column, other), rest, more)
  {
    var tail := AtomTail(SameColumn(column, other)) + rest;
    assert tail[1..] == ColumnText(other) + rest;
    ColumnReads(other, rest, more);
  }

  lemma ValueReads(test: Condition, rest: seq<Token>, more: seq<Value>)
    requires test.Compare? || test.Range? || test.LikeTest?
    ensures ParseTest(test.column, AtomTail(test) + rest, AtomArgs(test) + more) == Got(test, rest, more)
  {
    var tail, args := AtomTail(test) + rest, AtomArgs(test) + more;
    var n := |AtomArgs(test)|;
    assert args[n..] == more && tail[1..] == AtomTail(test)[1..] + rest;
    assert tail[1..][|AtomTail(test)| - 1..] == rest;
  }

  lemma TestReads(test: Condition, rest: seq<Token>, more: seq<Value>)
    requires AtomicTest(test) && !test.Constant?
    requires !Starts(rest, Dot)
    ensures ParseTest(AtomColumn(test), AtomTail(test) + rest, AtomArgs(test) + more) == Got(test, rest, more)
  {
    assert |AtomArgs(test)| == 0 ==> AtomArgs(test) + more == more;
    match test
    case SameColumn(one, other) => SameReads(one, other, rest, more);
    case InList(column, list, negated) => InReads(column, list, negated, rest, more);
    case NullTest(column, negated) => NullReads(column, negated, rest, more);
    case _ => ValueReads(test, rest, more);
  }

  lemma FactorOfColumn(text: seq<Token>, args: seq<Value>)
    requires |text| > 0 && text[0].Ident?
    ensures ParseFactor(text, args) == match ParseColumn(text, args)
                                       case Bad => Bad
                                       case Got(column, rest, more) => ParseTest(column, rest, more)
  {
  }

  lemma AtomReads(test: Condition, rest: seq<Token>, more: seq<Value>)
    requires AtomicTest(test)
    requires !Starts(rest, Dot)
    ensures ParseFactor(AtomText(test) + rest, AtomArgs(test) + more) == Got(test, rest, more)
  {
    var text := AtomText(test) + rest;
    if test.Constant? {
      assert text[1..] == rest && AtomArgs(test) + more == more;
    } else {
      var column := AtomColumn(test);
      assert text == ColumnText(column) + (AtomTail(test) + rest);
      ColumnReads(column, AtomTail(test) + rest, AtomArgs(test) + more);
      FactorOfColumn(text, AtomArgs(test) + more);
      TestReads(test, rest, more);
    }
  }

  // ---- single steps of the parser ----

  /** The step that lets a run of ANDs grow to the right. */
  lemma AndStep(left: Condition, text: seq<Token>, args: seq<Value>, right: Condition, rest: seq<Token>,
    more: seq<Value>)
    requires ParseFactor(text, args) == Got(right, rest, more)
    ensures ParseAndTail(left, [Word(AND)] + text, args) == ParseAndTail(Both(left, right), rest, more)
  {
    assert ([Word(AND)] + text)[1..] == text;
  }

  lemma OrStep(left: Condition, text: seq<Token>, args: seq<Value>, right: Condition, rest: seq<Token>,
    more: seq<Value>)
    requires ParseFactor(text, args) == Got(right, rest, more)
    requires !StartsWord(rest, AND)
    ensures ParseOrTail(left, [Word(OR)] + text, args) == ParseOrTail(Either(left, right), rest, more)
  {
    assert ([Word(OR)] + text)[1..] == text;
    assert ParseAnd(text, args) == ParseAndTail(right, rest, more) == Got(right, rest, more);
  }

  lemma OrOfAnds(text: seq<Token>, args: seq<Value>, c: Condition, rest: seq<Token>, more: seq<Value>)
    requires ParseAnd(text, args) == ParseAndTail(c, rest, more)
    requires !StartsWord(rest, AND) && !StartsWord(rest, OR)
    ensures ParseOr(text, args) == Got(c, rest, more)
  {
  }

  lemma AndOfFactor(text: seq<Token>, args: seq<Value>, c: Condition, rest: seq<Token>, more: seq<Value>)
    requires ParseFactor(text, args) == Got(c, rest, more)
    ensures ParseAnd(text, args) == ParseAndTail(c, rest, more)
  {
  }

  lemma OrOfFactor(text: seq<Token>, args: seq<Value>, c: Condition, rest: seq<Token>, more: seq<Value>)
    requires ParseFactor(text, args) == Got(c, rest, more)
    requires !StartsWord(rest, AND)
    ensures ParseOr(text, args) == ParseOrTail(c, rest, more)
  {
    assert ParseAnd(text, args) == ParseAndTail(c, rest, more) == Got(c, rest, more);
  }

  lemma GroupOfOr(text: seq<Token>, args: seq<Value>, c: Condition, rest: seq<Token>, more: seq<Value>)
    requires ParseOr(text, args) == Got(c, [RParen] + rest, more)
    ensures ParseGroup(text, args) == Got(c, rest, more)
  {
    assert ([RParen] + rest)[1..] == rest;
  }

  lemma FactorOfGroup(text: seq<Token>, args: seq<Value>)
    ensures ParseFactor([LParen] + text, args) == ParseGroup(text, args)
  {
    assert ([LParen] + text)[1..] == text;
  }

  lemma FactorOfNot(text: seq<Token>, args: seq<Value>, inner: Condition, rest: seq<Token>, more: seq<Value>)
    requires ParseGroup(text, args) == Got(inner, rest, more)
    ensures ParseFactor([Word(NOT)] + ([LParen] + text), args) == Got(Negation(inner), rest, more)
  {
    FactorOfGroup(text, args);
    assert ([Word(NOT)] + ([LParen] + text))[1..] == [LParen] + text;
  }

  lemma FactorOfExists(text: seq<Token>, args: seq<Value>)
    ensures ParseFactor([Word(EXISTS)] + text, args) == ParseSubQuery(text, args)
  {
    hide ParseSubQuery, ParseGroup;
    assert ([Word(EXISTS)] + text)[1..] == text;
  }

  lemma Expected(prefix: seq<Token>, rest: seq<Token>)
    ensures Expect(prefix, prefix + rest) == Some(rest)
  {
    assert (prefix + rest)[|prefix|..] == rest;
  }

  lemma TableReads(table: string, alias: string, rest: seq<Token>)
    ensures ParseTable(TableText(table, alias) + rest) == Some(Source(table, alias, rest))
  {
    assert (TableText(table, alias) + rest)[3..] == rest;
  }

  lemma HeadReads(hints: seq<Token>, table: string, alias: string, rest: seq<Token>)
    requires |hints| <= 1 && (|hints| == 1 ==> hints[0].Hint?)
    ensures ParseHead([LParen, Word(SELECT)]
      + (hints + ([Literal("1"), Word(FROM)] + (TableText(table, alias) + rest))))
      == Some(Source(table, alias, rest))
  {
    var list := [Literal("1"), Word(FROM)] + (TableText(table, alias) + rest);
    Expected([LParen, Word(SELECT)], hints + list);
    if |hints| == 1 { assert (hints + list)[1..] == list; } else { assert hints + list == list; }
    Expected([Literal("1"), Word(FROM)], TableText(table, alias) + rest);
    TableReads(table, alias, rest);
  }

  lemma JoinHeadReads(table: string, alias: string, rest: seq<Token>)
    ensures ParseJoinHead([Word(JOIN)] + (TableText(table, alias) + ([Word(ON), LParen] + rest)))
      == Some(Source(table, alias, rest))
  {
    Expected([Word(JOIN)], TableText(table, alias) + ([Word(ON), LParen] + rest));
    TableReads(table, alias, [Word(ON), LParen] + rest);
    Expected([Word(ON), LParen], rest);
  }

  lemma SubQueryStep(
    text: seq<Token>, source: Source, args: seq<Value>,
    join: Option<JoinClause>, body: seq<Token>, bodyArgs: seq<Value>, where: Condition, rest: seq<Token>,
      more: seq<Value>)
    requires ParseHead(text) == Some(source)
    requires ParseJoin(source.rest, args) == Got(join, [Word(WHERE)] + body, bodyArgs)
    requires ParseGroup(body, bodyArgs) == Got(where, rest, more)
    ensures ParseSubQuery(text, args) == Got(SubQuery(source.table, source.alias, join, where), rest, more)
  {
    assert ([Word(WHERE)] + body)[1..] == body;
  }

  lemma JoinStep(text: seq<Token>, source: Source, args: seq<Value>, on: Condition, rest: seq<Token>, more: seq<Value>)
    requires StartsWord(text, JOIN) && ParseJoinHead(text) == Some(source)
    requires ParseGroup(source.rest, args) == Got(on, rest, more)
    ensures ParseJoin(text, args) == Got(Some(JoinClause(source.table, source.alias, on)), rest, more)
  {
  }

  // ---- reading a clause back ----

  lemma {:induction false} FactorReads(c: Clause, rest: seq<Token>, more: seq<Value>)
    requires WellFormed(c) && !Starts(rest, Dot)
    ensures ParseFactor(Print(c) + rest, Args(c) + more) == Got(Plain(c), rest, more)
    decreases c, 3
  {
    match c
    case Atom(test) => AtomReads(test, rest, more);
    case Group(connective, terms) =>
      var text := PrintJoined(connective, terms) + ([RParen] + rest);
      assert Print(c) + rest == [LParen] + text;
      FactorOfGroup(text, Args(c) + more);
      GroupReads(connective, terms, rest, more);
    case Inverse(inner) =>
      var text := Print(inner) + ([RParen] + rest);
      assert Print(c) + rest == [Word(NOT)] + ([LParen] + text);
      FactorReads(inner, [RParen] + rest, more);
      OrOfFactor(text, Args(c) + more, Plain(inner), [RParen] + rest, more);
      GroupOfOr(text, Args(c) + more, Plain(inner), rest, more);
      FactorOfNot(text, Args(c) + more, Plain(inner), rest, more);
    case Related(_, _, _, _, _) => RelatedReads(c, rest, more);
  }

  lemma {:induction false} GroupReads(connective: Keyword, cs: seq<Clause>, rest: seq<Token>, more: seq<Value>)
    requires connective == AND || connective == OR
    requires |cs| > 0 && AllWellFormed(cs)
    ensures ParseGroup(PrintJoined(connective, cs) + ([RParen] + rest), AllArgs(cs) + more)
      == Got(PlainJoined(connective, cs), rest, more)
    decreases cs, 1
  {
    hide PrintJoined, AllArgs, PlainJoined, Print, ParseFactor;
    var after := [RParen] + rest;
    var text, args := PrintJoined(connective, cs) + after, AllArgs(cs) + more;
    if connective == AND {
      AndReads(cs, after, more);
      OrOfAnds(text, args, PlainJoined(AND, cs), after, more);
    } else {
      OrReads(cs, after, more);
    }
    GroupOfOr(text, args, PlainJoined(connective, cs), rest, more);
  }

  /** How a run of clauses grows by its last one. */
  lemma JoinedGrows(connective: Keyword, cs: seq<Clause>, rest: seq<Token>, more: seq<Value>)
    requires |cs| > 0 && AllWellFormed(cs)
    ensures AllArgs(cs) + more == AllArgs(cs[..|cs| - 1]) + (Args(cs[|cs| - 1]) + more)
    ensures |cs| == 1 ==> PrintJoined(connective, cs) == Print(cs[0]) && AllArgs(cs) + more == Args(cs[0]) + more
    ensures |cs| > 1 ==>
      PrintJoined(connective, cs) + rest ==
      PrintJoined(connective, cs[..|cs| - 1]) + ([Word(connective)] + (Print(cs[|cs| - 1]) + rest))
  {
    hide PrintJoined, AllArgs, Print, Args;
    var n := |cs| - 1;
    LastOfJoined(connective, cs);
    Regroup(AllArgs(cs[..n]), Args(cs[n]), more);
    if n > 0 {
      var front, word, last := PrintJoined(connective, cs[..n]), [Word(connective)], Print(cs[n]);
      Regroup(front + word, last, rest);
      Regroup(front, word, last + rest);
    } else {
      assert [] + (Args(cs[0]) + more) == Args(cs[0]) + more;
    }
  }

  lemma LastOfJoined(connective: Keyword, cs: seq<Clause>)
    requires |cs| > 0 && AllWellFormed(cs)
    ensures var n := |cs| - 1;
      && AllArgs(cs) == AllArgs(cs[..n]) + Args(cs[n])
      && (n == 0 ==> PrintJoined(connective, cs) == Print(cs[0]) && AllArgs(cs[..n]) == [])
      && (n > 0 ==>
            PrintJoined(connective, cs) == PrintJoined(connective, cs[..n]) + [Word(connective)] + Print(cs[n]))
  {
    hide Print, Args;
  }

  lemma {:induction false} AndReads(cs: seq<Clause>, rest: seq<Token>, more: seq<Value>)
    requires |cs| > 0 && AllWellFormed(cs) && !Starts(rest, Dot)
    ensures ParseAnd(PrintJoined(AND, cs) + rest, AllArgs(cs) + more) == ParseAndTail(PlainJoined(AND, cs), rest, more)
    decreases cs, 0
  {
    hide ParseAnd, ParseAndTail, ParseFactor, PrintJoined, AllArgs, Print, Args, Plain;
    var n := |cs| - 1;
    var last, args := Print(cs[n]) + rest, Args(cs[n]) + more;
    JoinedGrows(AND, cs, rest, more);
    FactorReads(cs[n], rest, more);
    if n == 0 {
      AndOfFactor(last, args, Plain(cs[n]), rest, more);
    } else {
      AndReads(cs[..n], [Word(AND)] + last, args);
      AndStep(PlainJoined(AND, cs[..n]), last, args, Plain(cs[n]), rest, more);
    }
  }

  lemma {:induction false} OrReads(cs: seq<Clause>, rest: seq<Token>, more: seq<Value>)
    requires |cs| > 0 && AllWellFormed(cs) && !Starts(rest, Dot) && !StartsWord(rest, AND)
    ensures ParseOr(PrintJoined(OR, cs) + rest, AllArgs(cs) + more) == ParseOrTail(PlainJoined(OR, cs), rest, more)
    decreases cs, 0
  {
    hide ParseOr, ParseOrTail, ParseAnd, ParseAndTail, ParseFactor, PrintJoined, AllArgs, Print, Args, Plain;
    var n := |cs| - 1;
    JoinedGrows(OR, cs, rest, more);
    FactorReads(cs[n], rest, more);
    var last, args := Print(cs[n]) + rest, Args(cs[n]) + more;
    if n == 0 {
      OrOfFactor(last, args, Plain(cs[n]), rest, more);
    } else {
      OrReads(cs[..n], [Word(OR)] + last, args);
      OrStep(PlainJoined(OR, cs[..n]), last, args, Plain(cs[n]), rest, more);
    }
  }

  function LinkArgs(join: Option<Link>): seq<Value>
    requires join.Some? ==> AllWellFormed(join.value.on)
  {
    if join.Some? then AllArgs(join.value.on) else []
  }

  lemma {:induction false} RelatedReads(c: Clause, rest: seq<Token>, more: seq<Value>)
    requires WellFormed(c) && c.Related?
    ensures ParseFactor(Print(c) + rest, Args(c) + more) == Got(Plain(c), rest, more)
    decreases c, 2
  {
    hide PrintJoined, AllArgs, PlainJoined, PrintLink, PlainLink, ParseOr, ParseAnd;
    var body := PrintJoined(AND, c.where) + ([RParen] + rest);
    var args := AllArgs(c.where) + more;
    GroupReads(AND, c.where, rest, more);
    LinkReads(c.join, [Word(WHERE)] + body, args);
    var after := PrintLink(c.join) + ([Word(WHERE)] + body);
    assert Args(c) + more == LinkArgs(c.join) + args;
    var tail := [LParen, Word(SELECT)]
      + (c.hints + ([Literal("1"), Word(FROM)] + (TableText(c.table, c.alias) + after)));
    HeadReads(c.hints, c.table, c.alias, after);
    SubQueryStep(tail, Source(c.table, c.alias, after), Args(c) + more,
      PlainLink(c.join), body, args, PlainJoined(AND, c.where), rest, more);
    FactorOfExists(tail, Args(c) + more);
    RelatedText(c, rest);
    HeadText(c.hints, c.table, c.alias, after);
  }

  lemma Regroup<T>(a: seq<T>, b: seq<T>, c: seq<T>)
    ensures (a + b) + c == a + (b + c)
  {
  }

  lemma HeadText(hints: seq<Token>, table: string, alias: string, rest: seq<Token>)
    ensures RelatedHead(hints, table, alias) + rest ==
      [Word(EXISTS)] + ([LParen, Word(SELECT)]
        + (hints + ([Literal("1"), Word(FROM)] + (TableText(table, alias) + rest))))
  {
    var a := [Literal("1"), Word(FROM)] + TableText(table, alias);
    Regroup([Word(EXISTS)], [LParen, Word(SELECT)] + (hints + a), rest);
    Regroup([LParen, Word(SELECT)], hints + a, rest);
    Regroup(hints, a, rest);
    Regroup([Literal("1"), Word(FROM)], TableText(table, alias), rest);
  }

  lemma RelatedText(c: Clause, rest: seq<Token>)
    requires WellFormed(c) && c.Related?
    ensures Print(c) + rest == RelatedHead(c.hints, c.table, c.alias) +
      (PrintLink(c.join) + ([Word(WHERE)] + (PrintJoined(AND, c.where) + ([RParen] + rest))))
  {
    var w := PrintJoined(AND, c.where) + [RParen];
    Regroup(RelatedHead(c.hints, c.table, c.alias), PrintLink(c.join) + ([Word(WHERE)] + w), rest);
    Regroup(PrintLink(c.join), [Word(WHERE)] + w, rest);
    Regroup([Word(WHERE)], w, rest);
    Regroup(PrintJoined(AND, c.where), [RParen], rest);
  }

  lemma {:induction false} LinkReads(join: Option<Link>, rest: seq<Token>, more: seq<Value>)
    requires join.Some? ==> |join.value.on| > 0 && AllWellFormed(join.value.on)
    requires !StartsWord(rest, JOIN)
    ensures ParseJoin(PrintLink(join) + rest, LinkArgs(join) + more) == Got(PlainLink(join), rest, more)
    decreases join, 0
  {
    match join
    case None => assert PrintLink(join) + rest == rest && LinkArgs(join) + more == more;
    case Some(link) =>
      GroupReads(AND, link.on, rest, more);
      var after := PrintJoined(AND, link.on) + ([RParen] + rest);
      var text := [Word(JOIN)] + (TableText(link.table, link.alias) + ([Word(ON), LParen] + after));
      JoinHeadReads(link.table, link.alias, after);
      JoinStep(text, Source(link.table, link.alias, after), LinkArgs(join)
        + more, PlainJoined(AND, link.on), rest, more);
      LinkText(link, rest);
  }

  lemma LinkText(link: Link, rest: seq<Token>)
    requires |link.on| > 0 && AllWellFormed(link.on)
    ensures PrintLink(Some(link)) + rest ==
      [Word(JOIN)] + (TableText(link.table, link.alias)
        + ([Word(ON), LParen] + (PrintJoined(AND, link.on) + ([RParen] + rest))))
  {
  }

  /** Reading back the text of a clause gives the condition it stands for, and the i-th placeholder
      of the text has been bound to the i-th appended argument, with none left over. */
  lemma TextMeansClause(c: Clause)
    requires WellFormed(c)
    ensures ParseOr(Print(c), Args(c)) == Got(Plain(c), [], [])
  {
    FactorReads(c, [], []);
    assert Print(c) + [] == Print(c) && Args(c) + [] == Args(c);
    OrOfFactor(Print(c), Args(c), Plain(c), [], []);
  }

  /** The same for a WHERE clause: clauses joined by AND without outer parentheses. */
  lemma JoinedTextMeansClauses(cs: seq<Clause>, rest: seq<Token>, more: seq<Value>)
    requires |cs| > 0 && AllWellFormed(cs)
    requires !Starts(rest, Dot) && !StartsWord(rest, AND) && !StartsWord(rest, OR)
    ensures ParseOr(PrintJoined(AND, cs) + rest, AllArgs(cs) + more) == Got(PlainJoined(AND, cs), rest, more)
  {
    AndReads(cs, rest, more);
    OrOfAnds(PrintJoined(AND, cs) + rest, AllArgs(cs) + more, PlainJoined(AND, cs), rest, more);
  }

  // ---- runs of clauses as they are written, left to right ----

  /** A run as it is written after a prefix that may already end in a clause. */
  function RunText(connective: Keyword, continued: bool, cs: seq<Clause>): seq<Token>
    requires AllWellFormed(cs)
  {
    if |cs| == 0 then [] else if continued then [Word(connective)] + PrintJoined(connective, cs)
    else PrintJoined(connective, cs)
  }

  function Separator(connective: Keyword, needed: bool): seq<Token> {
    if needed then [Word(connective)] else []
  }

  lemma JoinGrows(connective: Keyword, cs: seq<Clause>, c: Clause)
    requires AllWellFormed(cs) && WellFormed(c)
    ensures AllWellFormed(cs + [c])
    ensures PrintJoined(connective, cs + [c])
      == PrintJoined(connective, cs) + (Separator(connective, |cs| > 0) + Print(c))
  {
    assert (cs + [c])[..|cs|] == cs;
  }

  lemma RunGrows(connective: Keyword, continued: bool, cs: seq<Clause>, c: Clause)
    requires AllWellFormed(cs) && WellFormed(c)
    ensures AllWellFormed(cs + [c])
    ensures RunText(connective, continued, cs + [c]) ==
      RunText(connective, continued, cs) + (Separator(connective, continued || |cs| > 0) + Print(c))
  {
    JoinGrows(connective, cs, c);
    if continued && |cs| > 0 {
      Regroup([Word(connective)], PrintJoined(connective, cs), Separator(connective, true) + Print(c));
    }
  }

  lemma ArgsGrow(cs: seq<Clause>, c: Clause)
    requires AllWellFormed(cs) && WellFormed(c)
    ensures AllWellFormed(cs + [c]) && AllArgs(cs + [c]) == AllArgs(cs) + Args(c)
  {
    assert (cs + [c])[..|cs|] == cs;
  }

  /** A run that continues another one reads as one run. */
  lemma {:induction false} RunJoins(connective: Keyword, a: seq<Clause>, b: seq<Clause>)
    requires |a| > 0 && AllWellFormed(a) && AllWellFormed(b)
    ensures AllWellFormed(a + b)
    ensures PrintJoined(connective, a + b) == PrintJoined(connective, a) + RunText(connective, true, b)
  {
    if |b| == 0 {
      assert a + b == a;
    } else {
      var front, c := b[..|b| - 1], b[|b| - 1];
      assert a + b == (a + front) + [c] && b == front + [c];
      RunJoins(connective, a, front);
      JoinGrows(connective, a + front, c);
      RunGrows(connective, true, front, c);
      Regroup(PrintJoined(connective, a), RunText(connective, true, front), Separator(connective, true) + Print(c));
    }
  }

  lemma {:induction false} ArgsAppend(a: seq<Clause>, b: seq<Clause>)
    requires AllWellFormed(a) && AllWellFormed(b)
    ensures AllWellFormed(a + b) && AllArgs(a + b) == AllArgs(a) + AllArgs(b)
  {
    if |b| == 0 {
      assert a + b == a;
    } else {
      assert (a + b)[..|a + b| - 1] == a + b[..|b| - 1];
      ArgsAppend(a, b[..|b| - 1]);
    }
  }

  /** An EXISTS up to, but without, its closing parenthesis. */
  function ShellText(c: Clause): seq<Token>
    requires WellFormed(c) && c.Related?
  {
    RelatedHead(c.hints, c.table, c.alias) + (PrintLink(c.join) + ([Word(WHERE)] + PrintJoined(AND, c.where)))
  }

  lemma Nest(h: seq<Token>, l: seq<Token>, k: seq<Token>, w: seq<Token>, run: seq<Token>)
    ensures h + (l + (k + (w + run))) == (h + (l + (k + w))) + run
  {
    Regroup(k, w, run);
    Regroup(l, k + w, run);
    Regroup(h, l + (k + w), run);
  }

  lemma ShellCloses(c: Clause)
    requires WellFormed(c) && c.Related?
    ensures Print(c) == ShellText(c) + [RParen]
  {
    Nest(RelatedHead(c.hints, c.table, c.alias), PrintLink(c.join), [Word(WHERE)], PrintJoined(AND, c.where), [RParen]);
  }

  lemma ShellTextGrows(shell: Clause, more: seq<Clause>)
    requires WellFormed(shell) && shell.Related? && AllWellFormed(more)
    ensures AllWellFormed(shell.where + more)
    ensures RelatedHead(shell.hints, shell.table, shell.alias)
      + (PrintLink(shell.join) + ([Word(WHERE)] + PrintJoined(AND, shell.where + more)))
      == ShellText(shell) + RunText(AND, true, more)
  {
    RunJoins(AND, shell.where, more);
    Nest(RelatedHead(shell.hints, shell.table, shell.alias), PrintLink(shell.join), [Word(WHERE)],
      PrintJoined(AND, shell.where), RunText(AND, true, more));
  }

  lemma ShellArgsGrow(shell: Clause, more: seq<Clause>)
    requires WellFormed(shell) && shell.Related? && AllWellFormed(more)
    ensures WellFormed(shell.(where := shell.where + more))
    ensures Args(shell.(where := shell.where + more)) == Args(shell) + AllArgs(more)
  {
    hide AllArgs;
    ArgsAppend(shell.where, more);
    Regroup(LinkArgs(shell.join), AllArgs(shell.where), AllArgs(more));
  }

  /** More conditions at the end of an EXISTS. */
  lemma ShellGrows(shell: Clause, more: seq<Clause>)
    requires WellFormed(shell) && shell.Related? && AllWellFormed(more)
    ensures WellFormed(shell.(where := shell.where + more))
    ensures ShellText(shell.(where := shell.where + more)) == ShellText(shell) + RunText(AND, true, more)
    ensures Args(shell.(where := shell.where + more)) == Args(shell) + AllArgs(more)
  {
    ShellTextGrows(shell, more);
    ShellArgsGrow(shell, more);
  }
}
