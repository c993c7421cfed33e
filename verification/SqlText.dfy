/** Search conditions as text: the tokens a statement consists of, a parser with SQL precedence
    (OR below AND below NOT) that binds each `?` to the next argument as it reads it,
    and the three-valued meaning of what it parsed. */
module SqlText {
  import opened SqlValues
  import opened LikePattern

  datatype Token =
    | Ident(name: string)          // a back-quoted identifier
    | Word(keyword: Keyword)
    | Op(comparison: Comparison)
    | Question | Dot | Comma | LParen | RParen
    | Literal(text: string)
    | Hint(name: string)           // an optimizer-hint comment

  datatype Keyword =
    | AND | OR | NOT | IS | NULL | IN | BETWEEN | LIKE | ESC | TRUE | FALSE
    | EXISTS | SELECT | FROM | AS | JOIN | ON | WHERE | ORDER | BY | ASC | DESC | LIMIT | OFFSET

  datatype Comparison = Equal | NotEqual | Greater | GreaterOrEqual | Lesser | LesserOrEqual

  /** A column reference; an empty qualifier is an unqualified name. */
  datatype ColumnRef = ColumnRef(qualifier: string, name: string)

  datatype JoinClause = JoinClause(table: string, alias: string, on: Condition)

  datatype Condition =
    | Constant(value: bool)
    | Compare(column: ColumnRef, op: Comparison, bound: Value)
    | SameColumn(one: ColumnRef, other: ColumnRef)
    | NullTest(column: ColumnRef, negated: bool)
    | InList(column: ColumnRef, list: seq<Value>, negated: bool)
    | Range(column: ColumnRef, low: Value, high: Value)
    | LikeTest(column: ColumnRef, pattern: Value)
    | SubQuery(table: string, alias: string, join: Option<JoinClause>, where: Condition)
    | Both(left: Condition, right: Condition)
    | Either(left: Condition, right: Condition)
    | Negation(inner: Condition)

  // ---- meaning ----

  /** The rows in scope by alias. The empty alias, when present, answers unqualified names. */
  type Scope = map<string, Row>

  function Lookup(scope: Scope, column: ColumnRef): Option<Value> {
    if column.qualifier in scope then Column(scope[column.qualifier], column.name) else None
  }

  /** Inside a subquery only its own and the enclosing aliases resolve, and names need a qualifier. */
  function Enter(scope: Scope, alias: string, row: Row): Scope {
    (scope - {""})[alias := row]
  }

  function CompareValues(op: Comparison, a: Value, b: Value): bool {
    match op
    case Equal => a == b
    case NotEqual => a != b
    case Greater => Less(b, a)
    case GreaterOrEqual => !Less(a, b)
    case Lesser => Less(a, b)
    case LesserOrEqual => !Less(b, a)
  }

  function CompareTruth(op: Comparison, cell: Option<Value>, bound: Value): Truth {
    if cell == None then Unknown else Known(CompareValues(op, cell.value, bound))
  }

  function SameTruth(a: Option<Value>, b: Option<Value>): Truth {
    if a == None || b == None then Unknown else Known(a.value == b.value)
  }

  function NullTruth(cell: Option<Value>, negated: bool): Truth {
    Known((cell == None) != negated)
  }

  function InTruth(cell: Option<Value>, list: seq<Value>, negated: bool): Truth {
    if cell == None then Unknown else Known((cell.value in list) != negated)
  }

  function RangeTruth(cell: Option<Value>, low: Value, high: Value): Truth {
    And3(CompareTruth(GreaterOrEqual, cell, low), CompareTruth(LesserOrEqual, cell, high))
  }

  function PatternTruth(cell: Option<Value>, pattern: Value): Truth {
    if cell == None then Unknown
    else Known(cell.value.Str? && pattern.Str? && Like(pattern.text, cell.value.text))
  }

  /** The truth of a test that has no parts. */
  function TestTruth(c: Condition, scope: Scope): Truth {
    match c
    case Constant(value) => Known(value)
    case Compare(column, op, bound) => CompareTruth(op, Lookup(scope, column), bound)
    case SameColumn(one, other) => SameTruth(Lookup(scope, one), Lookup(scope, other))
    case NullTest(column, negated) => NullTruth(Lookup(scope, column), negated)
    case InList(column, list, negated) => InTruth(Lookup(scope, column), list, negated)
    case Range(column, low, high) => RangeTruth(Lookup(scope, column), low, high)
    case LikeTest(column, pattern) => PatternTruth(Lookup(scope, column), pattern)
    case _ => Unknown
  }

  ghost function Eval(c: Condition, scope: Scope, db: Database): Truth
    decreases c, 2
  {
    match c
    case SubQuery(_, _, _, _) => Known(SelectsAny(c, scope, db))
    case Both(left, right) => And3(Eval(left, scope, db), Eval(right, scope, db))
    case Either(left, right) => Or3(Eval(left, scope, db), Eval(right, scope, db))
    case Negation(inner) => Not3(Eval(inner, scope, db))
    case _ => TestTruth(c, scope)
  }

  lemma PairMeaning(left: Condition, right: Condition, scope: Scope, db: Database)
    ensures Eval(Both(left, right), scope, db) == And3(Eval(left, scope, db), Eval(right, scope, db))
    ensures Eval(Either(left, right), scope, db) == Or3(Eval(left, scope, db), Eval(right, scope, db))
  {
    hide SelectsAny, TestTruth, And3, Or3;
  }

  ghost predicate SelectsAny(c: Condition, scope: Scope, db: Database)
    requires c.SubQuery?
    decreases c, 1
  {
    exists row <- Rows(db, c.table) :: Selects(c, row, scope, db)
  }

  /** Whether a subquery keeps a row of its first table, with some row of the joined table if any. */
  ghost predicate Selects(c: Condition, row: Row, scope: Scope, db: Database)
    requires c.SubQuery?
    decreases c, 0
  {
    var inner := Enter(scope, c.alias, row);
    match c.join
    case None => Eval(c.where, inner, db) == True
    case Some(join) =>
      exists other <- Rows(db, join.table) ::
        Eval(join.on, Enter(inner, join.alias, other), db) == True &&
        Eval(c.where, Enter(inner, join.alias, other), db) == True
  }

  // ---- parsing ----

  /** The result of reading a construct: what was read, the tokens and the arguments left over. */
  datatype Parsed<+T> = Bad | Got(item: T, rest: seq<Token>, more: seq<Value>)

  predicate Starts(text: seq<Token>, token: Token) {
    |text| > 0 && text[0] == token
  }

  predicate StartsWord(text: seq<Token>, keyword: Keyword) {
    Starts(text, Word(keyword))
  }

  function ParseColumn(text: seq<Token>, args: seq<Value>): (r: Parsed<ColumnRef>)
    ensures r.Got? ==> |r.rest| < |text| && r.more == args
  {
    if |text| >= 3 && text[0].Ident? && text[1] == Dot && text[2].Ident? then
      Got(ColumnRef(text[0].name, text[2].name), text[3..], args)
    else if |text| >= 1 && text[0].Ident? then Got(ColumnRef("", text[0].name), text[1..], args)
    else Bad
  }

  /** `?` after `?`, separated by commas and closed by a parenthesis. */
  function ParseList(text: seq<Token>, args: seq<Value>): (r: Parsed<seq<Value>>)
    ensures r.Got? ==> |r.rest| < |text|
  {
    if |text| < 2 || text[0] != Question || |args| == 0 then Bad
    else if text[1] == RParen then Got([args[0]], text[2..], args[1..])
    else if text[1] == Comma then
      match ParseList(text[2..], args[1..])
      case Bad => Bad
      case Got(values, rest, more) => Got([args[0]] + values, rest, more)
    else Bad
  }

  /** The test that follows a column reference, told apart by its first token. */
  function ParseTest(column: ColumnRef, text: seq<Token>, args: seq<Value>): (r: Parsed<Condition>)
    ensures r.Got? ==> |r.rest| < |text|
  {
    if |text| < 2 then Bad
    else if text[0].Op? then ParseComparison(column, text[0].comparison, text[1..], args)
    else if text[0] == Word(IS) then ParseNullTest(column, text[1..], args)
    else if text[0] == Word(IN) then ParseIn(column, false, text[1..], args)
    else if text[0] == Word(NOT) && text[1] == Word(IN) then ParseIn(column, true, text[2..], args)
    else if text[0] == Word(BETWEEN) then ParseRange(column, text[1..], args)
    else if text[0] == Word(LIKE) then ParseLike(column, text[1..], args)
    else Bad
  }

  function ParseComparison(column: ColumnRef, op: Comparison, text: seq<Token>,
    args: seq<Value>): (r: Parsed<Condition>)
    ensures r.Got? ==> |r.rest| < |text|
  {
    if Starts(text, Question) then
      if |args| > 0 then Got(Compare(column, op, args[0]), text[1..], args[1..]) else Bad
    else if op == Equal then
      match ParseColumn(text, args)
      case Bad => Bad
      case Got(other, rest, more) => Got(SameColumn(column, other), rest, more)
    else Bad
  }

  function ParseNullTest(column: ColumnRef, text: seq<Token>, args: seq<Value>): (r: Parsed<Condition>)
    ensures r.Got? ==> |r.rest| < |text|
  {
    if StartsWord(text, NULL) then Got(NullTest(column, false), text[1..], args)
    else if |text| >= 2 && text[0] == Word(NOT) && text[1] == Word(NULL) then Got(NullTest(column, true), text[2..],
      args)
    else Bad
  }

  function ParseIn(column: ColumnRef, negated: bool, text: seq<Token>, args: seq<Value>): (r: Parsed<Condition>)
    ensures r.Got? ==> |r.rest| < |text|
  {
    if !Starts(text, LParen) then Bad else
    match ParseList(text[1..], args)
    case Bad => Bad
    case Got(list, rest, more) => Got(InList(column, list, negated), rest, more)
  }

  function ParseRange(column: ColumnRef, text: seq<Token>, args: seq<Value>): (r: Parsed<Condition>)
    ensures r.Got? ==> |r.rest| < |text|
  {
    if |text| >= 3 && text[0] == Question && text[1] == Word(AND) && text[2] == Question && |args| >= 2 then
      Got(Range(column, args[0], args[1]), text[3..], args[2..])
    else Bad
  }

  function ParseLike(column: ColumnRef, text: seq<Token>, args: seq<Value>): (r: Parsed<Condition>)
    ensures r.Got? ==> |r.rest| < |text|
  {
    if |text| >= 3 && text[0] == Question && text[1] == Word(ESC) && text[2] == Literal([ESCAPE]) && |args| >= 1 then
      Got(LikeTest(column, args[0]), text[3..], args[1..])
    else Bad
  }

  function ParseOr(text: seq<Token>, args: seq<Value>): (r: Parsed<Condition>)
    ensures r.Got? ==> |r.rest| < |text|
    decreases |text|, 5
  {
    match ParseAnd(text, args)
    case Bad => Bad
    case Got(left, rest, more) => ParseOrTail(left, rest, more)
  }

  function ParseOrTail(left: Condition, text: seq<Token>, args: seq<Value>): (r: Parsed<Condition>)
    ensures r.Got? ==> |r.rest| <= |text|
    decreases |text|, 4
  {
    if !StartsWord(text, OR) then Got(left, text, args) else
    match ParseAnd(text[1..], args)
    case Bad => Bad
    case Got(right, rest, more) => ParseOrTail(Either(left, right), rest, more)
  }

  function ParseAnd(text: seq<Token>, args: seq<Value>): (r: Parsed<Condition>)
    ensures r.Got? ==> |r.rest| < |text|
    decreases |text|, 3
  {
    match ParseFactor(text, args)
    case Bad => Bad
    case Got(left, rest, more) => ParseAndTail(left, rest, more)
  }

  function ParseAndTail(left: Condition, text: seq<Token>, args: seq<Value>): (r: Parsed<Condition>)
    ensures r.Got? ==> |r.rest| <= |text|
    decreases |text|, 2
  {
    if !StartsWord(text, AND) then Got(left, text, args) else
    match ParseFactor(text[1..], args)
    case Bad => Bad
    case Got(right, rest, more) => ParseAndTail(Both(left, right), rest, more)
  }

  function ParseFactor(text: seq<Token>, args: seq<Value>): (r: Parsed<Condition>)
    ensures r.Got? ==> |r.rest| < |text|
    decreases |text|, 1
  {
    if StartsWord(text, NOT) then
      match ParseFactor(text[1..], args)
      case Bad => Bad
      case Got(inner, rest, more) => Got(Negation(inner), rest, more)
    else if StartsWord(text, TRUE) then Got(Constant(true), text[1..], args)
    else if StartsWord(text, FALSE) then Got(Constant(false), text[1..], args)
    else if Starts(text, LParen) then ParseGroup(text[1..], args)
    else if StartsWord(text, EXISTS) then ParseSubQuery(text[1..], args)
    else
      match ParseColumn(text, args)
      case Bad => Bad
      case Got(column, rest, more) => ParseTest(column, rest, more)
  }

  /** A condition up to and including its closing parenthesis. */
  function ParseGroup(text: seq<Token>, args: seq<Value>): (r: Parsed<Condition>)
    ensures r.Got? ==> |r.rest| < |text|
    decreases |text|, 6
  {
    match ParseOr(text, args)
    case Bad => Bad
    case Got(inner, rest, more) => if Starts(rest, RParen) then Got(inner, rest[1..], more) else Bad
  }

  datatype Source = Source(table: string, alias: string, rest: seq<Token>)

  /** `table` AS `alias` */
  function ParseTable(text: seq<Token>): (r: Option<Source>)
    ensures r.Some? ==> |r.value.rest| < |text|
  {
    if |text| >= 3 && text[0].Ident? && text[1] == Word(AS) && text[2].Ident? then
      Some(Source(text[0].name, text[2].name, text[3..]))
    else None
  }

  function SkipHint(text: seq<Token>): (r: seq<Token>)
    ensures |r| <= |text|
  {
    if |text| > 0 && text[0].Hint? then text[1..] else text
  }

  /** The tokens of `text` after `prefix`, if it starts so. */
  function Expect(prefix: seq<Token>, text: seq<Token>): (r: Option<seq<Token>>)
    ensures r.Some? ==> |r.value| == |text| - |prefix|
  {
    if |prefix| <= |text| && text[..|prefix|] == prefix then Some(text[|prefix|..]) else None
  }

  /** `(SELECT` hint `1 FROM` table AS alias */
  function ParseHead(text: seq<Token>): (r: Option<Source>)
    ensures r.Some? ==> |r.value.rest| < |text|
  {
    match Expect([LParen, Word(SELECT)], text)
    case None => None
    case Some(rest) =>
      match Expect([Literal("1"), Word(FROM)], SkipHint(rest))
      case None => None
      case Some(rest') => ParseTable(rest')
  }

  /** JOIN table AS alias `ON (` */
  function ParseJoinHead(text: seq<Token>): (r: Option<Source>)
    ensures r.Some? ==> |r.value.rest| < |text|
  {
    match Expect([Word(JOIN)], text)
    case None => None
    case Some(rest) =>
      match ParseTable(rest)
      case None => None
      case Some(source) =>
        match Expect([Word(ON), LParen], source.rest)
        case None => None
        case Some(rest') => Some(source.(rest := rest'))
  }

  /** What follows EXISTS. */
  function ParseSubQuery(text: seq<Token>, args: seq<Value>): (r: Parsed<Condition>)
    ensures r.Got? ==> |r.rest| < |text|
    decreases |text|, 7
  {
    match ParseHead(text)
    case None => Bad
    case Some(source) =>
      match ParseJoin(source.rest, args)
      case Bad => Bad
      case Got(join, rest, more) =>
        if !StartsWord(rest, WHERE) then Bad else
        match ParseGroup(rest[1..], more)
        case Bad => Bad
        case Got(where, rest', more') => Got(SubQuery(source.table, source.alias, join, where), rest', more')
  }

  function ParseJoin(text: seq<Token>, args: seq<Value>): (r: Parsed<Option<JoinClause>>)
    ensures r.Got? ==> |r.rest| <= |text|
    decreases |text|, 8
  {
    if !StartsWord(text, JOIN) then Got(None, text, args) else
    match ParseJoinHead(text)
    case None => Bad
    case Some(source) =>
      match ParseGroup(source.rest, args)
      case Bad => Bad
      case Got(on, rest, more) => Got(Some(JoinClause(source.table, source.alias, on)), rest, more)
  }
}
