/** Reading the column lists of a statement: SELECT and ORDER BY. */
module StatementLists {
  import opened SqlText

  datatype Listed<+T> = NoList | Listed(items: seq<T>, rest: seq<Token>)

  datatype OrderedColumn = OrderedColumn(column: ColumnRef, descending: bool)

  function ParseColumns(text: seq<Token>): (r: Listed<ColumnRef>)
    ensures r.Listed? ==> |r.rest| < |text|
    decreases |text|
  {
    match ParseColumn(text, [])
    case Bad => NoList
    case Got(column, rest, _) =>
      if !Starts(rest, Comma) then Listed([column], rest)
      else
        match ParseColumns(rest[1..])
        case NoList => NoList
        case Listed(more, after) => Listed([column] + more, after)
  }

  function ParseOrder(text: seq<Token>): (r: Listed<OrderedColumn>)
    ensures r.Listed? ==> |r.rest| < |text|
    decreases |text|
  {
    match ParseColumn(text, [])
    case Bad => NoList
    case Got(column, rest, _) =>
      if !StartsWord(rest, ASC) && !StartsWord(rest, DESC) then NoList
      else
        var one := OrderedColumn(column, StartsWord(rest, DESC));
        if !Starts(rest[1..], Comma) then Listed([one], rest[1..])
        else
          match ParseOrder(rest[2..])
          case NoList => NoList
          case Listed(more, after) => Listed([one] + more, after)
  }

  function Refs(alias: string, columns: seq<string>): (refs: seq<ColumnRef>)
    ensures |refs| == |columns|
  {
    seq(|columns|, i requires 0 <= i < |columns| => ColumnRef(alias, columns[i]))
  }
}
