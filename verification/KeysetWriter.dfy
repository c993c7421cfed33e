/** The seek compiler as the object the source has: it appends one level after another to its query
    and its arguments. */
module KeysetWriter {
  import opened SqlValues
  import opened SqlText
  import opened SqlClause
  import opened Schema
  import opened PredicateMeaning
  import opened Keyset

  class KeysetCompiler {
    const descriptor: Descriptor
    const orderBy: seq<OrderTerm>
    const cursor: seq<CursorValue>
    const qualifier: string
    var query: seq<Token>
    var arguments: seq<Value>

    constructor (
      descriptor: Descriptor, orderBy: seq<OrderTerm>, cursor: seq<CursorValue>, qualifier: string,
      query: seq<Token>, arguments: seq<Value>)
      ensures this.descriptor == descriptor && this.orderBy == orderBy && this.cursor == cursor
      ensures this.qualifier == qualifier && this.query == query && this.arguments == arguments
    {
      this.descriptor, this.orderBy, this.cursor, this.qualifier := descriptor, orderBy, cursor, qualifier;
      this.query, this.arguments := query, arguments;
    }

    ghost predicate CanWrite(index: nat) {
      Ready(descriptor, orderBy, cursor) && index < |orderBy|
    }

    ghost function At(index: nat): (c: Clause)
      requires CanWrite(index)
      ensures WellFormed(c)
    {
      Level(descriptor, orderBy, cursor, qualifier, index)
    }

    method WriteLevel(index: nat)
      requires CanWrite(index)
      modifies this
      ensures query == old(query) + Print(At(index)) && arguments == old(arguments) + Args(At(index))
      decreases |orderBy| - index, 1
    {
      var field := FieldAt(descriptor, orderBy, index);
      var last := index + 1 == |cursor|;
      query := query + [LParen];
      if cursor[index].isNull {
        WriteNullLevel(field, index, last);
      } else {
        WriteValueLevel(field, cursor[index].value.value, index, last);
      }
      query := query + [RParen];
      var inside := PrintJoined(At(index).connective, At(index).terms);
      Regroup(old(query), [LParen], inside);
      Regroup(old(query), [LParen] + inside, [RParen]);
    }

    method WriteNullLevel(field: Field, index: nat, last: bool)
      requires CanWrite(index) && field == FieldAt(descriptor, orderBy, index) && last == (index + 1 == |cursor|)
      requires cursor[index].isNull
      modifies this
      ensures query == old(query) + PrintJoined(At(index).connective, At(index).terms)
      ensures arguments == old(arguments) + Args(At(index))
      decreases |orderBy| - index, 0
    {
      hide Print, Args, PrintJoined, ColumnText;
      var column := ColumnRef(qualifier, field.column);
      var isNull, notNull := NullTest(column, false), NullTest(column, true);
      if orderBy[index].direction == Ascending {
        query := query + (ColumnText(column) + [Word(IS), Word(NOT), Word(NULL)]);
        One(OR, Atom(notNull));
        AtomShape(notNull);
        if !last {
          query := query + [Word(OR), LParen] + (ColumnText(column) + [Word(IS), Word(NULL)]) + [Word(AND)];
          WriteLevel(index + 1);
          query := query + [RParen];
          BranchWritten(old(query), old(arguments), Atom(notNull), isNull, At(index + 1));
        }
      } else if last {
        query := query + [Word(FALSE)];
        One(OR, Atom(Constant(false)));
        AtomShape(Constant(false));
      } else {
        query := query + (ColumnText(column) + [Word(IS), Word(NULL)]) + [Word(AND)];
        WriteLevel(index + 1);
        SameThenNext(old(query), old(arguments), isNull, At(index + 1));
      }
    }

    method WriteValueLevel(field: Field, value: Value, index: nat, last: bool)
      requires CanWrite(index) && field == FieldAt(descriptor, orderBy, index) && last == (index + 1 == |cursor|)
      requires !cursor[index].isNull && cursor[index].value == Bound(value)
      modifies this
      ensures query == old(query) + PrintJoined(At(index).connective, At(index).terms)
      ensures arguments == old(arguments) + Args(At(index))
      decreases |orderBy| - index, 0
    {
      hide Print, Args;
      var column := ColumnRef(qualifier, field.column);
      var direction := orderBy[index].direction;
      var head := ValueHead(field, direction, value, qualifier);
      WriteHead(field, direction, value);
      One(OR, head);
      if last {
        return;
      }
      query := query + [Word(OR), LParen] + (ColumnText(column) + [Op(Equal), Question]) + [Word(AND)];
      arguments := arguments + [value];
      WriteLevel(index + 1);
      query := query + [RParen];
      BranchWritten(old(query), old(arguments), head, Compare(column, Equal, value), At(index + 1));
    }

    method WriteHead(field: Field, direction: Direction, value: Value)
      requires direction != UnknownDirection
      modifies this
      ensures query == old(query) + Print(ValueHead(field, direction, value, qualifier))
      ensures arguments == old(arguments) + Args(ValueHead(field, direction, value, qualifier))
    {
      var column := ColumnRef(qualifier, field.column);
      var less, isNull := Compare(column, Lesser, value), NullTest(column, false);
      Two(OR, Atom(less), Atom(isNull));
      if direction == Descending && CursorFieldCanBeNull(field) {
        query := query + ([LParen] + ((ColumnText(column) + [Op(Lesser), Question]) +
        ([Word(OR)] + (ColumnText(column) + [Word(IS), Word(NULL)]))) + [RParen]);
      } else {
        query := query + (ColumnText(column) + [Op(if direction == Ascending then Greater else Lesser), Question]);
      }
      arguments := arguments + [value];
    }
  }

  lemma AtomShape(test: Condition)
    requires AtomicTest(test)
    ensures Print(Atom(test)) == AtomText(test) && Args(Atom(test)) == AtomArgs(test)
  {
  }

  lemma One(connective: Keyword, c: Clause)
    requires WellFormed(c) && (connective == AND || connective == OR)
    ensures PrintJoined(connective, [c]) == Print(c) && Args(Group(connective, [c])) == Args(c)
  {
    PairArgs(c, c);
  }

  lemma Two(connective: Keyword, a: Clause, b: Clause)
    requires WellFormed(a) && WellFormed(b) && (connective == AND || connective == OR)
    ensures PrintJoined(connective, [a, b]) == Print(a) + ([Word(connective)] + Print(b))
    ensures Args(Group(connective, [a, b])) == Args(a) + Args(b)
  {
    JoinGrows(connective, [a], b);
    assert [a] + [b] == [a, b];
    One(connective, a);
    PairArgs(a, b);
  }

  /** A test followed by AND and the next level. */
  lemma SameThenNext(q: seq<Token>, args: seq<Value>, same: Condition, next: Clause)
    requires AtomicTest(same) && AtomArgs(same) == [] && WellFormed(next)
    ensures ((q + AtomText(same)) + [Word(AND)]) + Print(next) == q + PrintJoined(AND, [Atom(same), next])
    ensures args + Args(next) == args + Args(Group(AND, [Atom(same), next]))
  {
    hide PrintJoined, AllArgs;
    AtomShape(same);
    Two(AND, Atom(same), next);
    Regroup(q + AtomText(same), [Word(AND)], Print(next));
    Regroup(q, AtomText(same), [Word(AND)] + Print(next));
    assert [] + Args(next) == Args(next);
  }

  /** A head followed by "OR (" same "AND" next ")". */
  lemma BranchWritten(q: seq<Token>, args: seq<Value>, head: Clause, same: Condition, next: Clause)
    requires WellFormed(head) && AtomicTest(same) && WellFormed(next)
    ensures var branch := Group(AND, [Atom(same), next]);
      && (((((q + Print(head)) + [Word(OR), LParen]) + AtomText(same)) + [Word(AND)]) + Print(next)) + [RParen]
         == q + PrintJoined(OR, [head, branch])
      && ((args + Args(head)) + AtomArgs(same)) + Args(next) == args + Args(Group(OR, [head, branch]))
      && (AtomArgs(same) == [] ==> (args + Args(head)) + Args(next) == args + Args(Group(OR, [head, branch])))
  {
    var branch := Group(AND, [Atom(same), next]);
    Two(AND, Atom(same), next);
    Two(OR, head, branch);
    BranchText(q, Print(head), AtomText(same), Print(next));
    assert Print(branch) == [LParen] + (AtomText(same) + ([Word(AND)] + Print(next))) + [RParen];
    Regroup(args + Args(head), AtomArgs(same), Args(next));
    Regroup(args, Args(head), AtomArgs(same) + Args(next));
    if AtomArgs(same) == [] {
      assert AtomArgs(same) + Args(next) == Args(next);
      Regroup(args, Args(head), Args(next));
    }
  }

  lemma BranchText(q: seq<Token>, head: seq<Token>, same: seq<Token>, next: seq<Token>)
    ensures (((((q + head) + [Word(OR), LParen]) + same) + [Word(AND)]) + next) + [RParen]
      == q + (head + ([Word(OR)] + (([LParen] + (same + ([Word(AND)] + next))) + [RParen])))
  {
    var inner := same + ([Word(AND)] + next);
    Regroup(((q + head) + [Word(OR), LParen]) + same, [Word(AND)], next);
    Regroup((q + head) + [Word(OR), LParen], same, [Word(AND)] + next);
    Regroup((q + head) + [Word(OR), LParen], inner, [RParen]);
    assert [Word(OR), LParen] == [Word(OR)] + [LParen];
    Regroup(q + head, [Word(OR), LParen], inner + [RParen]);
    Regroup([Word(OR)], [LParen], inner + [RParen]);
    Regroup([LParen], inner, [RParen]);
    Regroup(q, head, [Word(OR)] + (([LParen] + inner) + [RParen]));
  }
}
