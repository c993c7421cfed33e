/** ORDER BY with NULL lowest, as TiDB orders rows, and the uniqueness of a sorted result
    when the sort keys of its rows are all different. */
module Ordering {
  import opened SqlValues

  /** The values of the sort columns of one row. */
  type Key = seq<Option<Value>>

  function KeyOf(columns: seq<string>, row: Row): (k: Key)
    ensures |k| == |columns|
  {
    seq(|columns|, i requires 0 <= i < |columns| => Column(row, columns[i]))
  }

  predicate CellLess(a: Option<Value>, b: Option<Value>) {
    b.Some? && (a.None? || Less(a.value, b.value))
  }

  /** `a` comes before `b` in one sort column. */
  predicate CellBefore(descending: bool, a: Option<Value>, b: Option<Value>) {
    if descending then CellLess(b, a) else CellLess(a, b)
  }

  /** `a` comes strictly before `b`, comparing from column `i` on. */
  predicate KeyBefore(descending: seq<bool>, a: Key, b: Key, i: nat)
    requires |a| == |b| == |descending| && i <= |descending|
    decreases |descending| - i
  {
    i < |descending| &&
    (CellBefore(descending[i], a[i], b[i]) || (a[i] == b[i] && KeyBefore(descending, a, b, i + 1)))
  }

  lemma CellTotal(descending: bool, a: Option<Value>, b: Option<Value>)
    ensures a == b || CellBefore(descending, a, b) || CellBefore(descending, b, a)
    ensures CellBefore(descending, a, b) ==> a != b && !CellBefore(descending, b, a)
  {
    if a.Some? && b.Some? {
      LessTotal(a.value, b.value);
    }
  }

  lemma CellTransitive(descending: bool, a: Option<Value>, b: Option<Value>, c: Option<Value>)
    requires CellBefore(descending, a, b) && CellBefore(descending, b, c)
    ensures CellBefore(descending, a, c)
  {
    if a.Some? && b.Some? && c.Some? {
      if descending { LessTransitive(c.value, b.value, a.value); } else { LessTransitive(a.value, b.value, c.value); }
    }
  }

  lemma {:induction false} KeyTotal(descending: seq<bool>, a: Key, b: Key, i: nat)
    requires |a| == |b| == |descending| && i <= |descending|
    ensures KeyBefore(descending, a, b, i) ==> !KeyBefore(descending, b, a, i)
    ensures a[i..] == b[i..] || KeyBefore(descending, a, b, i) || KeyBefore(descending, b, a, i)
    ensures KeyBefore(descending, a, b, i) ==> a[i..] != b[i..]
    decreases |descending| - i
  {
    if i < |descending| {
      CellTotal(descending[i], a[i], b[i]);
      CellTotal(descending[i], b[i], a[i]);
      KeyTotal(descending, a, b, i + 1);
      assert a[i..] == [a[i]] + a[i + 1..] && b[i..] == [b[i]] + b[i + 1..];
    }
  }

  lemma {:induction false} KeyTransitive(descending: seq<bool>, a: Key, b: Key, c: Key, i: nat)
    requires |a| == |b| == |c| == |descending| && i <= |descending|
    requires KeyBefore(descending, a, b, i) && KeyBefore(descending, b, c, i)
    ensures KeyBefore(descending, a, c, i)
    decreases |descending| - i
  {
    if CellBefore(descending[i], a[i], b[i]) && CellBefore(descending[i], b[i], c[i]) {
      CellTransitive(descending[i], a[i], b[i], c[i]);
    } else if a[i] == b[i] == c[i] {
      if !CellBefore(descending[i], a[i], b[i]) && !CellBefore(descending[i], b[i], c[i]) {
        KeyTransitive(descending, a, b, c, i + 1);
      }
    }
  }

  /** ORDER BY: the sort columns and their directions. */
  datatype Order = Order(columns: seq<string>, descending: seq<bool>)
  {
    predicate Valid() {
      |columns| == |descending|
    }
  }

  predicate Before(order: Order, a: Row, b: Row)
    requires order.Valid()
  {
    KeyBefore(order.descending, KeyOf(order.columns, a), KeyOf(order.columns, b), 0)
  }

  /** No row comes before an earlier one. */
  predicate Sorted(order: Order, rows: seq<Row>)
    requires order.Valid()
  {
    forall i, j | 0 <= i < j < |rows| :: !Before(order, rows[j], rows[i])
  }

  predicate DistinctKeys(columns: seq<string>, rows: seq<Row>) {
    forall i, j | 0 <= i < j < |rows| :: KeyOf(columns, rows[i]) != KeyOf(columns, rows[j])
  }

  /** A result the server may return for ORDER BY over a bag of rows. */
  ghost predicate IsOrdered(order: Order, rows: seq<Row>, result: seq<Row>)
    requires order.Valid()
  {
    multiset(result) == multiset(rows) && Sorted(order, result)
  }

  lemma BeforeTotal(order: Order, a: Row, b: Row)
    requires order.Valid()
    ensures Before(order, a, b) ==> !Before(order, b, a)
    ensures KeyOf(order.columns, a) == KeyOf(order.columns, b) || Before(order, a, b) || Before(order, b, a)
    ensures Before(order, a, b) ==> KeyOf(order.columns, a) != KeyOf(order.columns, b)
  {
    var x, y := KeyOf(order.columns, a), KeyOf(order.columns, b);
    KeyTotal(order.descending, x, y, 0);
    assert x[0..] == x && y[0..] == y;
  }

  lemma BeforeTransitive(order: Order, a: Row, b: Row, c: Row)
    requires order.Valid() && Before(order, a, b) && Before(order, b, c)
    ensures Before(order, a, c)
  {
    KeyTransitive(order.descending, KeyOf(order.columns, a), KeyOf(order.columns, b), KeyOf(order.columns, c), 0);
  }

  /** With distinct keys a sorted sequence is strictly sorted. */
  lemma SortedStrictly(order: Order, rows: seq<Row>, i: nat, j: nat)
    requires order.Valid() && Sorted(order, rows) && DistinctKeys(order.columns, rows)
    requires i < j < |rows|
    ensures Before(order, rows[i], rows[j])
  {
    BeforeTotal(order, rows[i], rows[j]);
  }

  lemma DistinctPermutes(columns: seq<string>, a: seq<Row>, b: seq<Row>)
    requires multiset(a) == multiset(b) && DistinctKeys(columns, a)
    ensures DistinctKeys(columns, b)
  {
    forall i, j | 0 <= i < j < |b|
      ensures KeyOf(columns, b[i]) != KeyOf(columns, b[j])
    {
      if KeyOf(columns, b[i]) == KeyOf(columns, b[j]) {
        assert b[i] in multiset(a) && b[j] in multiset(a);
        var x :| 0 <= x < |a| && a[x] == b[i];
        var y :| 0 <= y < |a| && a[y] == b[j];
        assert b[i] == b[j];
        TwiceInMultiset(b, i, j);
        OnceInMultiset(columns, a, x);
      }
    }
  }

  lemma TwiceInMultiset(rows: seq<Row>, i: nat, j: nat)
    requires i < j < |rows| && rows[i] == rows[j]
    ensures multiset(rows)[rows[i]] >= 2
  {
    assert rows == rows[..i + 1] + rows[i + 1..];
    assert rows[i] in rows[..i + 1];
    assert rows[i + 1..][j - i - 1] == rows[j];
  }

  lemma OnceInMultiset(columns: seq<string>, rows: seq<Row>, i: nat)
    requires i < |rows| && DistinctKeys(columns, rows)
    ensures multiset(rows)[rows[i]] == 1
  {
    assert rows == rows[..i] + [rows[i]] + rows[i + 1..];
    assert rows[i] !in rows[..i] && rows[i] !in rows[i + 1..];
  }

  /** When the keys are all different, the server has only one result to return. */
  lemma {:induction false} OrderedUnique(order: Order, a: seq<Row>, b: seq<Row>)
    requires order.Valid() && multiset(a) == multiset(b)
    requires Sorted(order, a) && Sorted(order, b) && DistinctKeys(order.columns, a)
    ensures a == b
  {
    DistinctPermutes(order.columns, a, b);
    if a == [] {
      assert |multiset(b)| == 0;
    } else {
      assert |multiset(a)| == |a| && |multiset(b)| == |b|;
      FirstAgrees(order, a, b);
      RestAgrees(a, b);
      assert a == [a[0]] + a[1..] && b == [b[0]] + b[1..];
      OrderedUnique(order, a[1..], b[1..]);
    }
  }

  lemma RestAgrees(a: seq<Row>, b: seq<Row>)
    requires multiset(a) == multiset(b) && |a| > 0 && |b| > 0 && a[0] == b[0]
    ensures multiset(a[1..]) == multiset(b[1..])
  {
    assert a == [a[0]] + a[1..] && b == [b[0]] + b[1..];
    assert multiset(a) == multiset{a[0]} + multiset(a[1..]);
    assert multiset(b) == multiset{b[0]} + multiset(b[1..]);
    assert multiset(a[1..]) == multiset(a) - multiset{a[0]};
    assert multiset(b[1..]) == multiset(b) - multiset{b[0]};
  }

  lemma FirstAgrees(order: Order, a: seq<Row>, b: seq<Row>)
    requires order.Valid() && multiset(a) == multiset(b) && |a| > 0 && |b| > 0
    requires Sorted(order, a) && Sorted(order, b)
    requires DistinctKeys(order.columns, a) && DistinctKeys(order.columns, b)
    ensures a[0] == b[0]
  {
    assert a[0] in multiset(b) && b[0] in multiset(a);
    var i :| 0 <= i < |b| && b[i] == a[0];
    var j :| 0 <= j < |a| && a[j] == b[0];
    if i > 0 && j > 0 {
      SortedStrictly(order, b, 0, i);
    }
  }

  // ---- a sorted result exists ----

  function Insert(order: Order, row: Row, rows: seq<Row>): (r: seq<Row>)
    requires order.Valid()
  {
    if |rows| == 0 || Before(order, row, rows[0]) then [row] + rows
    else [rows[0]] + Insert(order, row, rows[1..])
  }

  function Sort(order: Order, rows: seq<Row>): (r: seq<Row>)
    requires order.Valid()
  {
    if |rows| == 0 then [] else Insert(order, rows[0], Sort(order, rows[1..]))
  }

  lemma FirstStaysFirst(order: Order, row: Row, rows: seq<Row>)
    requires order.Valid() && Sorted(order, rows) && |rows| > 0 && Before(order, row, rows[0])
    ensures Sorted(order, [row] + rows)
  {
    hide Before;
    forall j | 0 <= j < |rows|
      ensures !Before(order, rows[j], row)
    {
      if Before(order, rows[j], row) {
        if j == 0 { BeforeTotal(order, row, rows[0]); } else { BeforeTransitive(order, rows[j], row, rows[0]); }
      }
    }
  }

  lemma SortedBehind(order: Order, first: Row, tail: seq<Row>)
    requires order.Valid() && Sorted(order, tail) && forall row <- tail :: !Before(order, row, first)
    ensures Sorted(order, [first] + tail)
  {
  }

  lemma {:induction false} InsertAdds(order: Order, row: Row, rows: seq<Row>)
    requires order.Valid()
    ensures multiset(Insert(order, row, rows)) == multiset([row]) + multiset(rows)
  {
    hide Before;
    if |rows| > 0 && !Before(order, row, rows[0]) {
      InsertAdds(order, row, rows[1..]);
      assert rows == [rows[0]] + rows[1..];
    }
  }

  lemma {:induction false} InsertSorts(order: Order, row: Row, rows: seq<Row>)
    requires order.Valid() && Sorted(order, rows)
    ensures Sorted(order, Insert(order, row, rows))
  {
    hide Before;
    if |rows| == 0 {
    } else if Before(order, row, rows[0]) {
      FirstStaysFirst(order, row, rows);
    } else {
      var tail := Insert(order, row, rows[1..]);
      InsertSorts(order, row, rows[1..]);
      forall r <- tail
        ensures !Before(order, r, rows[0])
      {
        InsertAdds(order, row, rows[1..]);
        assert r in multiset(tail);
        assert r == row || r in rows[1..];
      }
      SortedBehind(order, rows[0], tail);
    }
  }

  lemma {:induction false} SortIsOrdered(order: Order, rows: seq<Row>)
    requires order.Valid()
    ensures IsOrdered(order, rows, Sort(order, rows))
  {
    if |rows| > 0 {
      SortIsOrdered(order, rows[1..]);
      InsertAdds(order, rows[0], Sort(order, rows[1..]));
      InsertSorts(order, rows[0], Sort(order, rows[1..]));
      assert rows == [rows[0]] + rows[1..];
    }
  }

  /** LIMIT and OFFSET on a sorted result. */
  function Page(rows: seq<Row>, offset: nat, limit: nat): seq<Row> {
    var start := if offset < |rows| then offset else |rows|;
    var end := if start + limit < |rows| then start + limit else |rows|;
    rows[start..end]
  }

  /** A page holds the rows from the offset on, as many as the limit allows. */
  lemma PageIs(rows: seq<Row>, offset: nat, limit: nat)
    ensures |Page(rows, offset, limit)| ==
      if offset >= |rows| then 0 else if limit <= |rows| - offset then limit else |rows| - offset
    ensures forall i | 0 <= i < |Page(rows, offset, limit)| :: Page(rows, offset, limit)[i] == rows[offset + i]
  {
  }
}
