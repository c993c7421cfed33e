/** Values, rows, tables and the three-valued logic of SQL conditions
    (ISO/IEC 9075:1992, section 8.12). */
module SqlValues {
  datatype Option<+T> = None | Some(value: T)

  /** A non-NULL column value. Columns are totally ordered; collations and
      numeric coercion are not modelled. */
  datatype Value = Int(number: int) | Str(text: string)

  /** A row maps a column name to its value; a column the row does not map is NULL. */
  type Row = map<string, Value>

  /** A table is a bag of rows in some storage order. */
  type Table = seq<Row>

  type Database = map<string, Table>

  datatype Truth = True | False | Unknown

  function Column(row: Row, name: string): Option<Value> {
    if name in row then Some(row[name]) else None
  }

  function Rows(db: Database, table: string): Table {
    if table in db then db[table] else []
  }

  function And3(a: Truth, b: Truth): Truth {
    if a == False || b == False then False
    else if a == True && b == True then True
    else Unknown
  }

  function Or3(a: Truth, b: Truth): Truth {
    if a == True || b == True then True
    else if a == False && b == False then False
    else Unknown
  }

  function Not3(a: Truth): Truth {
    match a
    case True => False
    case False => True
    case Unknown => Unknown
  }

  function Known(b: bool): Truth {
    if b then True else False
  }

  /** The laws of the three values: NULL stays NULL under NOT, AND is TRUE for two TRUE only, OR is its dual. */
  lemma LogicLaws(a: Truth, b: Truth)
    ensures Not3(Not3(a)) == a && (Not3(a) == True <==> a == False)
    ensures And3(a, b) == True <==> a == True && b == True
    ensures And3(a, b) == False <==> a == False || b == False
    ensures Or3(a, b) == Not3(And3(Not3(a), Not3(b)))
  {
  }

  // ---- the total order of a column domain ----

  predicate LessText(s: string, t: string) {
    t != "" && (s == "" || s[0] < t[0] || (s[0] == t[0] && LessText(s[1..], t[1..])))
  }

  predicate Less(a: Value, b: Value) {
    match (a, b)
    case (Int(x), Int(y)) => x < y
    case (Int(_), Str(_)) => true
    case (Str(_), Int(_)) => false
    case (Str(s), Str(t)) => LessText(s, t)
  }

  /** The first place where two texts differ, the first text being smaller there. */
  predicate SmallerAt(s: string, t: string, k: int) {
    0 <= k < |s| && k < |t| && s[..k] == t[..k] && s[k] < t[k]
  }

  lemma SmallerBehind(s: string, t: string, k: int)
    requires s != "" && t != "" && s[0] == t[0]
    ensures SmallerAt(s, t, k) <==> SmallerAt(s[1..], t[1..], k - 1)
    ensures s < t <==> s[1..] < t[1..]
  {
    var u, v := s[1..], t[1..];
    assert s == [s[0]] + u && t == [s[0]] + v;
    if 0 < k <= |s| && k <= |t| {
      assert s[..k] == [s[0]] + u[..k - 1] && t[..k] == [s[0]] + v[..k - 1];
      assert u[..k - 1] == s[..k][1..] && v[..k - 1] == t[..k][1..];
    }
    if |s| <= |t| {
      assert t[..|s|] == [s[0]] + v[..|u|] && v[..|u|] == t[..|s|][1..];
    }
  }

  lemma SmallerFirst(s: string, t: string)
    requires s != "" && t != "" && s[0] != t[0]
    ensures forall k :: SmallerAt(s, t, k) ==> k == 0
    ensures !(s < t)
  {
    forall k | SmallerAt(s, t, k)
      ensures k == 0
    {
      if k > 0 { SmallerLater(s, t, k); }
    }
  }

  lemma SmallerLater(s: string, t: string, k: int)
    requires SmallerAt(s, t, k) && k > 0
    ensures s[0] == t[0]
  {
    assert s[..k][0] == t[..k][0];
  }

  /** A text comes before another when it is the beginning of it, or smaller where they first differ. */
  lemma {:induction false} LessTextIff(s: string, t: string)
    ensures LessText(s, t) <==> s < t || exists k :: SmallerAt(s, t, k)
  {
    hide SmallerAt;
    if s == "" || t == "" {
      NothingSmaller(s, t);
    } else if s[0] == t[0] {
      LessTextIff(s[1..], t[1..]);
      SmallerBehind(s, t, 0);
      if k :| SmallerAt(s, t, k) { SmallerBehind(s, t, k); }
      if k :| SmallerAt(s[1..], t[1..], k) { SmallerBehind(s, t, k + 1); }
    } else {
      SmallerFirst(s, t);
      SmallerNow(s, t);
    }
  }

  lemma NothingSmaller(s: string, t: string)
    requires s == "" || t == ""
    ensures !(exists k :: SmallerAt(s, t, k)) && (s < t <==> s == "" && t != "")
  {
  }

  lemma SmallerNow(s: string, t: string)
    requires s != "" && t != "" && s[0] != t[0]
    ensures SmallerAt(s, t, 0) <==> s[0] < t[0]
  {
    assert s[..0] == t[..0];
  }

  /** Numbers by size, before every text; texts as above. */
  lemma LessNumber(x: int, y: int, s: string)
    ensures Less(Int(x), Int(y)) <==> x < y
    ensures Less(Int(x), Str(s)) && !Less(Str(s), Int(x))
  {
  }

  lemma {:induction false} LessTextTotal(s: string, t: string)
    ensures s == t || LessText(s, t) || LessText(t, s)
    ensures LessText(s, t) ==> s != t && !LessText(t, s)
  {
    if s != "" && t != "" && s[0] == t[0] {
      LessTextTotal(s[1..], t[1..]);
      if s[1..] == t[1..] {
        assert s == [s[0]] + s[1..] && t == [t[0]] + t[1..];
      }
    }
  }

  lemma {:induction false} LessTextTransitive(s: string, t: string, u: string)
    requires LessText(s, t) && LessText(t, u)
    ensures LessText(s, u)
  {
    if s != "" && s[0] == t[0] == u[0] {
      LessTextTransitive(s[1..], t[1..], u[1..]);
    }
  }

  lemma LessTotal(a: Value, b: Value)
    ensures a == b || Less(a, b) || Less(b, a)
    ensures Less(a, b) ==> a != b && !Less(b, a)
  {
    match (a, b)
    case (Str(s), Str(t)) => LessTextTotal(s, t);
    case _ =>
  }

  lemma LessTransitive(a: Value, b: Value, c: Value)
    requires Less(a, b) && Less(b, c)
    ensures Less(a, c)
  {
    match (a, b, c)
    case (Str(s), Str(t), Str(u)) => LessTextTransitive(s, t, u);
    case _ =>
  }
}
