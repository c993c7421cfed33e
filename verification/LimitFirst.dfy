/** The algebra behind the relation-first rewrites: limiting the association rows and then joining their
    roots, against limiting the roots that have an association row. */
module LimitFirst {
  import opened SqlValues
  import opened Ordering
  import opened PredicateMeaning
  import opened Pagination

  predicate Complete(columns: seq<string>, row: Row) {
    forall i | 0 <= i < |columns| :: columns[i] in row
  }

  lemma LinkedKeys(a: Row, ac: seq<string>, r: Row, rc: seq<string>)
    requires |ac| == |rc|
    ensures Linked(a, ac, r, rc) <==> Complete(ac, a) && Complete(rc, r) && KeyOf(ac, a) == KeyOf(rc, r)
  {
    if Linked(a, ac, r, rc) {
      assert forall i | 0 <= i < |ac| :: KeyOf(ac, a)[i] == Some(a[ac[i]]) && KeyOf(rc, r)[i] == Some(r[rc[i]]);
    }
    if Complete(ac, a) && Complete(rc, r) && KeyOf(ac, a) == KeyOf(rc, r) {
      forall i | 0 <= i < |ac|
        ensures ac[i] in a && rc[i] in r && a[ac[i]] == r[rc[i]]
      {
        assert KeyOf(ac, a)[i] == KeyOf(rc, r)[i];
      }
    }
  }

  /** Association rows with their key columns, and root rows with theirs. */
  datatype Scene = Scene(assoc: seq<Row>, assocKey: seq<string>, roots: seq<Row>, rootKey: seq<string>)
  {
    /** The root key is a primary key; association rows with a whole key have different keys and an
        existing root. */
    ghost predicate Valid() {
      && |assocKey| == |rootKey| > 0
      && DistinctKeys(rootKey, roots) && (forall r <- roots :: Complete(rootKey, r))
      && CompleteDistinct(assocKey, assoc)
      && forall a <- assoc :: Complete(assocKey, a) ==> exists r <- roots :: Links(a, r)
    }

    predicate Links(a: Row, r: Row) {
      |assocKey| == |rootKey| && Linked(a, assocKey, r, rootKey)
    }

    /** The roots that have an association row: what EXISTS keeps. */
    ghost function Matched(): seq<Row> {
      Filter(roots, r => exists a <- assoc :: Links(a, r))
    }

    /** The roots joined to a page of association rows. */
    ghost function JoinRoots(page: seq<Row>): seq<Row> {
      if |page| == 0 then []
      else JoinRoots(page[..|page| - 1]) + Filter(roots, r => Links(page[|page| - 1], r))
    }

    function AssocOrder(descending: seq<bool>): Order {
      Order.Order(assocKey, descending)
    }

    function RootOrder(descending: seq<bool>): Order {
      Order.Order(rootKey, descending)
    }

    /** A result of: roots that EXISTS keeps, ordered, with LIMIT and OFFSET. */
    ghost predicate ExistsAnswers(descending: seq<bool>, offset: nat, limit: nat, out: seq<Row>)
      requires |descending| == |rootKey|
    {
      exists full :: IsOrdered(RootOrder(descending), Matched(), full) && out == Page(full, offset, limit)
    }

    /** A result of: association rows ordered, with LIMIT and OFFSET, then joined to their roots, ordered. */
    ghost predicate LimitFirstAnswers(descending: seq<bool>, offset: nat, limit: nat, out: seq<Row>)
      requires |descending| == |rootKey| == |assocKey|
    {
      exists full :: IsOrdered(AssocOrder(descending), assoc, full) &&
                     IsOrdered(RootOrder(descending), JoinRoots(Page(full, offset, limit)), out)
    }

    /** No association row with a NULL in its key sorts before one with a whole key. */
    predicate NullKeysLast(descending: seq<bool>)
      requires |descending| == |assocKey|
    {
      forall a <- assoc, b <- assoc | Complete(assocKey, a) && !Complete(assocKey, b) ::
        !Before(AssocOrder(descending), b, a)
    }

    ghost predicate AllComplete() {
      forall a <- assoc :: Complete(assocKey, a)
    }
  }

  predicate CompleteDistinct(columns: seq<string>, rows: seq<Row>) {
    forall i, j | 0 <= i < j < |rows| ::
      Complete(columns, rows[i]) && Complete(columns, rows[j]) ==> KeyOf(columns, rows[i]) != KeyOf(columns, rows[j])
  }

  // ---- sequences with distinct keys ----

  lemma {:induction false} CountAtMostOnce(columns: seq<string>, rows: seq<Row>, row: Row)
    requires DistinctKeys(columns, rows)
    ensures multiset(rows)[row] == if row in rows then 1 else 0
  {
    if row in rows {
      var i :| 0 <= i < |rows| && rows[i] == row;
      OnceInMultiset(columns, rows, i);
    } else {
      assert row !in multiset(rows);
    }
  }

  lemma SameElements(columns: seq<string>, x: seq<Row>, y: seq<Row>)
    requires DistinctKeys(columns, x) && DistinctKeys(columns, y)
    requires forall row :: row in x <==> row in y
    ensures multiset(x) == multiset(y)
  {
    forall row
      ensures multiset(x)[row] == multiset(y)[row]
    {
      CountAtMostOnce(columns, x, row);
      CountAtMostOnce(columns, y, row);
    }
  }

  // ---- the roots of association rows ----

  ghost function RootOf(s: Scene, a: Row): (r: Row)
    requires s.Valid() && a in s.assoc && Complete(s.assocKey, a)
    ensures r in s.roots && s.Links(a, r)
  {
    var r :| r in s.roots && s.Links(a, r);
    r
  }

  lemma OnlyLink(s: Scene, a: Row, r: Row)
    requires s.Valid() && a in s.assoc && Complete(s.assocKey, a) && r in s.roots
    ensures s.Links(a, r) <==> r == RootOf(s, a)
  {
    LinkedKeys(a, s.assocKey, RootOf(s, a), s.rootKey);
    LinkedKeys(a, s.assocKey, r, s.rootKey);
    RootsWithEqualKeys(s, RootOf(s, a), r);
  }

  /** Among rows that are all different, a condition that singles one out filters to that one. */
  lemma {:induction false} FilterOne(columns: seq<string>, rows: seq<Row>, p: Row -> bool, x: Row)
    requires DistinctKeys(columns, rows) && forall r <- rows :: p(r) <==> r == x
    ensures Filter(rows, p) == if x in rows then [x] else []
  {
    hide KeyOf;
    if |rows| > 0 {
      var n := |rows| - 1;
      FilterOne(columns, rows[..n], p, x);
      assert rows == rows[..n] + [rows[n]];
      forall i | 0 <= i < n
        ensures rows[i] != rows[n]
      {
        assert KeyOf(columns, rows[i]) != KeyOf(columns, rows[n]);
      }
    }
  }

  lemma OnlyRoot(s: Scene, a: Row)
    requires s.Valid() && a in s.assoc && Complete(s.assocKey, a)
    ensures Filter(s.roots, r => s.Links(a, r)) == [RootOf(s, a)]
  {
    forall r <- s.roots {
      OnlyLink(s, a, r);
    }
    FilterOne(s.rootKey, s.roots, r => s.Links(a, r), RootOf(s, a));
  }

  lemma RootsWithEqualKeys(s: Scene, r: Row, t: Row)
    requires s.Valid() && r in s.roots && t in s.roots
    ensures KeyOf(s.rootKey, r) == KeyOf(s.rootKey, t) <==> r == t
  {
    var i :| 0 <= i < |s.roots| && s.roots[i] == r;
    var j :| 0 <= j < |s.roots| && s.roots[j] == t;
    if i < j {
      assert KeyOf(s.rootKey, s.roots[i]) != KeyOf(s.rootKey, s.roots[j]);
    } else if j < i {
      assert KeyOf(s.rootKey, s.roots[j]) != KeyOf(s.rootKey, s.roots[i]);
    }
  }

  ghost predicate Part(s: Scene, page: seq<Row>) {
    forall a <- page :: a in s.assoc && Complete(s.assocKey, a)
  }

  ghost function RootsOf(s: Scene, page: seq<Row>): (rs: seq<Row>)
    requires s.Valid() && Part(s, page)
    ensures |rs| == |page|
  {
    seq(|page|, i requires 0 <= i < |page| => RootOf(s, page[i]))
  }

  lemma {:induction false} JoinOfComplete(s: Scene, page: seq<Row>)
    requires s.Valid() && Part(s, page)
    ensures s.JoinRoots(page) == RootsOf(s, page)
  {
    hide Complete, Scene.Links, Linked, Scene.Valid;
    if |page| > 0 {
      JoinOfComplete(s, page[..|page| - 1]);
      OnlyRoot(s, page[|page| - 1]);
      assert RootsOf(s, page) == RootsOf(s, page[..|page| - 1]) + [RootOf(s, page[|page| - 1])];
    }
  }

  lemma {:induction false} JoinOfIncomplete(s: Scene, page: seq<Row>, more: seq<Row>)
    requires s.Valid() && forall a <- more :: !Complete(s.assocKey, a)
    ensures s.JoinRoots(page + more) == s.JoinRoots(page)
  {
    if |more| == 0 {
      assert page + more == page;
    } else {
      var n := |more| - 1;
      JoinOfIncomplete(s, page, more[..n]);
      assert (page + more)[..|page + more| - 1] == page + more[..n];
      NoRoot(s, more[n], s.roots);
    }
  }

  lemma {:induction false} NoRoot(s: Scene, a: Row, roots: seq<Row>)
    requires !Complete(s.assocKey, a)
    ensures Filter(roots, r => s.Links(a, r)) == []
  {
    if |roots| > 0 {
      NoRoot(s, a, roots[..|roots| - 1]);
      if s.Links(a, roots[|roots| - 1]) {
        LinkedKeys(a, s.assocKey, roots[|roots| - 1], s.rootKey);
      }
    }
  }

  // ---- sorting association rows ----

  lemma OrdersAgree(s: Scene, descending: seq<bool>, a: Row, b: Row, r: Row, t: Row)
    requires |descending| == |s.assocKey| == |s.rootKey| && s.Links(a, r) && s.Links(b, t)
    ensures Before(s.AssocOrder(descending), a, b) <==> Before(s.RootOrder(descending), r, t)
    ensures KeyOf(s.assocKey, a) == KeyOf(s.assocKey, b) <==> KeyOf(s.rootKey, r) == KeyOf(s.rootKey, t)
  {
    LinkedKeys(a, s.assocKey, r, s.rootKey);
    LinkedKeys(b, s.assocKey, t, s.rootKey);
  }

  /** The roots of sorted association rows are sorted, with different keys. */
  lemma RootsSorted(s: Scene, descending: seq<bool>, page: seq<Row>)
    requires s.Valid() && Part(s, page) && |descending| == |s.rootKey|
    requires Sorted(s.AssocOrder(descending), page) && CompleteDistinct(s.assocKey, page)
    ensures Sorted(s.RootOrder(descending), RootsOf(s, page)) && DistinctKeys(s.rootKey, RootsOf(s, page))
  {
    hide Before, Complete;
    var rs := RootsOf(s, page);
    forall i, j | 0 <= i < j < |rs|
      ensures !Before(s.RootOrder(descending), rs[j], rs[i])
      ensures KeyOf(s.rootKey, rs[i]) != KeyOf(s.rootKey, rs[j])
    {
      OrdersAgree(s, descending, page[j], page[i], rs[j], rs[i]);
    }
  }

  lemma PermutedCompleteDistinct(columns: seq<string>, a: seq<Row>, b: seq<Row>)
    requires multiset(a) == multiset(b) && CompleteDistinct(columns, a)
    ensures CompleteDistinct(columns, b)
  {
    forall i, j | 0 <= i < j < |b| && Complete(columns, b[i]) && Complete(columns, b[j])
      ensures KeyOf(columns, b[i]) != KeyOf(columns, b[j])
    {
      if KeyOf(columns, b[i]) == KeyOf(columns, b[j]) {
        assert b[i] in multiset(a) && b[j] in multiset(a);
        var x :| 0 <= x < |a| && a[x] == b[i];
        var y :| 0 <= y < |a| && a[y] == b[j];
        if x < y {
          assert KeyOf(columns, a[x]) != KeyOf(columns, a[y]);
        } else if y < x {
          assert KeyOf(columns, a[y]) != KeyOf(columns, a[x]);
        }
        TwiceInMultiset(b, i, j);
        OnceWhenComplete(columns, a, x);
      }
    }
  }

  lemma OnceWhenComplete(columns: seq<string>, rows: seq<Row>, i: nat)
    requires i < |rows| && CompleteDistinct(columns, rows) && Complete(columns, rows[i])
    ensures multiset(rows)[rows[i]] == 1
  {
    hide Complete, KeyOf;
    assert rows == rows[..i] + [rows[i]] + rows[i + 1..];
    forall k | 0 <= k < |rows| && k != i
      ensures rows[k] != rows[i]
    {
      assert Complete(columns, rows[k]) ==> KeyOf(columns, rows[k]) != KeyOf(columns, rows[i]);
    }
    assert rows[i] !in rows[..i] && rows[i] !in rows[i + 1..];
  }

  ghost function FirstIncomplete(columns: seq<string>, rows: seq<Row>): (k: nat)
    ensures k <= |rows| && (forall i | 0 <= i < k :: Complete(columns, rows[i]))
    ensures k < |rows| ==> !Complete(columns, rows[k])
  {
    if |rows| == 0 || !Complete(columns, rows[0]) then 0 else 1 + FirstIncomplete(columns, rows[1..])
  }

  /** A sorted association list whose whole keys all come first: its roots are all the matched roots, in order. */
  lemma LeadingRoots(s: Scene, descending: seq<bool>, full: seq<Row>, matched: seq<Row>, k: nat)
    requires s.Valid() && |descending| == |s.rootKey|
    requires IsOrdered(s.AssocOrder(descending), s.assoc, full)
    requires IsOrdered(s.RootOrder(descending), s.Matched(), matched)
    requires k <= |full| && Part(s, full[..k]) && forall a <- full[k..] :: !Complete(s.assocKey, a)
    ensures RootsOf(s, full[..k]) == matched
  {
    hide Before, Complete;
    PermutedCompleteDistinct(s.assocKey, s.assoc, full);
    var front := full[..k];
    assert Sorted(s.AssocOrder(descending), front) && CompleteDistinct(s.assocKey, front);
    RootsSorted(s, descending, front);
    var rs := RootsOf(s, front);
    FilterDistinct(s.rootKey, s.roots, r => exists a <- s.assoc :: s.Links(a, r));
    FrontHoldsComplete(s, full, k);
    forall r
      ensures r in rs <==> r in s.Matched()
    {
      RootIsMatched(s, front, r);
    }
    SameElements(s.rootKey, rs, s.Matched());
    OrderedUnique(s.RootOrder(descending), rs, matched);
  }

  /** When a page holds every association row with a whole key, its roots are the matched ones. */
  lemma RootIsMatched(s: Scene, page: seq<Row>, r: Row)
    requires s.Valid() && Part(s, page) && forall a <- s.assoc :: Complete(s.assocKey, a) ==> a in page
    ensures r in RootsOf(s, page) <==> r in s.Matched()
  {
    hide Complete, KeyOf, Linked;
    var rs := RootsOf(s, page);
    FilterIn(s.roots, r => exists a <- s.assoc :: s.Links(a, r));
    if r in rs {
      var i :| 0 <= i < |page| && rs[i] == r;
      assert page[i] in s.assoc && s.Links(page[i], r);
    }
    if r in s.Matched() {
      var a :| a in s.assoc && s.Links(a, r);
      LinkedKeys(a, s.assocKey, r, s.rootKey);
      OnlyLink(s, a, r);
      var i :| 0 <= i < |page| && page[i] == a;
      assert rs[i] == r;
    }
  }

  lemma FrontHoldsComplete(s: Scene, full: seq<Row>, k: nat)
    requires multiset(full) == multiset(s.assoc) && k <= |full|
    requires forall a <- full[k..] :: !Complete(s.assocKey, a)
    ensures forall a <- s.assoc :: Complete(s.assocKey, a) ==> a in full[..k]
  {
    hide Complete;
    forall a <- s.assoc | Complete(s.assocKey, a)
      ensures a in full[..k]
    {
      assert a in multiset(full);
      assert full == full[..k] + full[k..];
    }
  }

  lemma CompleteComeFirst(s: Scene, descending: seq<bool>, full: seq<Row>, k: nat)
    requires |descending| == |s.assocKey| && s.NullKeysLast(descending)
    requires IsOrdered(s.AssocOrder(descending), s.assoc, full) && k == FirstIncomplete(s.assocKey, full)
    ensures Part(s, full[..k]) && forall a <- full[k..] :: !Complete(s.assocKey, a)
  {
    hide Before;
    forall a <- full
      ensures a in s.assoc
    {
      assert a in multiset(s.assoc);
    }
    forall i | k <= i < |full|
      ensures !Complete(s.assocKey, full[i])
    {
      if Complete(s.assocKey, full[i]) {
        assert i > k && full[k] in s.assoc && full[i] in s.assoc;
        BeforeTotal(s.AssocOrder(descending), full[k], full[i]);
        KeysOfCompleteDiffer(s.assocKey, full[i], full[k]);
      }
    }
  }

  lemma KeysOfCompleteDiffer(columns: seq<string>, a: Row, b: Row)
    requires Complete(columns, a) && !Complete(columns, b)
    ensures KeyOf(columns, a) != KeyOf(columns, b)
  {
    var i :| 0 <= i < |columns| && columns[i] !in b;
    assert KeyOf(columns, a)[i] != KeyOf(columns, b)[i];
  }

  lemma PageOfFront(full: seq<Row>, k: nat, offset: nat, limit: nat)
    requires k <= |full|
    ensures Page(full[..k], offset, limit) <= Page(full, offset, limit)
    ensures forall a <- Page(full, offset, limit)[|Page(full[..k], offset, limit)|..] :: a in full[k..]
  {
    var whole, page := Page(full, offset, limit), Page(full[..k], offset, limit);
    var start := if offset < |full| then offset else |full|;
    forall i | 0 <= i < |page|
      ensures page[i] == whole[i]
    {
      assert page[i] == full[start + i] == whole[i];
    }
    forall i | |page| <= i < |whole|
      ensures whole[i] in full[k..]
    {
      assert whole[i] == full[start + i] == full[k..][start + i - k];
    }
  }

  lemma PageIn(rows: seq<Row>, offset: nat, limit: nat)
    ensures forall a <- Page(rows, offset, limit) :: a in rows
  {
  }

  /** A page over whole keys followed by rows with NULL keys joins to the page of the roots. */
  lemma PageJoins(s: Scene, full: seq<Row>, k: nat, offset: nat, limit: nat)
    requires s.Valid() && k <= |full| && Part(s, full[..k]) && forall a <- full[k..] :: !Complete(s.assocKey, a)
    ensures s.JoinRoots(Page(full, offset, limit)) == Page(RootsOf(s, full[..k]), offset, limit)
  {
    hide Complete, Scene.JoinRoots, RootOf;
    var front := full[..k];
    var page, whole := Page(front, offset, limit), Page(full, offset, limit);
    PageOfFront(full, k, offset, limit);
    PageIn(front, offset, limit);
    assert whole == page + whole[|page|..];
    JoinOfIncomplete(s, page, whole[|page|..]);
    JoinOfComplete(s, page);
    assert RootsOf(s, page) == Page(RootsOf(s, front), offset, limit);
  }

  lemma SubpageSorted(order: Order, rows: seq<Row>, offset: nat, limit: nat)
    requires order.Valid() && Sorted(order, rows) && DistinctKeys(order.columns, rows)
    ensures Sorted(order, Page(rows, offset, limit)) && DistinctKeys(order.columns, Page(rows, offset, limit))
  {
    hide Before;
    var start := if offset < |rows| then offset else |rows|;
    var page := Page(rows, offset, limit);
    forall i, j | 0 <= i < j < |page|
      ensures !Before(order, page[j], page[i]) && KeyOf(order.columns, page[i]) != KeyOf(order.columns, page[j])
    {
      assert page[i] == rows[start + i] && page[j] == rows[start + j];
    }
  }

  /** With NULL keys last, limiting first changes nothing. */
  lemma LimitFirstAgrees(s: Scene, descending: seq<bool>, offset: nat, limit: nat, first: seq<Row>, last: seq<Row>)
    requires s.Valid() && |descending| == |s.rootKey| && s.NullKeysLast(descending)
    requires s.ExistsAnswers(descending, offset, limit, first)
    requires s.LimitFirstAnswers(descending, offset, limit, last)
    ensures first == last
  {
    hide Before, Complete, Scene.Matched, Scene.JoinRoots;
    var matched :| IsOrdered(s.RootOrder(descending), s.Matched(), matched) && first == Page(matched, offset, limit);
    var full :| IsOrdered(s.AssocOrder(descending), s.assoc, full) &&
      IsOrdered(s.RootOrder(descending), s.JoinRoots(Page(full, offset, limit)), last);
    var k := FirstIncomplete(s.assocKey, full);
    CompleteComeFirst(s, descending, full, k);
    LeadingRoots(s, descending, full, matched, k);
    PageJoins(s, full, k, offset, limit);
    MatchedDistinct(s, descending, matched);
    SubpageSorted(s.RootOrder(descending), matched, offset, limit);
    OrderedUnique(s.RootOrder(descending), first, last);
  }

  lemma MatchedDistinct(s: Scene, descending: seq<bool>, matched: seq<Row>)
    requires s.Valid() && |descending| == |s.rootKey|
    requires IsOrdered(s.RootOrder(descending), s.Matched(), matched)
    ensures DistinctKeys(s.rootKey, matched)
  {
    FilterDistinct(s.rootKey, s.roots, r => exists a <- s.assoc :: s.Links(a, r));
    DistinctPermutes(s.rootKey, s.Matched(), matched);
  }

  // ---- and exactly then ----

  lemma PartOfFront(s: Scene, full: seq<Row>, k: nat)
    requires multiset(full) == multiset(s.assoc) && k <= |full| && forall i | 0 <= i < k :: Complete(s.assocKey,
      full[i])
    ensures Part(s, full[..k])
  {
    forall a <- full
      ensures a in s.assoc
    {
      assert a in multiset(s.assoc);
    }
  }

  /** A NULL key that sorts before a whole one takes a place in some page that a root then lacks. */
  lemma NullKeyTakesAPlace(s: Scene, descending: seq<bool>) returns (limit: nat, first: seq<Row>, last: seq<Row>)
    requires s.Valid() && |descending| == |s.rootKey| && !s.NullKeysLast(descending)
    ensures limit >= 1 && first != last
    ensures s.ExistsAnswers(descending, 0, limit, first) && s.LimitFirstAnswers(descending, 0, limit, last)
  {
    hide Before, Complete, IsOrdered, DistinctKeys, CompleteDistinct, Scene.Matched, Scene.JoinRoots;
    var order, rootOrder := s.AssocOrder(descending), s.RootOrder(descending);
    var full, matched := Sort(order, s.assoc), Sort(rootOrder, s.Matched());
    SortIsOrdered(order, s.assoc);
    SortIsOrdered(rootOrder, s.Matched());
    var k := LateComplete(s, descending, full);
    var joined := s.JoinRoots(Page(full, 0, k + 1));
    limit, first, last := k + 1, Page(matched, 0, k + 1), Sort(rootOrder, joined);
    SortIsOrdered(rootOrder, joined);
    JoinedShort(s, full, k);
    EnoughRoots(s, full, k);
    SameLength(rootOrder, joined, last);
    SameLength(rootOrder, s.Matched(), matched);
  }

  lemma SameLength(order: Order, rows: seq<Row>, out: seq<Row>)
    requires order.Valid() && IsOrdered(order, rows, out)
    ensures |rows| == |out|
  {
    assert |multiset(rows)| == |rows| && |multiset(out)| == |out|;
  }

  lemma JoinedShort(s: Scene, full: seq<Row>, k: nat)
    requires s.Valid() && k < |full| && Part(s, full[..k]) && !Complete(s.assocKey, full[k])
    ensures |s.JoinRoots(Page(full, 0, k + 1))| == k
  {
    hide Complete, Scene.JoinRoots;
    assert Page(full, 0, k + 1) == full[..k] + [full[k]];
    JoinOfIncomplete(s, full[..k], [full[k]]);
    JoinOfComplete(s, full[..k]);
  }

  lemma BeforeComesFirst(order: Order, rows: seq<Row>, j: nat, i: nat)
    requires order.Valid() && Sorted(order, rows) && j < |rows| && i < |rows| && Before(order, rows[j], rows[i])
    ensures j < i
  {
    hide Before;
    BeforeTotal(order, rows[j], rows[i]);
  }

  /** The position of the first NULL key, when a whole key comes later. */
  lemma LateComplete(s: Scene, descending: seq<bool>, full: seq<Row>) returns (k: nat)
    requires s.Valid() && |descending| == |s.rootKey| && !s.NullKeysLast(descending)
    requires IsOrdered(s.AssocOrder(descending), s.assoc, full)
    ensures k < |full| && Part(s, full[..k]) && !Complete(s.assocKey, full[k]) && multiset(full) == multiset(s.assoc)
    ensures exists i :: k < i < |full| && Complete(s.assocKey, full[i])
  {
    hide Before, Complete;
    k := FirstIncomplete(s.assocKey, full);
    PartOfFront(s, full, k);
    var a, b :| a in s.assoc && b in s.assoc && Complete(s.assocKey, a) && !Complete(s.assocKey, b) &&
      Before(s.AssocOrder(descending), b, a);
    assert a in multiset(full) && b in multiset(full);
    var i :| 0 <= i < |full| && full[i] == a;
    var j :| 0 <= j < |full| && full[j] == b;
    BeforeComesFirst(s.AssocOrder(descending), full, j, i);
    assert k < i && Complete(s.assocKey, full[i]);
  }

  /** Different whole keys have different roots. */
  lemma RootsDiffer(s: Scene, page: seq<Row>)
    requires s.Valid() && Part(s, page) && CompleteDistinct(s.assocKey, page)
    ensures DistinctKeys(s.rootKey, RootsOf(s, page))
  {
    hide Complete, KeyOf, Linked;
    var rs := RootsOf(s, page);
    forall i, j | 0 <= i < j < |rs|
      ensures KeyOf(s.rootKey, rs[i]) != KeyOf(s.rootKey, rs[j])
    {
      LinkedKeys(page[i], s.assocKey, rs[i], s.rootKey);
      LinkedKeys(page[j], s.assocKey, rs[j], s.rootKey);
    }
  }

  lemma RootsInMatched(s: Scene, page: seq<Row>)
    requires s.Valid() && Part(s, page)
    ensures forall r <- RootsOf(s, page) :: r in s.Matched()
  {
    hide Complete, KeyOf, Linked;
    var rs := RootsOf(s, page);
    FilterIn(s.roots, r => exists a <- s.assoc :: s.Links(a, r));
    forall r <- rs
      ensures r in s.Matched()
    {
      var i :| 0 <= i < |page| && rs[i] == r;
      assert s.Links(page[i], r);
    }
  }

  lemma WithLate(s: Scene, full: seq<Row>, k: nat, i: nat) returns (some: seq<Row>)
    requires CompleteDistinct(s.assocKey, full) && multiset(full) == multiset(s.assoc)
    requires k < i < |full| && Part(s, full[..k]) && Complete(s.assocKey, full[i])
    ensures |some| == k + 1 && Part(s, some) && CompleteDistinct(s.assocKey, some)
  {
    hide Complete, KeyOf;
    some := full[..k] + [full[i]];
    assert full[i] in multiset(s.assoc);
    assert forall x | 0 <= x < k :: some[x] == full[x];
  }

  /** Different whole keys have different roots, so there are at least as many matched roots. */
  lemma EnoughRoots(s: Scene, full: seq<Row>, k: nat)
    requires s.Valid() && multiset(full) == multiset(s.assoc) && k < |full| && Part(s, full[..k])
    requires exists i :: k < i < |full| && Complete(s.assocKey, full[i])
    ensures |s.Matched()| >= k + 1
  {
    hide Complete, KeyOf, Scene.Matched, RootOf, CompleteDistinct, Part;
    PermutedCompleteDistinct(s.assocKey, s.assoc, full);
    var i :| k < i < |full| && Complete(s.assocKey, full[i]);
    var some := WithLate(s, full, k, i);
    RootsDiffer(s, some);
    RootsInMatched(s, some);
    ManyDifferent(s.rootKey, RootsOf(s, some), s.Matched());
  }

  lemma {:induction false} ManyDifferent(key: seq<string>, xs: seq<Row>, ys: seq<Row>)
    requires DistinctKeys(key, xs) && forall x <- xs :: x in ys
    ensures |xs| <= |ys|
  {
    hide KeyOf;
    if |xs| > 0 {
      var n := |xs| - 1;
      assert xs[n] in xs;
      var i :| 0 <= i < |ys| && ys[i] == xs[n];
      var rest := ys[..i] + ys[i + 1..];
      forall x <- xs[..n]
        ensures x in rest
      {
        var z :| 0 <= z < n && xs[z] == x;
        assert xs[z] in xs && KeyOf(key, xs[z]) != KeyOf(key, xs[n]);
        var j :| 0 <= j < |ys| && ys[j] == x;
        assert j != i;
        assert j < i ==> rest[j] == x;
        assert j > i ==> rest[j - 1] == x;
      }
      ManyDifferent(key, xs[..n], rest);
    }
  }

  /** Limiting before the join answers every page like EXISTS, whatever valid results the server picks,
      if and only if no association row with a NULL in its key sorts before one with a whole key. */
  lemma LimitFirstIffNullKeysLast(s: Scene, descending: seq<bool>)
    requires s.Valid() && |descending| == |s.rootKey|
    ensures s.NullKeysLast(descending) <==>
      forall offset: nat, limit: nat, first, last |
        limit >= 1 && s.ExistsAnswers(descending, offset, limit, first) && s.LimitFirstAnswers(descending, offset,
          limit, last) ::
        first == last
  {
    if s.NullKeysLast(descending) {
      forall offset: nat, limit: nat, first, last |
        limit >= 1 && s.ExistsAnswers(descending, offset, limit, first)
          && s.LimitFirstAnswers(descending, offset, limit, last)
        ensures first == last
      {
        LimitFirstAgrees(s, descending, offset, limit, first, last);
      }
    } else {
      var limit, first, last := NullKeyTakesAPlace(s, descending);
    }
  }

  // ---- counting ----

  /** Counting association rows counts the matched roots if and only if every key is whole. */
  lemma CountIffComplete(s: Scene)
    requires s.Valid()
    ensures |s.assoc| == |s.Matched()| <==> s.AllComplete()
  {
    var complete := Filter(s.assoc, a => Complete(s.assocKey, a));
    CompleteRoots(s, complete);
    FilterLength(s.assoc, a => Complete(s.assocKey, a));
  }

  lemma {:induction false} FilterLength(rows: seq<Row>, p: Row -> bool)
    ensures |Filter(rows, p)| <= |rows|
    ensures |Filter(rows, p)| == |rows| <==> forall r <- rows :: p(r)
  {
    if |rows| > 0 {
      var n := |rows| - 1;
      FilterLength(rows[..n], p);
      assert rows == rows[..n] + [rows[n]];
      assert p(rows[n]) || rows[n] in rows;
    }
  }

  lemma {:induction false} FilterCompleteDistinct(columns: seq<string>, rows: seq<Row>, p: Row -> bool)
    requires CompleteDistinct(columns, rows)
    ensures CompleteDistinct(columns, Filter(rows, p))
  {
    hide KeyOf, Complete;
    if |rows| > 0 {
      var n := |rows| - 1;
      FilterCompleteDistinct(columns, rows[..n], p);
      FilterIn(rows[..n], p);
      forall row <- Filter(rows[..n], p)
        ensures Complete(columns, row) && Complete(columns, rows[n]) ==> KeyOf(columns, row) != KeyOf(columns, rows[n])
      {
        var i :| 0 <= i < n && rows[..n][i] == row;
        assert rows[i] == row;
      }
    }
  }

  lemma CompleteRoots(s: Scene, complete: seq<Row>)
    requires s.Valid() && complete == Filter(s.assoc, a => Complete(s.assocKey, a))
    ensures |complete| == |s.Matched()|
  {
    hide Complete, KeyOf, RootOf, Scene.Links;
    var p := a => Complete(s.assocKey, a);
    FilterIn(s.assoc, p);
    FilterCompleteDistinct(s.assocKey, s.assoc, p);
    var rs := RootsOf(s, complete);
    RootsDiffer(s, complete);
    forall r
      ensures r in rs <==> r in s.Matched()
    {
      RootIsMatched(s, complete, r);
    }
    FilterDistinct(s.rootKey, s.roots, r => exists a <- s.assoc :: s.Links(a, r));
    SameElements(s.rootKey, rs, s.Matched());
    assert |multiset(rs)| == |rs| && |multiset(s.Matched())| == |s.Matched()|;
  }
}
