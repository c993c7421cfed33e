/** When two snapshots are hashed as one text (migrate/snapshot.go:142-156): exactly when they keep the same
    statements, token by token, in whatever order. */
module SqlDrift {
  import opened SqlValues
  import opened TableOrder
  import opened SqlLexer
  import opened SqlSections
  import opened SqlRelex
  import opened SqlCanonical
  import opened SqlSnapshot
  import opened SqlTrim

  const SEMICOLON := Piece(';', ";")

  // ---- what a canonical text looks like ----

  predicate NoSemicolons(ps: seq<Piece>) {
    forall p <- ps :: p.kind != ';'
  }

  lemma {:induction false} KeptHasNoSemicolon(ps: seq<Piece>, i: nat, depth: int)
    requires i <= |ps| && Kept(ps, i, depth).Some?
    ensures NoSemicolons(Kept(ps, i, depth).value)
    decreases |ps| - i
  {
    hide CounterAt, CleanComment;
    if i < |ps| {
      if ps[i].kind == ';' {
        KeptHasNoSemicolon(ps, i + 1, depth);
      } else if CounterAt(ps, i, depth) {
        CounterFits(ps, i, depth);
        KeptHasNoSemicolon(ps, i + 3, depth);
      } else if ps[i].kind == 'e' && depth == 0 {
        KeptHasNoSemicolon(ps, i + 1, depth);
      } else {
        KeptHasNoSemicolon(ps, i + 1, DepthAfter(depth, ps[i]));
      }
    }
  }

  /** The tokens of a text, if it lexes. */
  function Relexed(text: string): seq<Piece> {
    if Tokens(text).Some? then Pieces(Tokens(text).value) else []
  }

  /** A text of whole tokens with blanks between them, at least one and none of them a semicolon. */
  predicate Plain(text: string) {
    var ps := Relexed(text);
    text == Spaced(ps) && ps != [] && AllWhole(ps) && NoSemicolons(ps)
  }

  /** The verb of a statement is kept, so its canonical text is not empty. */
  lemma VerbIsKept(st: seq<Piece>, ps: seq<Piece>)
    requires ValidStatement(st) && st <= ps && Kept(ps, 0, 0).Some?
    ensures Kept(ps, 0, 0).value != []
  {
    hide Kept, Reserved;
    assert ps[0] == st[0] && !Allocator(ps[0].text);
    KeptFirst(ps);
  }

  lemma KeptFirst(ps: seq<Piece>)
    requires |ps| > 0 && ps[0].kind == 'w' && !Allocator(ps[0].text)
    ensures Kept(ps, 0, 0) == Cons(Shown(ps[0]), Kept(ps, 1, 0))
  {
  }

  lemma CanonicalIsPlain(source: string, k: nat)
    requires Splits(source) && k < |StatementTexts(source)| && Canonical(StatementTexts(source)[k]).Some?
    ensures var t := StatementTexts(source)[k];
      KeptTokens(t).Some? && Plain(Canonical(t).value) && Relexed(Canonical(t).value) == KeptTokens(t).value
  {
    hide Splits, StatementTexts, Checked, Kept, Tokens, Spaced, Whole, ValidStatement, Reads;
    var t := StatementTexts(source)[k];
    assert Tokens(source).Some? by { SplitsLexes(source); }
    StatementKeepsTokensIff(source, k);
    CheckedIsValid(source, k);
    CanonicalReads(t);
    SpacedKept(t);
    KeptParts(t);
    VerbIsKept(Checked(source)[k], Pieces(Tokens(t).value));
  }

  lemma SplitsLexes(source: string)
    requires Splits(source)
    ensures Tokens(source).Some?
  {
    hide Tokens;
  }

  lemma CheckedIsValid(source: string, k: nat)
    requires Splits(source) && k < |StatementTexts(source)|
    ensures ValidStatement(Checked(source)[k])
  {
    hide Checked, ValidStatement, StatementTexts;
  }

  lemma KeptParts(t: string)
    requires KeptTokens(t).Some?
    ensures Tokens(t).Some? && Kept(Pieces(Tokens(t).value), 0, 0) == KeptTokens(t)
    ensures AllWhole(KeptTokens(t).value) && NoSemicolons(KeptTokens(t).value)
  {
    hide Kept, Scan, Whole;
    var ps := Pieces(Tokens(t).value);
    ScanClean(t, 0);
    KeptWhole(ps, 0, 0);
    KeptHasNoSemicolon(ps, 0, 0);
    assert forall p <- Kept(ps, 0, 0).value :: Clean(p) && Whole(p);
  }

  // ---- reading the joined text back ----

  function JoinedPieces(lists: seq<seq<Piece>>): seq<Piece> {
    if |lists| == 0 then [] else if |lists| == 1 then lists[0] else lists[0] + ([SEMICOLON] + JoinedPieces(lists[1..]))
  }

  predicate AllPlain(texts: seq<string>) {
    forall t <- texts :: Plain(t)
  }

  function AllRelexed(texts: seq<string>): seq<seq<Piece>> {
    seq(|texts|, i requires 0 <= i < |texts| => Relexed(texts[i]))
  }

  lemma SeparatorReads(more: string)
    requires Scan(more, 0).Some?
    ensures var s := ";\n" + more;
      EndsThere(s) && Scan(s, 0).Some? && Pieces(Scan(s, 0).value) == [SEMICOLON] + Pieces(Scan(more, 0).value)
  {
    var s := ";\n" + more;
    assert s[2..] == more && s[0..1] == ";";
    assert Step(s, 0) == Found(';', 1);
    BlankAlone(s, 1);
    hide Step;
    ScanAfter(s, 2, 0);
    PiecesJoin(Made(s, 0, Step(s, 0)), Scan(s, 1).value);
  }

  /** Reading the joined text gives the tokens of the texts with a semicolon between them. */
  lemma {:induction false} JoinedReads(texts: seq<string>)
    requires AllPlain(texts)
    ensures Scan(JoinedBy(texts, ";\n"), 0).Some?
    ensures Pieces(Scan(JoinedBy(texts, ";\n"), 0).value) == JoinedPieces(AllRelexed(texts))
  {
    hide Relexed, Spaced, Scan, Whole;
    if |texts| == 0 {
      NothingReads();
    } else {
      var t := texts[0];
      assert t in texts && Plain(t);
      var ps := Relexed(t);
      if |texts| == 1 {
        SpacedReads(ps);
        assert AllRelexed(texts) == [ps];
      } else {
        assert forall x <- texts[1..] :: x in texts;
        JoinedReads(texts[1..]);
        var more := JoinedBy(texts[1..], ";\n");
        SeparatorReads(more);
        SpacedThen(ps, ";\n" + more);
        assert JoinedBy(texts, ";\n") == t + (";\n" + more);
        assert AllRelexed(texts)[1..] == AllRelexed(texts[1..]);
      }
    }
  }

  lemma NothingReads()
    ensures Scan("", 0) == Some([])
  {
  }

  predicate AllSeparable(lists: seq<seq<Piece>>) {
    forall l <- lists :: l != [] && NoSemicolons(l)
  }

  function FirstSemicolon(ps: seq<Piece>): nat {
    if |ps| == 0 || ps[0].kind == ';' then 0 else 1 + FirstSemicolon(ps[1..])
  }

  lemma {:induction false} SemicolonFound(a: seq<Piece>, x: seq<Piece>)
    requires NoSemicolons(a) && (x == [] || x[0] == SEMICOLON)
    ensures FirstSemicolon(a + x) == |a|
  {
    if |a| == 0 {
      assert a + x == x;
    } else {
      assert a[0] in a && forall p <- a[1..] :: p in a;
      SemicolonFound(a[1..], x);
      assert (a + x)[1..] == a[1..] + x;
    }
  }

  lemma SameHead(a: seq<Piece>, x: seq<Piece>, b: seq<Piece>, y: seq<Piece>)
    requires NoSemicolons(a) && NoSemicolons(b) && a + x == b + y
    requires (x == [] || x[0] == SEMICOLON) && (y == [] || y[0] == SEMICOLON)
    ensures a == b && x == y
  {
    SemicolonFound(a, x);
    SemicolonFound(b, y);
    assert a == (a + x)[..|a|] && b == (b + y)[..|b|];
    assert x == (a + x)[|a|..] && y == (b + y)[|b|..];
  }

  function Behind(lists: seq<seq<Piece>>): seq<Piece> {
    if |lists| <= 1 then [] else [SEMICOLON] + JoinedPieces(lists[1..])
  }

  lemma JoinedUnfolds(lists: seq<seq<Piece>>)
    requires AllSeparable(lists)
    ensures |lists| > 0 ==>
      && JoinedPieces(lists) == lists[0] + Behind(lists) && NoSemicolons(lists[0]) && lists[0] != []
      && AllSeparable(lists[1..])
    ensures JoinedPieces(lists) == [] <==> lists == []
  {
    if |lists| > 0 {
      assert lists[0] in lists && forall l <- lists[1..] :: l in lists;
    }
  }

  /** Lists without semicolons in them are told apart by those between them. */
  lemma {:induction false} JoinedPiecesInjective(a: seq<seq<Piece>>, b: seq<seq<Piece>>)
    requires AllSeparable(a) && AllSeparable(b) && JoinedPieces(a) == JoinedPieces(b)
    ensures a == b
  {
    hide JoinedPieces, AllSeparable;
    JoinedUnfolds(a);
    JoinedUnfolds(b);
    if |a| > 0 {
      SameHead(a[0], Behind(a), b[0], Behind(b));
      if |a| > 1 {
        assert Behind(a)[1..] == JoinedPieces(a[1..]) && Behind(b)[1..] == JoinedPieces(b[1..]);
        JoinedPiecesInjective(a[1..], b[1..]);
        assert a == [a[0]] + a[1..] && b == [b[0]] + b[1..];
      }
    }
  }

  // ---- the same statements in another order ----

  function Map<S, T>(a: seq<S>, f: S -> T): (r: seq<T>)
    ensures |r| == |a|
  {
    seq(|a|, i requires 0 <= i < |a| => f(a[i]))
  }

  lemma MapWithout<S, T>(b: seq<S>, i: nat, f: S -> T)
    requires i < |b|
    ensures multiset(Map(b, f)) == multiset(Map(b[..i] + b[i + 1..], f)) + multiset{f(b[i])}
  {
    assert Map(b, f) == Map(b[..i], f) + [f(b[i])] + Map(b[i + 1..], f);
    assert Map(b[..i] + b[i + 1..], f) == Map(b[..i], f) + Map(b[i + 1..], f);
  }

  lemma Without<S>(b: seq<S>, i: nat)
    requires i < |b|
    ensures multiset(b[..i] + b[i + 1..]) == multiset(b) - multiset{b[i]}
  {
    assert b == b[..i] + [b[i]] + b[i + 1..];
  }

  /** Mapping two permutations of one list gives permutations of one list. */
  lemma {:induction false} MapPermutes<S, T>(a: seq<S>, b: seq<S>, f: S -> T)
    requires multiset(a) == multiset(b)
    ensures multiset(Map(a, f)) == multiset(Map(b, f))
  {
    hide Map;
    assert |multiset(a)| == |a| && |multiset(b)| == |b|;
    if |a| == 0 {
      assert a == b;
    } else {
      assert a[0] in multiset(b);
      var i :| 0 <= i < |b| && b[i] == a[0];
      Without(a, 0);
      Without(b, i);
      MapPermutes(a[..0] + a[1..], b[..i] + b[i + 1..], f);
      MapWithout(a, 0, f);
      MapWithout(b, i, f);
    }
  }

  lemma {:induction false} SortPermutes(names: seq<string>)
    ensures multiset(SortNames(names)) == multiset(names)
  {
    if |names| > 0 {
      SortPermutes(names[1..]);
      InsertAdds(names[0], SortNames(names[1..]));
      assert names == [names[0]] + names[1..];
    }
  }

  lemma {:induction false} InsertAdds(name: string, names: seq<string>)
    ensures multiset(InsertName(name, names)) == multiset(names) + multiset{name}
  {
    hide LessText;
    if |names| > 0 && !LessText(name, names[0]) {
      InsertAdds(name, names[1..]);
      assert names == [names[0]] + names[1..];
    }
  }

  // ---- snapshots ----

  function Canonicals(source: string): seq<string>
    requires SnapshotText(source).Some?
  {
    AllCanonical(StatementTexts(source)).value
  }

  /** The kept tokens of each statement. */
  function KeptStatements(source: string): seq<seq<Piece>>
    requires SnapshotText(source).Some?
  {
    Map(StatementTexts(source), (t: string) => if KeptTokens(t).Some? then KeptTokens(t).value else [])
  }

  lemma {:induction false} CanonicalAt(texts: seq<string>)
    requires AllCanonical(texts).Some?
    ensures |AllCanonical(texts).value| == |texts|
    ensures forall i | 0 <= i < |texts| :: Canonical(texts[i]) == Some(AllCanonical(texts).value[i])
  {
    hide Canonical;
    if |texts| > 0 {
      CanonicalAt(texts[..|texts| - 1]);
    }
  }

  /** Canonical texts and kept tokens determine each other, statement by statement. */
  lemma TextsAndTokens(source: string)
    requires SnapshotText(source).Some?
    ensures AllPlain(Canonicals(source))
    ensures Map(Canonicals(source), Relexed) == KeptStatements(source)
    ensures Map(KeptStatements(source), Spaced) == Canonicals(source)
  {
    hide Splits, StatementTexts, AllCanonical, Canonical, KeptTokens, Relexed, Spaced, AllWhole;
    var texts, canonical := StatementTexts(source), Canonicals(source);
    CanonicalAt(texts);
    forall i | 0 <= i < |texts|
      ensures Plain(canonical[i]) && Relexed(canonical[i]) == KeptStatements(source)[i]
    {
      CanonicalIsPlain(source, i);
    }
    forall t <- canonical
      ensures Plain(t)
    {
      var i :| 0 <= i < |canonical| && canonical[i] == t;
    }
  }

  lemma SortedIsPlain(source: string)
    requires SnapshotText(source).Some?
    ensures AllPlain(SortNames(Canonicals(source)))
  {
    hide Plain, SnapshotText, Canonicals;
    TextsAndTokens(source);
    SortIn(Canonicals(source));
  }

  lemma PlainSeparable(texts: seq<string>)
    requires AllPlain(texts)
    ensures AllSeparable(AllRelexed(texts)) && Map(AllRelexed(texts), Spaced) == texts
  {
    hide Relexed, Spaced, AllWhole;
    forall l <- AllRelexed(texts)
      ensures l != [] && NoSemicolons(l)
    {
      var i :| 0 <= i < |texts| && l == Relexed(texts[i]);
      assert texts[i] in texts && Plain(texts[i]);
    }
    forall i | 0 <= i < |texts|
      ensures Spaced(AllRelexed(texts)[i]) == texts[i]
    {
      assert texts[i] in texts && Plain(texts[i]);
    }
  }

  /** Two snapshots are hashed as one text if and only if they keep the same statements, token by token and
      equally often, in whatever order: no drift goes unseen, and order makes none. */
  lemma SnapshotExact(a: string, b: string)
    requires SnapshotText(a).Some? && SnapshotText(b).Some?
    ensures SnapshotText(a) == SnapshotText(b) <==> multiset(KeptStatements(a)) == multiset(KeptStatements(b))
  {
    TextsAre(a);
    TextsAre(b);
    hide SnapshotText, Canonicals, KeptStatements, SortNames, JoinedBy, Scan, Relexed, Spaced, JoinedPieces;
    TextsAndTokens(a);
    TextsAndTokens(b);
    var x, y := SortNames(Canonicals(a)), SortNames(Canonicals(b));
    if SnapshotText(a) == SnapshotText(b) {
      SortedIsPlain(a);
      SortedIsPlain(b);
      JoinedReads(x);
      JoinedReads(y);
      PlainSeparable(x);
      PlainSeparable(y);
      JoinedPiecesInjective(AllRelexed(x), AllRelexed(y));
      SortPermutes(Canonicals(a));
      SortPermutes(Canonicals(b));
      MapPermutes(Canonicals(a), Canonicals(b), Relexed);
    }
    if multiset(KeptStatements(a)) == multiset(KeptStatements(b)) {
      MapPermutes(KeptStatements(a), KeptStatements(b), Spaced);
      SortIgnoresOrder(Canonicals(a), Canonicals(b));
    }
  }

  lemma TextsAre(source: string)
    requires SnapshotText(source).Some?
    ensures SnapshotText(source) == Some(JoinedBy(SortNames(Canonicals(source)), ";\n"))
  {
  }
}
