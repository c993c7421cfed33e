/** Printing the canonical text, and the text a snapshot is compared by (migrate/sql.go:240-313,
    migrate/snapshot.go:142-156). */
module SqlSnapshot {
  import opened SqlValues
  import opened SqlLexer
  import opened SqlSections
  import opened SqlCanonical
  import opened TableOrder

  // ---- printing ----

  lemma {:induction false} SpacedGrows(ps: seq<Piece>, p: Piece)
    ensures Spaced(ps + [p]) == if |ps| == 0 then p.text else Spaced(ps) + " " + p.text
  {
    if |ps| > 0 {
      SpacedGrows(ps[1..], p);
      assert (ps + [p])[1..] == ps[1..] + [p];
      if |ps| > 1 {
        assert Spaced(ps) == ps[0].text + " " + Spaced(ps[1..]);
      }
    }
  }

  function After(done: seq<Piece>, rest: Option<seq<Piece>>): Option<seq<Piece>> {
    if rest.None? then None else Some(done + rest.value)
  }

  lemma AfterCons(done: seq<Piece>, p: Piece, rest: Option<seq<Piece>>)
    ensures After(done, Cons(p, rest)) == After(done + [p], rest)
  {
    if rest.Some? {
      assert done + ([p] + rest.value) == (done + [p]) + rest.value;
    }
  }

  lemma AfterAll(done: seq<Piece>, rest: Option<seq<Piece>>)
    ensures After(done, Some([])) == Some(done) && After([], rest) == rest && After(done, None) == None
  {
    assert done + [] == done;
    if rest.Some? {
      assert [] + rest.value == rest.value;
    }
  }

  /** One step over the tokens. */
  lemma KeptStep(ps: seq<Piece>, i: nat, depth: int)
    requires i < |ps|
    ensures ps[i].kind == ';' ==> Kept(ps, i, depth) == Kept(ps, i + 1, depth)
    ensures ps[i].kind != ';' && CounterAt(ps, i, depth) ==> i + 3 <= |ps| && Kept(ps, i, depth) == Kept(ps, i + 3,
      depth)
    ensures ps[i].kind == 'e' && depth == 0 ==>
      Kept(ps, i, depth) == match CleanComment(ps[i].text)
                            case None => None
                            case Some(c) => if c == "" then Kept(ps, i + 1, depth) else Cons(Piece('e', c),
                              Kept(ps, i + 1, depth))
    ensures ps[i].kind != ';' && !CounterAt(ps, i, depth) && !(ps[i].kind == 'e' && depth == 0) ==>
      Kept(ps, i, depth) == Cons(Shown(ps[i]), Kept(ps, i + 1, DepthAfter(depth, ps[i])))
    ensures Kept(ps, |ps|, depth) == Some([])
  {
  }

  lemma ShownNotEmpty(ps: seq<Piece>, i: nat)
    requires AllClean(ps) && i < |ps|
    ensures Shown(ps[i]).text != ""
  {
    assert ps[i] in ps;
    if ps[i].kind == 'e' && WholeComment(ps[i].text) {
    } else if ps[i].kind == 'w' {
      WordOnly(ps[i]);
    }
  }

  /** Appends to the text with a blank in between. */
  method Append(builder: string, text: string, ghost done: seq<Piece>, ghost p: Piece) returns (longer: string)
    requires builder == Spaced(done) && text == p.text != "" && forall q <- done :: q.text != ""
    ensures longer == Spaced(done + [p]) && forall q <- done + [p] :: q.text != ""
  {
    SpacedGrows(done, p);
    SpacedEmpty(done);
    longer := builder;
    if |longer| > 0 {
      longer := longer + " ";
    }
    longer := longer + text;
  }

  lemma SpacedEmpty(ps: seq<Piece>)
    requires forall q <- ps :: q.text != ""
    ensures Spaced(ps) == "" <==> ps == []
  {
    if |ps| > 0 {
      assert ps[0] in ps;
    }
  }

  method CanonicalSQL(source: string) returns (result: Option<string>)
    ensures result == Canonical(source)
    decreases |source|, 1
  {
    hide Tokens, Kept, Spaced, Whole, CleanComment, Shown, CounterAt, AllClean;
    var ts := ScanTokens(source, false);
    if ts.None? {
      CanonicalIs(source);
      return None;
    }
    var ps := Pieces(ts.value);
    TokensClean(source);
    CanonicalIs(source);
    var builder, depth, i := "", 0, 0;
    ghost var done: seq<Piece> := [];
    NothingSpaced();
    AfterAll([], Kept(ps, 0, 0));
    while i < |ps|
      invariant 0 <= i <= |ps|
      invariant Kept(ps, 0, 0) == After(done, Kept(ps, i, depth))
      invariant builder == Spaced(done) && forall q <- done :: q.text != ""
      decreases |ps| - i
    {
      var p := ps[i];
      KeptStep(ps, i, depth);
      if p.kind == ';' {
        i := i + 1;
        continue;
      }
      if CounterAt(ps, i, depth) {
        i := i + 3;
        continue;
      }
      var shown := Shown(p);
      if p.kind == 'e' && depth == 0 {
        assert p in ps;
        ShortPiece(source, p);
        var cleaned := NormalizeAllocatorComment(p.text);
        if cleaned.None? {
          AfterAll(done, None);
          return None;
        }
        if cleaned.value == "" {
          i := i + 1;
          continue;
        }
        shown := Piece('e', cleaned.value);
      } else {
        ShownNotEmpty(ps, i);
      }
      depth := DepthAfter(depth, p);
      AfterCons(done, shown, Kept(ps, i + 1, depth));
      builder := Append(builder, shown.text, done, shown);
      done := done + [shown];
      i := i + 1;
    }
    KeptEnd(ps, depth);
    AfterAll(done, None);
    result := Some(builder);
  }

  lemma KeptEnd(ps: seq<Piece>, depth: int)
    ensures Kept(ps, |ps|, depth) == Some([])
  {
  }

  lemma NothingSpaced()
    ensures Spaced([]) == ""
  {
  }

  lemma CanonicalIs(source: string)
    ensures Tokens(source).None? ==> Canonical(source) == None
    ensures Tokens(source).Some? ==>
      Canonical(source) == match Kept(Pieces(Tokens(source).value), 0, 0)
                           case None => None
                           case Some(kept) => Some(Spaced(kept))
  {
  }

  lemma TokensClean(source: string)
    requires Tokens(source).Some?
    ensures AllClean(Pieces(Tokens(source).value))
  {
    ScanClean(source, 0);
  }

  lemma ShortPiece(source: string, p: Piece)
    requires Tokens(source).Some? && p in Pieces(Tokens(source).value)
    ensures |p.text| <= |source|
  {
    AllShort(source);
  }

  method NormalizeAllocatorComment(s: string) returns (result: Option<string>)
    ensures result == CleanComment(s)
    decreases |s|, 0
  {
    if !MentionsAllocator(s) || s == "" {
      return Some(s);
    }
    var start := BodyStart(s);
    if start.None? {
      return None;
    }
    var body := CanonicalSQL(Body(s, start.value));
    if body.None? || body.value == "" {
      return body;
    }
    result := Some(Cut(s, 0, start.value) + " " + body.value + " */");
  }

  // ---- the text a snapshot is compared by ----

  predicate NotDescending(names: seq<string>) {
    forall i, j | 0 <= i < j < |names| :: !LessText(names[j], names[i])
  }

  lemma {:induction false} InsertKeepsOrder(x: string, names: seq<string>)
    requires NotDescending(names)
    ensures NotDescending(InsertName(x, names))
  {
    hide LessText;
    if |names| == 0 {
    } else if LessText(x, names[0]) {
      forall j | 0 <= j < |names|
        ensures !LessText(names[j], x)
      {
        LessTextTotal(x, names[0]);
        LessTextTotal(names[j], x);
        if LessText(names[j], x) {
          LessTextTransitive(names[j], x, names[0]);
        }
      }
    } else {
      InsertKeepsOrder(x, names[1..]);
      InsertIn(x, names[1..]);
      var tail := InsertName(x, names[1..]);
      forall j | 0 <= j < |tail|
        ensures !LessText(tail[j], names[0])
      {
        assert tail[j] in tail;
      }
    }
  }

  lemma {:induction false} SortKeepsOrder(names: seq<string>)
    ensures NotDescending(SortNames(names))
  {
    if |names| > 0 {
      SortKeepsOrder(names[1..]);
      InsertKeepsOrder(names[0], SortNames(names[1..]));
    }
  }

  lemma {:induction false} InsertsCommute(x: string, y: string, names: seq<string>)
    requires NotDescending(names)
    ensures InsertName(x, InsertName(y, names)) == InsertName(y, InsertName(x, names))
  {
    hide LessText;
    LessTextTotal(x, y);
    LessTextTotal(y, x);
    if |names| > 0 {
      if !LessText(x, names[0]) && !LessText(y, names[0]) {
        InsertsCommute(x, y, names[1..]);
      } else if LessText(x, names[0]) && !LessText(y, names[0]) {
        if LessText(y, x) { LessTextTransitive(y, x, names[0]); }
        InsertFront(x, y, names);
      } else if LessText(y, names[0]) && !LessText(x, names[0]) {
        if LessText(x, y) { LessTextTransitive(x, y, names[0]); }
        InsertFront(y, x, names);
      }
    }
  }

  lemma InsertFront(x: string, y: string, names: seq<string>)
    requires |names| > 0 && LessText(x, names[0]) && !LessText(y, names[0]) && !LessText(y, x)
    ensures InsertName(x, InsertName(y, names)) == [x] + InsertName(y, names)
    ensures InsertName(y, InsertName(x, names)) == [x] + InsertName(y, names)
  {
    hide LessText;
    assert InsertName(y, names)[0] == names[0];
    assert ([x] + names)[1..] == names;
  }

  /** Taking one name out and putting it in front does not change the sorted list. */
  lemma {:induction false} SortMovesFront(names: seq<string>, i: nat)
    requires i < |names|
    ensures SortNames(names) == InsertName(names[i], SortNames(names[..i] + names[i + 1..]))
  {
    hide InsertName;
    if i == 0 {
      assert names[..0] + names[1..] == names[1..];
    } else {
      SortMovesFront(names[1..], i - 1);
      var rest := names[1..][..i - 1] + names[1..][i..];
      assert names[..i] + names[i + 1..] == [names[0]] + rest;
      assert ([names[0]] + rest)[1..] == rest;
      SortKeepsOrder(rest);
      InsertsCommute(names[0], names[i], SortNames(rest));
    }
  }

  lemma SameLength(a: seq<string>, b: seq<string>)
    requires multiset(a) == multiset(b)
    ensures |a| == |b| && (|a| > 0 ==> a[0] in b)
  {
    assert |multiset(a)| == |a| && |multiset(b)| == |b|;
    if |a| > 0 {
      assert a[0] in multiset(b);
    }
  }

  lemma SameRest(a: seq<string>, b: seq<string>, i: nat)
    requires multiset(a) == multiset(b) && |a| > 0 && i < |b| && b[i] == a[0]
    ensures multiset(a[1..]) == multiset(b[..i] + b[i + 1..])
  {
    var rest := b[..i] + b[i + 1..];
    assert b == b[..i] + [b[i]] + b[i + 1..];
    assert a == [a[0]] + a[1..];
    assert multiset(a) == multiset{a[0]} + multiset(a[1..]);
    assert multiset(b) == multiset{a[0]} + multiset(rest);
    assert multiset(a[1..]) == multiset(a) - multiset{a[0]} == multiset(rest);
  }

  /** The sorted list depends only on which names there are, and how often. */
  lemma {:induction false} SortIgnoresOrder(a: seq<string>, b: seq<string>)
    requires multiset(a) == multiset(b)
    ensures SortNames(a) == SortNames(b)
  {
    hide InsertName;
    SameLength(a, b);
    if |a| > 0 {
      var i :| 0 <= i < |b| && b[i] == a[0];
      var rest := b[..i] + b[i + 1..];
      SameRest(a, b, i);
      SortIgnoresOrder(a[1..], rest);
      SortMovesFront(b, i);
    }
  }

  function AllCanonical(statements: seq<string>): Option<seq<string>> {
    if |statements| == 0 then Some([])
    else
      var front, last := AllCanonical(statements[..|statements| - 1]), Canonical(statements[|statements| - 1]);
      if front.None? || last.None? then None else Some(front.value + [last.value])
  }

  function JoinedBy(texts: seq<string>, separator: string): string {
    if |texts| == 0 then "" else if |texts| == 1 then texts[0] else texts[0] + separator + JoinedBy(texts[1..],
      separator)
  }

  function SnapshotText(source: string): Option<string> {
    if !Splits(source) then None
    else
      var canonical := AllCanonical(StatementTexts(source));
      if canonical.None? then None else Some(JoinedBy(SortNames(canonical.value), ";\n"))
  }

  /** The text that is hashed. */
  method SnapshotHashText(source: string) returns (result: Option<string>)
    ensures result == SnapshotText(source)
  {
    hide Canonical, StatementTexts, Splits;
    var statements := SplitSQL(source);
    if statements.None? {
      return None;
    }
    var canonical: seq<string> := [];
    for i := 0 to |statements.value|
      invariant AllCanonical(statements.value[..i]) == Some(canonical)
    {
      var text := CanonicalSQL(statements.value[i]);
      assert statements.value[..i + 1][..i] == statements.value[..i];
      if text.None? {
        NoneAfter(statements.value, i + 1);
        return None;
      }
      canonical := canonical + [text.value];
    }
    assert statements.value[..|statements.value|] == statements.value;
    result := Some(JoinedBy(SortNames(canonical), ";\n"));
  }

  lemma {:induction false} NoneAfter(statements: seq<string>, i: nat)
    requires i <= |statements| && AllCanonical(statements[..i]).None?
    ensures AllCanonical(statements).None?
  {
    if i < |statements| {
      assert statements[..|statements| - 1][..i] == statements[..i];
      NoneAfter(statements[..|statements| - 1], i);
    } else {
      assert statements[..i] == statements;
    }
  }

  lemma {:induction false} CanonicalJoins(a: seq<string>, b: seq<string>)
    ensures AllCanonical(a + b).Some? <==> AllCanonical(a).Some? && AllCanonical(b).Some?
    ensures AllCanonical(a + b).Some? ==> AllCanonical(a + b).value == AllCanonical(a).value + AllCanonical(b).value
  {
    hide Canonical;
    if |b| == 0 {
      assert a + b == a;
    } else {
      CanonicalJoins(a, b[..|b| - 1]);
      assert (a + b)[..|a + b| - 1] == a + b[..|b| - 1];
    }
  }

  lemma CanonicalWithout(b: seq<string>, i: nat)
    requires i < |b|
    ensures var rest := b[..i] + b[i + 1..];
      && (AllCanonical(b).Some? <==> AllCanonical(rest).Some? && Canonical(b[i]).Some?)
      && (AllCanonical(b).Some? ==>
            multiset(AllCanonical(b).value) == multiset(AllCanonical(rest).value) + multiset{Canonical(b[i]).value})
  {
    hide Canonical, AllCanonical;
    CanonicalJoins(b[..i], b[i + 1..]);
    CanonicalJoins(b[..i] + [b[i]], b[i + 1..]);
    CanonicalJoins(b[..i], [b[i]]);
    OneCanonical(b[i]);
    assert b == b[..i] + [b[i]] + b[i + 1..];
  }

  lemma OneCanonical(text: string)
    ensures AllCanonical([text]) == if Canonical(text).None? then None else Some([Canonical(text).value])
  {
    hide Canonical;
    assert [text][..0] == [] && AllCanonical([]) == Some([]);
    if Canonical(text).Some? {
      assert [] + [Canonical(text).value] == [Canonical(text).value];
    }
  }

  lemma {:induction false} CanonicalPermutes(a: seq<string>, b: seq<string>)
    requires multiset(a) == multiset(b)
    ensures AllCanonical(a).Some? <==> AllCanonical(b).Some?
    ensures AllCanonical(a).Some? ==> multiset(AllCanonical(a).value) == multiset(AllCanonical(b).value)
  {
    hide Canonical, AllCanonical;
    SameLength(a, b);
    if |a| == 0 {
      assert a == b;
    } else {
      var i :| 0 <= i < |b| && b[i] == a[0];
      var rest := b[..i] + b[i + 1..];
      SameRest(a, b, i);
      CanonicalPermutes(a[1..], rest);
      CanonicalWithout(b, i);
      CanonicalWithout(a, 0);
      assert a[..0] + a[1..] == a[1..];
    }
  }

  /** Two snapshots with the same statements in different orders are compared by the same text. */
  lemma SnapshotIgnoresOrder(a: string, b: string)
    requires Splits(a) && Splits(b) && multiset(StatementTexts(a)) == multiset(StatementTexts(b))
    ensures SnapshotText(a) == SnapshotText(b)
  {
    hide Splits, StatementTexts, AllCanonical, SortNames;
    CanonicalPermutes(StatementTexts(a), StatementTexts(b));
    if AllCanonical(StatementTexts(a)).Some? {
      SortIgnoresOrder(AllCanonical(StatementTexts(a)).value, AllCanonical(StatementTexts(b)).value);
    }
  }
}
