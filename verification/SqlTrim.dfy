/** Trimming a statement (migrate/sql.go:173,181): when the trimmed text still has the tokens of the statement. */
module SqlTrim {
  import opened SqlValues
  import opened SqlLexer
  import opened SqlSections
  import opened SqlMigration
  import opened SqlRelex

  predicate AllSpace(s: string) {
    forall c <- s :: Space(c)
  }

  lemma AllSpaceJoins(a: string, b: string)
    ensures AllSpace(a + b) <==> AllSpace(a) && AllSpace(b)
  {
    assert forall c :: c in a + b <==> c in a || c in b;
  }

  lemma OneSpace(c: char)
    ensures AllSpace([c]) <==> Space(c)
    ensures AllSpace([])
  {
    assert c in [c];
  }

  lemma {:induction false} TrimLeftIs(x: string)
    ensures |TrimLeft(x)| <= |x| && x[|x| - |TrimLeft(x)|..] == TrimLeft(x) && AllSpace(x[..|x| - |TrimLeft(x)|])
  {
    hide AllSpace, Space;
    OneSpace('a');
    if x != "" && Space(x[0]) {
      var rest := x[1..];
      TrimLeftIs(rest);
      var m := |rest| - |TrimLeft(rest)|;
      OneSpace(x[0]);
      AllSpaceJoins([x[0]], rest[..m]);
      assert x == [x[0]] + rest;
      assert x[..m + 1] == [x[0]] + rest[..m] && x[m + 1..] == rest[m..];
    } else {
      assert x[..0] == [] && x[0..] == x;
    }
  }

  lemma {:induction false} TrimRightIs(x: string)
    ensures TrimRight(x) <= x && AllSpace(x[|TrimRight(x)|..])
    ensures TrimRight(x) != "" ==> !Space(TrimRight(x)[|TrimRight(x)| - 1])
  {
    hide AllSpace, Space;
    OneSpace('a');
    if x != "" && Space(x[|x| - 1]) {
      var front, last := x[..|x| - 1], x[|x| - 1];
      TrimRightIs(front);
      var n := |TrimRight(front)|;
      OneSpace(last);
      AllSpaceJoins(front[n..], [last]);
      assert x == front + [last] && x[n..] == front[n..] + [last];
    } else {
      assert x[|x|..] == [];
    }
  }

  /** Blanks make no token. */
  lemma {:induction false} SpacesScan(s: string, i: nat)
    requires i <= |s| && AllSpace(s[i..])
    ensures Scan(s, i) == Some([])
    decreases |s| - i
  {
    if i < |s| {
      assert s[i..][0] == s[i] && s[i] in s[i..];
      assert s[i..][1..] == s[i + 1..];
      assert forall c <- s[i + 1..] :: c in s[i..];
      SpacesScan(s, i + 1);
      BlankAlone(s, i);
    }
  }

  lemma BlankAlone(s: string, i: nat)
    requires i < |s| && Space(s[i])
    ensures Step(s, i) == Skip(i + 1) && Scan(s, i) == Scan(s, i + 1)
  {
    assert Step(s, i) == Skip(i + 1);
    JoinedTwice([], [], Scan(s, i + 1));
  }

  lemma {:induction false} SpacesSkipped(s: string, i: nat, n: nat)
    requires i <= n <= |s| && AllSpace(s[i..n])
    ensures Scan(s, i) == Scan(s, n)
    decreases n - i
  {
    if i < n {
      assert s[i..n][0] == s[i] && s[i] in s[i..n];
      assert s[i..n][1..] == s[i + 1..n];
      assert forall c <- s[i + 1..n] :: c in s[i..n];
      SpacesSkipped(s, i + 1, n);
      BlankAlone(s, i);
    }
  }

  // ---- a text `y` and its first `n` characters, with blanks after them ----

  predicate BlankAfter(y: string, n: nat) {
    n <= |y| && AllSpace(y[n..])
  }

  /** The kept part ends in two dashes, and a blank that is cut off follows them. */
  predicate DashesLast(y: string, n: nat) {
    2 <= n < |y| && y[n - 2] == '-' && y[n - 1] == '-'
  }

  lemma BlankAt(y: string, n: nat, i: nat)
    requires BlankAfter(y, n) && n <= i < |y|
    ensures Space(y[i])
  {
    assert y[n..][i - n] == y[i];
    assert y[n..][i - n] in y[n..];
  }

  /** A step that ends within the kept part is the same step there, unless it is at the last dashes. */
  lemma StepTrimmed(y: string, n: nat, i: nat)
    requires n <= |y| && BlankAfter(y, n) && i < n && !Step(y, i).Bad? && Step(y, i).next <= n
    requires !(DashesLast(y, n) && i == n - 2)
    ensures Step(y[..n], i) == Step(y, i)
  {
    hide LineEnd, WordEnd, CloseAt, QuoteEnd, AllSpace, BlankAfter, BlockStep;
    if n < |y| { BlankAt(y, n, n); }
    var c := y[i];
    if Blank(c) {
    } else if StartsComment(y, i) {
      LineEndBefore(y, n, i + 1);
    } else if c == '/' && i + 1 < |y| && y[i + 1] == '*' {
      BlockBefore(y, n, i);
    } else if IsQuote(c) {
      QuoteBefore(y, n, i + 1, c);
    } else if WordByte(c) {
      WordEndBefore(y, n, i + 1);
    }
  }

  /** Only a line comment reaches over the end of the kept part; it ends there when the rest is cut off. */
  lemma StepCrosses(y: string, n: nat, i: nat)
    requires n <= |y| && BlankAfter(y, n) && i < n && !Step(y, i).Bad? && Step(y, i).next > n
    requires !(DashesLast(y, n) && i == n - 2)
    ensures Step(y, i).Skip? && Step(y[..n], i) == Skip(n)
  {
    hide LineEnd, WordEnd, CloseAt, QuoteEnd, AllSpace, BlankAfter, BlockStep;
    var c, next := y[i], Step(y, i).next;
    BlankAt(y, n, n);
    BlankAt(y, n, next - 1);
    if StartsComment(y, i) && !Blank(c) {
      LineCut(y, n, i + 1);
    } else if c == '/' && i + 1 < |y| && y[i + 1] == '*' {
      BlockEnds(y, i);
    } else if IsQuote(c) {
      QuoteEnds(y, i + 1, c);
    } else if WordByte(c) {
      WordEnds(y, i + 1, next - 1);
    }
  }

  lemma {:induction false} LineCut(y: string, n: nat, i: nat)
    requires i <= n <= |y| && LineEnd(y, i) > n
    ensures LineEnd(y[..n], i) == n
    decreases n - i
  {
    if i < n {
      LineCut(y, n, i + 1);
    }
  }

  lemma BlockEnds(y: string, i: nat)
    requires i + 1 < |y| && !BlockStep(y, i).Bad?
    ensures y[BlockStep(y, i).next - 1] == '/'
  {
  }

  lemma {:induction false} QuoteEnds(y: string, i: nat, q: char)
    requires QuoteEnd(y, i, q).Some?
    ensures y[QuoteEnd(y, i, q).value - 1] == q
    decreases |y| - i
  {
    QuoteStep(y, i, q);
    if y[i] == '\\' && q != '`' {
      QuoteEnds(y, i + 2, q);
    } else if y[i] != q {
      QuoteEnds(y, i + 1, q);
    } else if i + 1 < |y| && y[i + 1] == q {
      QuoteEnds(y, i + 2, q);
    }
  }

  lemma WordEnds(y: string, i: nat, k: nat)
    requires i <= |y| && i <= k < WordEnd(y, i)
    ensures WordByte(y[k])
  {
  }

  const TWO_DASHES := [Piece('-', "-"), Piece('-', "-")]

  function LostDashes(y: string, n: nat, i: nat): seq<Piece>
    requires i <= |y|
  {
    if DashesLast(y, n) && Visits(y, i, n - 2) then TWO_DASHES else []
  }

  /** Cutting the blanks off turns a comment that is only two dashes into two tokens, and changes nothing else. */
  lemma {:induction false} TrimmedScan(y: string, n: nat, i: nat)
    requires n <= |y| && BlankAfter(y, n) && i <= n && Scan(y, i).Some?
    ensures Scan(y[..n], i).Some?
    ensures Pieces(Scan(y[..n], i).value) == Pieces(Scan(y, i).value) + LostDashes(y, n, i)
    decreases n - i
  {
    hide Step, BlankAfter, DashesLast;
    var z := y[..n];
    if i == n {
      AtTheEnd(y, n);
    } else if DashesLast(y, n) && i == n - 2 {
      AtTheDashes(y, n);
    } else if Step(y, i).next <= n {
      var next := Step(y, i).next;
      StepTrimmed(y, n, i);
      TrimmedScan(y, n, next);
      assert z[i..next] == y[i..next];
      PiecesJoin(Made(y, i, Step(y, i)), Scan(y, next).value);
      PiecesJoin(Made(z, i, Step(z, i)), Scan(z, next).value);
      LostLater(y, n, i);
    } else {
      StepCrosses(y, n, i);
      var next := Step(y, i).next;
      RestIsBlank(y, n, next);
      AtTheEnd(y, n);
      PastTheDashes(y, n, i);
      JoinedTwice([], [], Scan(z, n));
      JoinedTwice([], [], Scan(y, next));
    }
  }

  lemma RestIsBlank(y: string, n: nat, i: nat)
    requires BlankAfter(y, n) && n <= i <= |y|
    ensures Scan(y, i) == Some([])
  {
    assert y[i..] == y[n..][i - n..];
    assert forall c <- y[n..][i - n..] :: c in y[n..];
    SpacesScan(y, i);
  }

  lemma AtTheEnd(y: string, n: nat)
    requires BlankAfter(y, n)
    ensures Scan(y, n) == Some([]) && Scan(y[..n], n) == Some([]) && LostDashes(y, n, n) == []
  {
    RestIsBlank(y, n, n);
    if n >= 2 { NotVisited(y, n, n - 2); }
  }

  lemma LostLater(y: string, n: nat, i: nat)
    requires i < |y| && !Step(y, i).Bad? && !(DashesLast(y, n) && i == n - 2)
    ensures LostDashes(y, n, i) == LostDashes(y, n, Step(y, i).next)
  {
    hide Step;
    var next := Step(y, i).next;
    if n >= 2 && Visits(y, next, n - 2) { VisitsForward(y, next, n - 2); }
  }

  lemma PastTheDashes(y: string, n: nat, i: nat)
    requires i < n <= |y| && !Step(y, i).Bad? && Step(y, i).next > n && !(DashesLast(y, n) && i == n - 2)
    ensures LostDashes(y, n, i) == []
  {
    hide Step;
    LostLater(y, n, i);
    var next := Step(y, i).next;
    if n >= 2 { NotVisited(y, next, n - 2); }
  }

  lemma AtTheDashes(y: string, n: nat)
    requires BlankAfter(y, n) && DashesLast(y, n) && Scan(y, n - 2).Some?
    ensures Scan(y, n - 2) == Some([]) && Scan(y[..n], n - 2).Some?
    ensures Pieces(Scan(y[..n], n - 2).value) == TWO_DASHES == LostDashes(y, n, n - 2)
  {
    var z := y[..n];
    DashSteps(y, n);
    hide Step;
    RestIsBlank(y, n, LineEnd(y, n - 1));
    assert z[n - 2..n - 1] == "-" && z[n - 1..n] == "-";
    assert Scan(z, n) == Some([]);
    JoinedTwice([], [], Scan(y, LineEnd(y, n - 1)));
  }

  lemma DashSteps(y: string, n: nat)
    requires BlankAfter(y, n) && DashesLast(y, n)
    ensures Step(y, n - 2) == Skip(LineEnd(y, n - 1)) && LineEnd(y, n - 1) >= n
    ensures Step(y[..n], n - 2) == Found('-', n - 1) && Step(y[..n], n - 1) == Found('-', n)
  {
    BlankAt(y, n, n);
    assert y[n - 1] != '\n';
  }

  /** The text is trimmed to one that ends in two dashes which were a comment of their own. */
  predicate DashTail(x: string) {
    var y := TrimLeft(x);
    var n := |TrimRight(y)|;
    DashesLast(y, n) && Visits(y, 0, n - 2)
  }

  /** A text that is trimmed keeps its tokens, except that a comment of nothing but two dashes at its end comes
      back as two tokens: the tokens agree if and only if the text does not end that way. */
  lemma TrimKeepsTokensIff(x: string)
    requires Tokens(x).Some?
    ensures Tokens(TrimSpace(x)).Some?
    ensures Pieces(Tokens(TrimSpace(x)).value) == Pieces(Tokens(x).value) + if DashTail(x) then TWO_DASHES else []
    ensures Pieces(Tokens(TrimSpace(x)).value) == Pieces(Tokens(x).value) <==> !DashTail(x)
  {
    hide Step, Scan, Visits;
    var y := TrimLeft(x);
    TrimLeftIs(x);
    var b := |x| - |y|;
    assert x[0..b] == x[..b];
    SpacesSkipped(x, 0, b);
    ScanAfter(x, b, 0);
    TrimRightIs(y);
    var n := |TrimRight(y)|;
    assert y[..n] == TrimRight(y);
    TrimmedScan(y, n, 0);
    assert forall c <- TrimSpace(x) :: c in y && c in x by {
      assert forall c <- y[..n] :: c in y;
      assert forall c <- x[b..] :: c in x;
    }
  }

  // ---- the statements that a text splits into ----

  lemma StepSemicolon(s: string, i: nat)
    requires i < |s| && Step(s, i).Found? && Step(s, i).kind == ';'
    ensures s[i] == ';'
  {
    hide LineEnd, WordEnd, CloseAt, QuoteEnd;
  }

  /** The scan comes to the start and to the end of each of its tokens, with the rest of them ahead. */
  lemma {:induction false} ScanReaches(s: string, i: nat, k: nat)
    requires i <= |s| && Scan(s, i).Some? && k < |Scan(s, i).value|
    ensures var ts := Scan(s, i).value;
      && i <= ts[k].start < ts[k].end <= |s| && Visits(s, i, ts[k].start)
      && Scan(s, ts[k].start) == Some(ts[k..]) && Scan(s, ts[k].end) == Some(ts[k + 1..])
      && (ts[k].kind == ';' ==> s[ts[k].start] == ';')
    decreases |s| - i
  {
    hide Step;
    var ts, r := Scan(s, i).value, Step(s, i);
    var made, rest := Made(s, i, r), Scan(s, r.next).value;
    assert ts == made + rest;
    if |made| == 0 || k > 0 {
      ScanReaches(s, r.next, k - |made|);
      assert ts[k..] == rest[k - |made|..] && ts[k + 1..] == rest[k + 1 - |made|..];
    } else {
      assert ts[0] == made[0] && ts[0..] == ts && ts[1..] == rest;
      if r.kind == ';' { StepSemicolon(s, i); }
    }
  }

  /** The token `i` that ends a text cut out: a semicolon, or none when the text goes on to the end. */
  predicate Ends(source: string, ts: seq<Token>, i: nat, end: nat) {
    i <= |ts| && if i < |ts| then ts[i].kind == ';' && end == ts[i].start else end == |source|
  }

  predicate Begins(ts: seq<Token>, first: nat, start: nat) {
    first <= |ts| && start == if first == 0 then 0 else ts[first - 1].end
  }

  lemma ScanAtBegin(source: string, first: nat, start: nat)
    requires Scan(source, 0).Some? && Begins(Scan(source, 0).value, first, start)
    ensures start <= |source| && Scan(source, start) == Some(Scan(source, 0).value[first..])
  {
    var ts := Scan(source, 0).value;
    assert ts[0..] == ts;
    if first > 0 { ScanReaches(source, 0, first - 1); }
  }

  /** Up to where it ends, the text has the tokens that it has in the whole. */
  lemma FrontReads(source: string, first: nat, start: nat, i: nat, end: nat)
    requires Scan(source, 0).Some?
    requires var ts := Scan(source, 0).value; first <= i && Begins(ts, first, start) && Ends(source, ts, i, end)
    ensures start <= end <= |source| && Scan(source[..end], start) == Some(Scan(source, 0).value[first..i])
  {
    hide Scan;
    var ts := Scan(source, 0).value;
    ScanAtBegin(source, first, start);
    if i < |ts| {
      ScanReaches(source, start, i - first);
      assert ts[first..][i - first] == ts[i] && ts[first..][i - first..] == ts[i..];
      ScanBefore(source, end, start);
      assert ts[first..i] + ts[i..] == ts[first..];
      SameFront(Scan(source[..end], start).value, ts[first..i], ts[i..]);
    } else {
      assert source[..end] == source && ts[first..i] == ts[first..];
    }
  }

  /** Cut at semicolons, a text has the tokens that it has in the whole. */
  lemma CutReads(source: string, first: nat, start: nat, i: nat, end: nat)
    requires Scan(source, 0).Some?
    requires var ts := Scan(source, 0).value; first <= i && Begins(ts, first, start) && Ends(source, ts, i, end)
    ensures start <= end <= |source| && Scan(source[start..end], 0).Some?
    ensures Pieces(Scan(source[start..end], 0).value) == Pieces(Scan(source, 0).value[first..i])
  {
    hide Scan;
    FrontReads(source, first, start, i, end);
    var front := source[..end];
    ScanAfter(front, start, 0);
    assert front[start..] == source[start..end];
  }

  lemma {:induction false} StartsAtFirst(ts: seq<Token>, i: nat)
    requires i <= |ts|
    ensures Begins(ts, FirstOf(Pieces(ts), 0, i), TextStart(ts, i))
  {
    if i > 0 && ts[i - 1].kind != ';' {
      StartsAtFirst(ts, i - 1);
    }
  }

  predicate Reads(text: string, ps: seq<Piece>) {
    Tokens(text).Some? && Pieces(Tokens(text).value) == ps
  }

  lemma OneCutReads(source: string, i: nat, end: nat)
    requires Tokens(source).Some? && Ends(source, Tokens(source).value, i, end)
    ensures var ts := Tokens(source).value;
      Reads(Cut(source, TextStart(ts, i), end), Pieces(ts)[FirstOf(Pieces(ts), 0, i)..i])
  {
    hide Scan, FirstOf, TextStart;
    var ts := Tokens(source).value;
    var first, start := FirstOf(Pieces(ts), 0, i), TextStart(ts, i);
    StartsAtFirst(ts, i);
    CutReads(source, first, start, i, end);
    assert Pieces(ts[first..i]) == Pieces(ts)[first..i];
    assert forall c <- source[start..end] :: c in source;
  }

  lemma {:induction false} CutsRead(source: string, i: nat)
    requires Tokens(source).Some? && i <= |Tokens(source).value|
    ensures var ts := Tokens(source).value;
      forall k | 0 <= k < |CutsBefore(source, ts, i)| :: Reads(CutsBefore(source, ts, i)[k],
        Complete(Pieces(ts), 0, i)[k])
  {
    hide Tokens, Cut, Reads, TextStart, FirstOf;
    if i > 0 {
      var ts := Tokens(source).value;
      CutsRead(source, i - 1);
      if ts[i - 1].kind == ';' { OneCutReads(source, i - 1, ts[i - 1].start); }
    }
  }

  /** What is cut out for the k-th statement has exactly the tokens that were checked. */
  lemma CutIsChecked(source: string, k: nat)
    requires Splits(source) && k < |StatementCuts(source)|
    ensures Reads(StatementCuts(source)[k], Checked(source)[k])
  {
    hide Tokens, Cut, Reads, TextStart, FirstOf, CutsBefore, Complete;
    var ts := Tokens(source).value;
    CutsRead(source, |ts|);
    OneCutReads(source, |ts|, |source|);
  }

  /** Every statement that splitting returns lexes, and it lexes to the tokens that were checked if and only if
      what was cut out for it does not end in a comment of nothing but two dashes. */
  lemma StatementKeepsTokensIff(source: string, k: nat)
    requires Splits(source) && k < |StatementTexts(source)|
    ensures Tokens(StatementTexts(source)[k]).Some?
    ensures Checked(source)[k] <= Pieces(Tokens(StatementTexts(source)[k]).value)
    ensures Reads(StatementTexts(source)[k], Checked(source)[k]) <==> !DashTail(StatementCuts(source)[k])
  {
    hide Tokens, Splits, StatementCuts, Checked, TrimSpace, DashTail;
    CutIsChecked(source, k);
    TrimKeepsTokensIff(StatementCuts(source)[k]);
  }

  /** The same for the sections of an accepted file: what is returned for a statement has the tokens that were
      checked in the file if and only if no such comment is cut. */
  lemma FileStatementsIff(s: string, k: nat)
    requires SectionTokens(s).Some? && IsFile(SectionTokens(s).value, k)
    ensures var ts := SectionTokens(s).value; var up, down := s[..BoundaryOf(s, ts, k)], s[BoundaryOf(s, ts, k)..];
      && Splits(up) && |StatementTexts(up)| == |StatementsIn(Pieces(ts), 1, k)|
      && (forall j | 0 <= j < |StatementTexts(up)| ::
            Reads(StatementTexts(up)[j], StatementsIn(Pieces(ts), 1, k)[j]) <==> !DashTail(StatementCuts(up)[j]))
      && (down != "" ==>
            && k < |ts| && Splits(down) && |StatementTexts(down)| == |StatementsIn(Pieces(ts), k + 1, |ts|)|
            && forall j | 0 <= j < |StatementTexts(down)| ::
                 Reads(StatementTexts(down)[j], StatementsIn(Pieces(ts), k + 1, |ts|)[j]) <==>
                   !DashTail(StatementCuts(down)[j]))
  {
    hide SectionTokens, IsFile, Tokens, Splits, StatementTexts, StatementCuts, Checked, Reads, DashTail, StatementsIn;
    SectionsSplit(s, k);
    var b := BoundaryOf(s, SectionTokens(s).value, k);
    forall j | 0 <= j < |StatementTexts(s[..b])| {
      StatementKeepsTokensIff(s[..b], j);
    }
    if s[b..] != "" {
      forall j | 0 <= j < |StatementTexts(s[b..])| {
        StatementKeepsTokensIff(s[b..], j);
      }
    }
  }

  // ---- an accepted file that loses a comment ----

  const DASHED_FILE := "-- tidbgo:up\nDROP TABLE t --\n"

  lemma BlankRead(s: string, i: nat)
    requires i < |s| && Blank(s[i])
    ensures Step(s, i) == Skip(i + 1) && ScanSections(s, i) == ScanSections(s, i + 1)
  {
    JoinedTwice([], [], ScanSections(s, i + 1));
  }

  lemma WordRead(s: string, i: nat, n: nat)
    requires i < n < |s| && !WordByte(s[n]) && forall k | i <= k < n :: WordByte(s[k])
    ensures Step(s, i) == Found('w', n)
    ensures ScanSections(s, i) == Joined([Token(s[i..n], 'w', i, n)], ScanSections(s, n))
  {
    assert WordEnd(s, i + 1) == n;
  }

  lemma CommentRead(s: string, i: nat, n: nat)
    requires i < n < |s| && StartsComment(s, i) && s[n] == '\n' && forall k | i < k < n :: s[k] != '\n'
    ensures Step(s, i) == Skip(n) && LineEnd(s, i + 1) == n
  {
  }

  lemma DirectiveRead(s: string, i: nat, n: nat)
    requires i < |s| && Step(s, i) == Skip(n) && IsDirective(s, i) && OnOwnLine(s, i)
    ensures ScanSections(s, i) == Joined([Token(TrimSpace(s[i..n]), 'd', i, n)], ScanSections(s, n))
  {
    hide Step, IsDirective, OnOwnLine, TrimSpace;
  }

  lemma FileSteps()
    ensures var f := DASHED_FILE;
      |f| == 29 && Step(f, 0) == Skip(12) && LineEnd(f, 1) == 12 && Step(f, 26) == Skip(28) && LineEnd(f, 27) == 28
  {
    hide Step, LineEnd;
    CommentRead(DASHED_FILE, 0, 12);
    CommentRead(DASHED_FILE, 26, 28);
  }

  lemma FileDirectives()
    ensures var f := DASHED_FILE;
      IsDirective(f, 0) && OnOwnLine(f, 0) && TrimSpace(f[0..12]) == UP_DIRECTIVE && !IsDirective(f, 26)
  {
    hide LineEnd;
    var f := DASHED_FILE;
    FileSteps();
    assert f[0..12] == UP_DIRECTIVE && f[0..0] == "";
    assert |f[26..28]| == 2;
  }

  function FileTokens(): seq<Token> {
    [Token(UP_DIRECTIVE, 'd', 0, 12), Token("DROP", 'w', 13, 17), Token("TABLE", 'w', 18, 23), Token("t", 'w', 24, 25)]
  }

  lemma FileTail()
    ensures ScanSections(DASHED_FILE, 25) == Some([]) && Visits(DASHED_FILE, 25, 26)
  {
    var f := DASHED_FILE;
    FileSteps();
    FileDirectives();
    BlankRead(f, 25);
    BlankRead(f, 28);
    hide Step, IsDirective, OnOwnLine, TrimSpace;
    assert ScanSections(f, 29) == Some([]);
    JoinedTwice([], [], ScanSections(f, 28));
    assert Visits(f, 26, 26);
  }

  lemma FileWords()
    ensures var f := DASHED_FILE; ScanSections(f, 12) == Some(FileTokens()[1..])
  {
    hide Step, ScanSections;
    var f := DASHED_FILE;
    FileTail();
    BlankRead(f, 12);
    WordRead(f, 13, 17);
    BlankRead(f, 17);
    WordRead(f, 18, 23);
    BlankRead(f, 23);
    WordRead(f, 24, 25);
    assert f[13..17] == "DROP" && f[18..23] == "TABLE" && f[24..25] == "t";
    var ts := FileTokens();
    assert Token(f[24..25], 'w', 24, 25) == ts[3] && [ts[3]] + [] == [ts[3]];
    assert ScanSections(f, 24) == Some([ts[3]]);
    assert ScanSections(f, 18) == Some([ts[2]] + [ts[3]]);
    assert ScanSections(f, 13) == Some([ts[1]] + ([ts[2]] + [ts[3]]));
    assert [ts[1]] + ([ts[2]] + [ts[3]]) == ts[1..];
  }

  lemma FileVisits()
    ensures Visits(DASHED_FILE, 0, 26)
  {
    hide Step, ScanSections, Joined;
    var f := DASHED_FILE;
    FileSteps();
    FileTail();
    BlankRead(f, 23);
    WordRead(f, 24, 25);
    assert Visits(f, 24, 26) && Visits(f, 23, 26);
    FrontVisits(f);
  }

  lemma FrontVisits(f: string)
    requires f == DASHED_FILE && Visits(f, 23, 26)
    ensures Visits(f, 0, 26)
  {
    hide Step, ScanSections, Joined, Visits;
    FileSteps();
    BlankRead(f, 12);
    WordRead(f, 13, 17);
    BlankRead(f, 17);
    WordRead(f, 18, 23);
    VisitsNext(f, 18, 23, 26);
    VisitsNext(f, 17, 18, 26);
    VisitsNext(f, 13, 17, 26);
    VisitsNext(f, 12, 13, 26);
    VisitsNext(f, 0, 12, 26);
  }

  lemma VisitsNext(s: string, i: nat, next: nat, b: nat)
    requires i < |s| && i < b && !Step(s, i).Bad? && Step(s, i).next == next && Visits(s, next, b)
    ensures Visits(s, i, b)
  {
    hide Step;
  }

  lemma FileScans()
    ensures SectionTokens(DASHED_FILE) == Some(FileTokens())
  {
    hide Step, IsDirective, OnOwnLine, TrimSpace, ScanSections;
    FileSteps();
    FileDirectives();
    FileWords();
    DirectiveRead(DASHED_FILE, 0, 12);
    assert FileTokens() == [FileTokens()[0]] + FileTokens()[1..];
    assert '\0' !in DASHED_FILE;
  }

  lemma FileAccepted()
    ensures IsFile(FileTokens(), 4)
  {
    var ps := Pieces(FileTokens());
    var st := ps[1..4];
    assert st == [Piece('w', "DROP"), Piece('w', "TABLE"), Piece('w', "t")];
    assert Upper("DROP") == "DROP" && Upper("TABLE") == "TABLE";
    assert |Lower("DROP")| == 4 && |Lower("TABLE")| == 5 && |Lower("t")| == 1;
    assert ValidStatement(st);
    assert FirstOf(ps, 1, 1) == 1 && FirstOf(ps, 1, 2) == 1 && FirstOf(ps, 1, 3) == 1 && FirstOf(ps, 1, 4) == 1;
    assert Complete(ps, 1, 2) == [] && Complete(ps, 1, 3) == [] && Complete(ps, 1, 4) == [];
    assert StatementsIn(ps, 1, 4) == [st];
  }

  lemma FileEndsInDashes()
    ensures TrimSpace(DASHED_FILE) == DASHED_FILE[..28] && DashTail(DASHED_FILE)
  {
    hide Step;
    var f := DASHED_FILE;
    FileVisits();
    assert TrimLeft(f) == f;
    assert TrimRight(f) == f[..28];
  }

  lemma {:induction false} NoSemicolon(source: string, ts: seq<Token>, i: nat)
    requires i <= |ts| && forall k | 0 <= k < i :: ts[k].kind != ';'
    ensures FirstOf(Pieces(ts), 0, i) == 0 && TextStart(ts, i) == 0 && CutsBefore(source, ts, i) == []
  {
    if i > 0 {
      NoSemicolon(source, ts, i - 1);
    }
  }

  lemma OneStatement(source: string)
    requires Splits(source) && |Tokens(source).value| > 0
    requires forall k | 0 <= k < |Tokens(source).value| :: Tokens(source).value[k].kind != ';'
    ensures StatementTexts(source) == [TrimSpace(source)] && StatementCuts(source) == [source]
  {
    hide Tokens, TrimSpace;
    NoSemicolon(source, Tokens(source).value, |Tokens(source).value|);
    assert source[0..|source|] == source;
  }

  lemma FileSplits()
    ensures SectionTokens(DASHED_FILE).Some? && IsFile(SectionTokens(DASHED_FILE).value, 4)
    ensures BoundaryOf(DASHED_FILE, SectionTokens(DASHED_FILE).value, 4) == |DASHED_FILE| && Splits(DASHED_FILE)
    ensures StatementTexts(DASHED_FILE) == [TrimSpace(DASHED_FILE)] && StatementCuts(DASHED_FILE) == [DASHED_FILE]
  {
    var f := DASHED_FILE;
    FileScans();
    FileAccepted();
    hide SectionTokens, Tokens, IsFile, Splits, StatementTexts, StatementCuts, Checked, TrimSpace, SplitCount;
    hide StatementsIn;
    SectionsSplit(f, 4);
    assert f[..|f|] == f;
    UpTokens(f, 4);
    var kept := Tokens(f).value;
    assert Pieces(kept) == Pieces(FileTokens())[1..4];
    assert forall i | 0 <= i < |kept| :: kept[i].kind == Pieces(kept)[i].kind == 'w';
    OneStatement(f);
  }

  /** A migration file that is accepted and splits, and whose one statement comes back with other tokens than were
      checked: the dashes of its comment are read as operators. */
  lemma DashCommentComesBack()
    ensures SectionTokens(DASHED_FILE).Some? && IsFile(SectionTokens(DASHED_FILE).value, 4)
    ensures BoundaryOf(DASHED_FILE, SectionTokens(DASHED_FILE).value, 4) == |DASHED_FILE| && Splits(DASHED_FILE)
    ensures StatementTexts(DASHED_FILE) == [DASHED_FILE[..28]]
    ensures !Reads(StatementTexts(DASHED_FILE)[0], Checked(DASHED_FILE)[0])
  {
    FileSplits();
    FileEndsInDashes();
    hide SectionTokens, Tokens, IsFile, Splits, StatementTexts, StatementCuts, Checked, Reads, DashTail;
    hide TrimSpace, SplitCount;
    StatementKeepsTokensIff(DASHED_FILE, 0);
  }
}
