/** Why lexing a section of a migration file by itself gives the tokens it has in the file (migrate/sql.go:20-145). */
module SqlRelex {
  import opened SqlValues
  import opened SqlLexer
  import opened SqlSections
  import opened SqlMigration

  // ---- a prefix ----

  lemma {:induction false} LineEndBefore(s: string, b: nat, i: nat)
    requires i <= b <= |s| && LineEnd(s, i) <= b
    ensures LineEnd(s[..b], i) == LineEnd(s, i)
    decreases b - i
  {
    if i < b && s[i] != '\n' {
      LineEndBefore(s, b, i + 1);
    }
  }

  lemma {:induction false} WordEndBefore(s: string, b: nat, i: nat)
    requires i <= b <= |s| && WordEnd(s, i) <= b
    ensures WordEnd(s[..b], i) == WordEnd(s, i)
    decreases b - i
  {
    if i < b && WordByte(s[i]) {
      WordEndBefore(s, b, i + 1);
    }
  }

  lemma {:induction false} CloseBefore(s: string, b: nat, i: nat)
    requires b <= |s| && CloseAt(s, i).Some? && CloseAt(s, i).value + 2 <= b
    ensures CloseAt(s[..b], i) == CloseAt(s, i)
    decreases |s| - i
  {
    if !(s[i] == '*' && s[i + 1] == '/') {
      CloseBefore(s, b, i + 1);
    }
  }

  lemma {:induction false} QuoteBefore(s: string, b: nat, i: nat, q: char)
    requires b <= |s| && QuoteEnd(s, i, q).Some? && QuoteEnd(s, i, q).value <= b
    ensures QuoteEnd(s[..b], i, q) == QuoteEnd(s, i, q)
    decreases |s| - i
  {
    QuoteStep(s, i, q);
    if s[i] == '\\' && q != '`' {
      QuoteBefore(s, b, i + 2, q);
    } else if s[i] != q {
      QuoteBefore(s, b, i + 1, q);
    } else if i + 1 < |s| && s[i + 1] == q {
      QuoteBefore(s, b, i + 2, q);
    }
  }

  /** The cut leaves two dashes at the end; the line break that made them a comment is behind it. */
  predicate BareDashes(s: string, b: nat) {
    2 <= b < |s| && s[b - 2] == '-' && s[b - 1] == '-' && s[b] == '\n'
  }

  lemma BlockBefore(s: string, b: nat, i: nat)
    requires i + 1 < |s| && !BlockStep(s, i).Bad? && BlockStep(s, i).next <= b <= |s|
    ensures i + 1 < b && BlockStep(s[..b], i) == BlockStep(s, i)
  {
    hide CloseAt;
    CloseBefore(s, b, i + 2);
    assert s[..b][i..CloseAt(s, i + 2).value + 2] == s[i..CloseAt(s, i + 2).value + 2];
  }

  /** A step that ends before the cut is the same step there, unless it is such a comment. */
  lemma StepBefore(s: string, b: nat, i: nat)
    requires b <= |s| && i < b && !Step(s, i).Bad? && Step(s, i).next <= b
    requires !(BareDashes(s, b) && i == b - 2)
    ensures Step(s[..b], i) == Step(s, i)
  {
    hide LineEnd, WordEnd, CloseAt, QuoteEnd, BlockStep;
    var c := s[i];
    if Blank(c) {
    } else if StartsComment(s, i) {
      LineEndBefore(s, b, i + 1);
    } else if c == '/' && i + 1 < |s| && s[i + 1] == '*' {
      BlockBefore(s, b, i);
    } else if IsQuote(c) {
      QuoteBefore(s, b, i + 1, c);
    } else if WordByte(c) {
      WordEndBefore(s, b, i + 1);
    }
  }

  /** Scanning from `i` comes to `b`. */
  predicate Visits(s: string, i: nat, b: nat)
    requires i <= |s|
    decreases |s| - i
  {
    i == b || (i < b && i < |s| && !Step(s, i).Bad? && Visits(s, Step(s, i).next, b))
  }

  lemma {:induction false} VisitsForward(s: string, i: nat, b: nat)
    requires i <= |s| && Visits(s, i, b)
    ensures i <= b
    decreases |s| - i
  {
  }

  lemma NotVisited(s: string, i: nat, b: nat)
    requires b < i <= |s|
    ensures !Visits(s, i, b)
  {
    hide Step;
  }

  /** The cut turns a comment of only two dashes into two tokens. */
  predicate LosesComment(s: string, i: nat, b: nat)
    requires i <= |s|
  {
    BareDashes(s, b) && Visits(s, i, b - 2)
  }

  function Lost(s: string, i: nat, b: nat): seq<Token>
    requires i <= |s|
  {
    if LosesComment(s, i, b) then [Token("-", '-', b - 2, b - 1), Token("-", '-', b - 1, b)] else []
  }

  /** Cut where the scan comes by, the prefix has the tokens that the whole has before `b`, and behind them two
      dashes if the cut loses a comment: the tokens of the two parts are those of the whole if and only if it does
      not. */
  lemma {:induction false} ScanBefore(s: string, b: nat, i: nat)
    requires b <= |s| && i <= b && Visits(s, i, b) && Scan(s, i).Some?
    ensures Scan(s, b).Some? && Scan(s[..b], i).Some?
    ensures var all, rest, part := Scan(s, i).value, Scan(s, b).value, Scan(s[..b], i).value;
      && |rest| <= |all| && all == all[..|all| - |rest|] + rest && part == all[..|all| - |rest|] + Lost(s, i, b)
      && (all == part + rest <==> !LosesComment(s, i, b))
    decreases b - i
  {
    hide Step, BareDashes;
    if i == b {
      NothingLost(s, b);
    } else if BareDashes(s, b) && i == b - 2 {
      DashesLost(s, b);
    } else {
      var next := Step(s, i).next;
      VisitsForward(s, next, b);
      StepBefore(s, b, i);
      ScanBefore(s, b, next);
      LostNext(s, i, b);
      assert s[..b][i..next] == s[i..next];
      PartsGrow(Made(s, i, Step(s, i)), Scan(s, next).value, Scan(s, b).value, Scan(s[..b], next).value, Lost(s, i, b));
    }
  }

  lemma PartsGrow(made: seq<Token>, all: seq<Token>, rest: seq<Token>, part: seq<Token>, lost: seq<Token>)
    requires |rest| <= |all| && all == all[..|all| - |rest|] + rest && part == all[..|all| - |rest|] + lost
    ensures var more := made + all;
      && more == more[..|more| - |rest|] + rest && made + part == more[..|more| - |rest|] + lost
      && (more == made + part + rest <==> lost == [])
  {
    var n := |all| - |rest|;
    assert (made + all)[..|made + all| - |rest|] == made + all[..n];
    if lost != [] {
      assert |made + part + rest| > |made + all|;
    }
  }

  lemma NothingLost(s: string, b: nat)
    requires b <= |s| && Scan(s, b).Some?
    ensures Scan(s[..b], b) == Some([]) && !LosesComment(s, b, b)
  {
    if b >= 2 { NotVisited(s, b, b - 2); }
  }

  lemma LostNext(s: string, i: nat, b: nat)
    requires i < b <= |s| && !Step(s, i).Bad? && !(BareDashes(s, b) && i == b - 2)
    ensures LosesComment(s, i, b) <==> LosesComment(s, Step(s, i).next, b)
  {
    hide Step;
    if b >= 2 && i > b - 2 {
      NotVisited(s, i, b - 2);
      NotVisited(s, Step(s, i).next, b - 2);
    }
  }

  lemma DashesLost(s: string, b: nat)
    requires BareDashes(s, b) && Scan(s, b - 2).Some?
    ensures LosesComment(s, b - 2, b) && Scan(s, b).Some? && Scan(s, b - 2) == Scan(s, b)
    ensures Scan(s[..b], b - 2) == Some(Lost(s, b - 2, b))
  {
    var part := s[..b];
    assert LineEnd(s, b) == b;
    assert Step(s, b - 2) == Skip(b);
    assert Step(part, b - 2) == Found('-', b - 1) && Step(part, b - 1) == Found('-', b);
    hide Step;
    assert part[b - 2..b - 1] == "-" && part[b - 1..b] == "-";
    var first, second := Token("-", '-', b - 2, b - 1), Token("-", '-', b - 1, b);
    assert Scan(part, b) == Some([]) && Made(part, b - 1, Found('-', b)) == [second] == [second] + [];
    assert Scan(part, b - 1) == Some([second]);
    assert Made(part, b - 2, Found('-', b - 1)) == [first] && [first] + [second] == [first, second];
    JoinedTwice([], [], Scan(s, b));
  }

  // ---- a suffix ----

  lemma {:induction false} LineEndAfter(s: string, b: nat, i: nat)
    requires b + i <= |s|
    ensures LineEnd(s[b..], i) == LineEnd(s, b + i) - b
    decreases |s| - b - i
  {
    if b + i < |s| && s[b + i] != '\n' {
      LineEndAfter(s, b, i + 1);
    }
  }

  lemma {:induction false} WordEndAfter(s: string, b: nat, i: nat)
    requires b + i <= |s|
    ensures WordEnd(s[b..], i) == WordEnd(s, b + i) - b
    decreases |s| - b - i
  {
    if b + i < |s| && WordByte(s[b + i]) {
      WordEndAfter(s, b, i + 1);
    }
  }

  lemma {:induction false} CloseAfter(s: string, b: nat, i: nat)
    requires b <= |s|
    ensures CloseAt(s, b + i).None? <==> CloseAt(s[b..], i).None?
    ensures CloseAt(s, b + i).Some? ==> CloseAt(s, b + i).value == b + CloseAt(s[b..], i).value
    decreases |s| - i
  {
    if b + i + 1 < |s| && !(s[b + i] == '*' && s[b + i + 1] == '/') {
      CloseAfter(s, b, i + 1);
    }
  }

  lemma {:induction false} QuoteAfter(s: string, b: nat, i: nat, q: char)
    requires b <= |s|
    ensures QuoteEnd(s, b + i, q).None? <==> QuoteEnd(s[b..], i, q).None?
    ensures QuoteEnd(s, b + i, q).Some? ==> QuoteEnd(s, b + i, q).value == b + QuoteEnd(s[b..], i, q).value
    decreases |s| - i
  {
    if b + i < |s| {
      QuoteStep(s, b + i, q);
      QuoteStep(s[b..], i, q);
      if s[b + i] == '\\' && q != '`' {
        QuoteAfter(s, b, i + 2, q);
      } else if s[b + i] != q {
        QuoteAfter(s, b, i + 1, q);
      } else if b + i + 1 < |s| && s[b + i + 1] == q {
        QuoteAfter(s, b, i + 2, q);
      }
    }
  }

  /** A step in the suffix is the step in the whole, `b` places back. */
  ghost predicate Shifted(whole: Lexed, part: Lexed, b: nat) {
    match whole
    case Bad => part == Bad
    case Skip(next) => part.Skip? && next == b + part.next
    case Found(kind, next) => part.Found? && part.kind == kind && next == b + part.next
  }

  lemma SubSlice<T>(s: seq<T>, b: nat, end: nat, x: nat, y: nat)
    requires b <= end <= |s| && x <= y <= end - b
    ensures s[b..end][x..y] == s[b + x..b + y]
  {
    var part := s[b..end];
    assert |part[x..y]| == |s[b + x..b + y]|;
    forall k | 0 <= k < y - x
      ensures part[x..y][k] == s[b + x..b + y][k]
    {
      assert part[x..y][k] == part[x + k] == s[b + x + k];
    }
  }

  lemma BlockAfter(s: string, b: nat, i: nat)
    requires b + i + 1 < |s|
    ensures Shifted(BlockStep(s, b + i), BlockStep(s[b..], i), b)
  {
    hide CloseAt, Executable;
    CloseAfter(s, b, i + 2);
    if CloseAt(s, b + i + 2).Some? {
      SubSlice(s, b, |s|, i, CloseAt(s[b..], i + 2).value + 2);
      assert s[b..|s|] == s[b..];
    }
  }

  lemma StepAfter(s: string, b: nat, i: nat)
    requires b + i < |s|
    ensures Shifted(Step(s, b + i), Step(s[b..], i), b)
  {
    hide LineEnd, WordEnd, CloseAt, QuoteEnd, BlockStep, WordByte, IsQuote;
    var c, part := s[b + i], s[b..];
    assert part[i] == c && |part| == |s| - b;
    assert i + 1 < |part| ==> part[i + 1] == s[b + i + 1];
    assert i + 2 < |part| ==> part[i + 2] == s[b + i + 2];
    if Blank(c) {
    } else if StartsComment(s, b + i) {
      LineEndAfter(s, b, i + 1);
    } else if c == '/' && b + i + 1 < |s| && s[b + i + 1] == '*' {
      BlockAfter(s, b, i);
    } else if IsQuote(c) {
      QuoteAfter(s, b, i + 1, c);
    } else if WordByte(c) {
      WordEndAfter(s, b, i + 1);
    }
  }

  lemma {:induction false} ScanAfter(s: string, b: nat, i: nat)
    requires b + i <= |s|
    ensures Scan(s[b..], i).Some? <==> Scan(s, b + i).Some?
    ensures Scan(s, b + i).Some? ==> Pieces(Scan(s[b..], i).value) == Pieces(Scan(s, b + i).value)
    decreases |s| - b - i
  {
    hide Step;
    if b + i < |s| {
      StepAfter(s, b, i);
      var whole, part := Step(s, b + i), Step(s[b..], i);
      if !part.Bad? {
        ScanAfter(s, b, part.next);
        if Scan(s, whole.next).Some? {
          SubSlice(s, b, |s|, i, part.next);
          assert s[b..|s|] == s[b..];
          PiecesJoin(Made(s, b + i, whole), Scan(s, whole.next).value);
          PiecesJoin(Made(s[b..], i, part), Scan(s[b..], part.next).value);
        }
      }
    }
  }

  lemma PiecesJoin(a: seq<Token>, b: seq<Token>)
    ensures Pieces(a + b) == Pieces(a) + Pieces(b)
  {
  }

  // ---- directives are comments to the plain lexer ----

  function Plain(ts: seq<Token>): seq<Token> {
    if |ts| == 0 then [] else Plain(ts[..|ts| - 1]) + if ts[|ts| - 1].kind == 'd' then [] else [ts[|ts| - 1]]
  }

  lemma {:induction false} PlainJoins(a: seq<Token>, b: seq<Token>)
    ensures Plain(a + b) == Plain(a) + Plain(b)
  {
    if |b| == 0 {
      assert a + b == a;
    } else {
      PlainJoins(a, b[..|b| - 1]);
      assert (a + b)[..|a + b| - 1] == a + b[..|b| - 1];
    }
  }

  lemma {:induction false} PlainSame(ts: seq<Token>)
    requires forall t <- ts :: t.kind != 'd'
    ensures Plain(ts) == ts
  {
    if |ts| > 0 {
      var n := |ts| - 1;
      PlainSame(ts[..n]);
      assert ts[n] in ts && ts == ts[..n] + [ts[n]];
    }
  }

  lemma StepKind(s: string, i: nat)
    requires i < |s|
    ensures Step(s, i).Found? ==> Step(s, i).kind != 'd'
    ensures IsDirective(s, i) ==> Step(s, i).Skip? && s[i] == '-'
  {
    hide LineEnd, WordEnd, CloseAt, QuoteEnd;
    if IsDirective(s, i) {
      assert s[i..LineEnd(s, i + 1)][0] == DIRECTIVE[0];
    }
  }

  lemma {:induction false} PlainScan(s: string, i: nat)
    requires i <= |s| && ScanSections(s, i).Some?
    ensures Scan(s, i) == Some(Plain(ScanSections(s, i).value))
    decreases |s| - i
  {
    hide Step, IsDirective, OnOwnLine, TrimSpace;
    if i < |s| {
      var r := Step(s, i);
      StepKind(s, i);
      PlainScan(s, r.next);
      MadePlain(s, i);
      PlainJoins(MadeInSections(s, i, r), ScanSections(s, r.next).value);
    }
  }

  lemma MadePlain(s: string, i: nat)
    requires i < |s| && !Step(s, i).Bad?
    ensures Plain(MadeInSections(s, i, Step(s, i))) == Made(s, i, Step(s, i))
  {
    hide Step, IsDirective, TrimSpace;
    StepKind(s, i);
    var made := MadeInSections(s, i, Step(s, i));
    assert |made| == 1 ==> made[..0] == [];
  }

  /** The scan of a file comes to each of its tokens, and goes on from there with the rest of them. */
  lemma {:induction false} ReachesToken(s: string, i: nat, k: nat)
    requires i <= |s| && ScanSections(s, i).Some? && k < |ScanSections(s, i).value|
    ensures var ts := ScanSections(s, i).value;
      && i <= ts[k].start <= |s| && Visits(s, i, ts[k].start)
      && ScanSections(s, ts[k].start) == Some(ts[k..])
    decreases |s| - i
  {
    hide Step, IsDirective, OnOwnLine, TrimSpace;
    var ts, r := ScanSections(s, i).value, Step(s, i);
    var made, rest := MadeInSections(s, i, r), ScanSections(s, r.next).value;
    assert ts == made + rest;
    if |made| == 0 || k > 0 {
      ReachesToken(s, r.next, k - |made|);
      assert ts[k..] == rest[k - |made|..];
    } else {
      assert ts[0] == made[0] && made[0].start == i;
      assert ts[0..] == ts;
    }
  }

  lemma DirectiveDash(s: string, b: nat)
    requires b < |s| && ScanSections(s, b).Some? && |ScanSections(s, b).value| > 0
    requires var t := ScanSections(s, b).value[0]; t.kind == 'd' && t.start == b
    ensures s[b] == '-'
  {
    hide Step, LineEnd, TrimSpace;
    StepKind(s, b);
    SectionsPlaced(s, Step(s, b).next);
  }

  // ---- statements of a slice ----

  lemma {:induction false} SliceStatements(ps: seq<Piece>, base: nat, end: nat, j: nat)
    requires base <= end <= |ps| && j <= end - base
    ensures FirstOf(ps[base..end], 0, j) == FirstOf(ps, base, base + j) - base
    ensures Complete(ps[base..end], 0, j) == Complete(ps, base, base + j)
    decreases j
  {
    hide FirstOf, Complete;
    var part := ps[base..end];
    SplitEnd(part, 0, 0);
    SplitEnd(ps, base, base);
    if j > 0 {
      SliceStatements(ps, base, end, j - 1);
      SplitStep(part, 0, j - 1);
      SplitStep(ps, base, base + j - 1);
      SubSlice(ps, base, end, FirstOf(part, 0, j - 1), j - 1);
    }
  }

  lemma SliceSplits(ps: seq<Piece>, base: nat, end: nat)
    requires base <= end <= |ps|
    ensures StatementsIn(ps[base..end], 0, end - base) == StatementsIn(ps, base, end)
  {
    hide Complete, FirstOf;
    SliceStatements(ps, base, end, end - base);
    var first := FirstOf(ps, base, end);
    SubSlice(ps, base, end, first - base, end - base);
  }

  // ---- the sections by themselves ----

  lemma UpTokens(s: string, k: nat)
    requires SectionTokens(s).Some? && IsFile(SectionTokens(s).value, k)
    ensures var ts := SectionTokens(s).value; var up := s[..BoundaryOf(s, ts, k)];
      Tokens(up).Some? && Pieces(Tokens(up).value) == Pieces(ts)[1..k]
  {
    hide Scan, ScanSections, SectionValid, FirstOf, Plain;
    var ts := ScanSections(s, 0).value;
    PlainFront(ts, k);
    if k < |ts| {
      TokensBeforeDirective(s, k);
    } else {
      PlainScan(s, 0);
      assert s[..|s|] == s && ts[..k] == ts;
    }
    assert Pieces(ts[1..k]) == Pieces(ts)[1..k];
  }

  lemma TokensBeforeDirective(s: string, k: nat)
    requires SectionTokens(s).Some? && k < |SectionTokens(s).value| && SectionTokens(s).value[k].kind == 'd'
    ensures var ts := SectionTokens(s).value;
      ts[k].start <= |s| && Tokens(s[..ts[k].start]) == Some(Plain(ts[..k]))
  {
    hide Step, Scan, ScanSections, Plain, Visits;
    var ts := ScanSections(s, 0).value;
    var b := ts[k].start;
    PlainScan(s, 0);
    SectionsPlaced(s, 0);
    ReachesToken(s, 0, k);
    assert ts[k..][0] == ts[k];
    DirectiveDash(s, b);
    ScanBefore(s, b, 0);
    PlainScan(s, b);
    PlainJoins(ts[..k], ts[k..]);
    assert ts == ts[..k] + ts[k..];
    assert forall c <- s[..b] :: c in s;
    SameFront(Scan(s[..b], 0).value, Plain(ts[..k]), Plain(ts[k..]));
  }

  lemma SameFront(a: seq<Token>, b: seq<Token>, rest: seq<Token>)
    requires a + rest == b + rest
    ensures a == b
  {
    assert |a + rest| == |b + rest|;
    assert a == (a + rest)[..|a|] && b == (b + rest)[..|b|];
  }

  lemma PlainFront(ts: seq<Token>, k: nat)
    requires 1 <= k <= |ts| && ts[0].kind == 'd' && forall i | 1 <= i < k :: ts[i].kind != 'd'
    ensures Plain(ts[..k]) == ts[1..k]
  {
    PlainJoins([ts[0]], ts[1..k]);
    assert [ts[0]] + ts[1..k] == ts[..k];
    assert [ts[0]][..0] == [];
    PlainSame(ts[1..k]);
  }

  lemma DownTokens(s: string, k: nat)
    requires SectionTokens(s).Some? && IsFile(SectionTokens(s).value, k) && k < |SectionTokens(s).value|
    ensures var ts := SectionTokens(s).value; var down := s[BoundaryOf(s, ts, k)..];
      Tokens(down).Some? && Pieces(Tokens(down).value) == Pieces(ts)[k + 1..|ts|]
  {
    hide Step, ScanSections, SectionValid, FirstOf, TrimSpace;
    var ts := ScanSections(s, 0).value;
    SectionsPlaced(s, 0);
    var b := ts[k].start;
    ReachesToken(s, 0, k);
    PlainScan(s, b);
    ScanAfter(s, b, 0);
    PlainBack(ts, k);
    assert forall c <- s[b..] :: c in s;
    assert Pieces(ts[k + 1..]) == Pieces(ts)[k + 1..|ts|];
  }

  lemma PlainBack(ts: seq<Token>, k: nat)
    requires k < |ts| && ts[k].kind == 'd' && forall i | k < i < |ts| :: ts[i].kind != 'd'
    ensures Plain(ts[k..]) == ts[k + 1..]
  {
    PlainJoins([ts[k]], ts[k + 1..]);
    assert [ts[k]] + ts[k + 1..] == ts[k..];
    assert [ts[k]][..0] == [];
    PlainSame(ts[k + 1..]);
  }

  /** The sections of an accepted file are accepted by themselves: each splits without error into exactly the
      statements that were checked in the file, token by token, and there is at least one. */
  lemma SectionsSplit(s: string, k: nat)
    requires SectionTokens(s).Some? && IsFile(SectionTokens(s).value, k)
    ensures var ts := SectionTokens(s).value; var up, down := s[..BoundaryOf(s, ts, k)], s[BoundaryOf(s, ts, k)..];
      && up + down == s
      && Splits(up) && Checked(up) == StatementsIn(Pieces(ts), 1, k) && SplitCount(up) >= 1
      && (down != "" ==>
            k < |ts| && Splits(down) && Checked(down) == StatementsIn(Pieces(ts), k + 1, |ts|) && SplitCount(down) >= 1)
  {
    hide Tokens, ScanSections, StatementsIn, AllValid, FirstOf, Complete, ValidStatement;
    var ts := SectionTokens(s).value;
    UpTokens(s, k);
    SliceSplits(Pieces(ts), 1, k);
    if k < |ts| {
      DownTokens(s, k);
      SliceSplits(Pieces(ts), k + 1, |ts|);
    }
  }

  /** What MigrationParts returns can be split, section by section. */
  lemma PartsSplit(source: string, up: string, down: string)
    requires SectionTokens(source).Some? && SplitBy(source, up) && up + down == source
    ensures Splits(up) && SplitCount(up) >= 1
    ensures down != "" ==> Splits(down) && SplitCount(down) >= 1
  {
    hide SectionTokens, Tokens, StatementsIn, IsFile, AllValid;
    var ts := SectionTokens(source).value;
    var k: nat :| IsFile(ts, k) && up == source[..BoundaryOf(source, ts, k)];
    SectionsSplit(source, k);
    assert down == source[|up|..];
    assert |up| == BoundaryOf(source, ts, k);
  }
}
