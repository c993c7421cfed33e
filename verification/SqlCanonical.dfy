/** The canonical text of a statement and of a snapshot (migrate/sql.go:238-313, migrate/snapshot.go:142-156). */
module SqlCanonical {
  import opened SqlValues
  import opened SqlLexer
  import opened SqlSections
  import opened SqlRelex

  // ---- what is kept ----

  predicate Allocator(text: string) {
    Upper(text) == "AUTO_INCREMENT" || Upper(text) == "AUTO_RANDOM_BASE"
  }

  predicate DecimalPiece(p: Piece) {
    p.kind == 'w' && p.text != "" && forall c <- p.text :: '0' <= c <= '9'
  }

  predicate Contains(s: string, part: string) {
    exists i :: 0 <= i <= |s| && part <= s[i..]
  }

  predicate MentionsAllocator(s: string) {
    Contains(Upper(s), "AUTO_RANDOM_BASE") || Contains(Upper(s), "AUTO_INCREMENT")
  }

  /** An allocator counter outside parentheses: three tokens that are left out. */
  predicate CounterAt(ps: seq<Piece>, i: nat, depth: int) {
    depth == 0 && i + 2 < |ps| && ps[i].kind == 'w' && Allocator(ps[i].text) && ps[i + 1].kind == '='
      && DecimalPiece(ps[i + 2])
  }

  function DepthAfter(depth: int, p: Piece): int {
    if p.kind == '(' then depth + 1 else if p.kind == ')' then depth - 1 else depth
  }

  function Shown(p: Piece): Piece {
    if p.kind == 'w' then p.(text := Upper(p.text)) else p
  }

  function Cons(p: Piece, rest: Option<seq<Piece>>): Option<seq<Piece>> {
    if rest.None? then None else Some([p] + rest.value)
  }

  /** The tokens the canonical text consists of. */
  function Kept(ps: seq<Piece>, i: nat, depth: int): Option<seq<Piece>>
    requires i <= |ps|
    decreases TextLength(ps), 1, |ps| - i
  {
    if i == |ps| then Some([])
    else if ps[i].kind == ';' then Kept(ps, i + 1, depth)
    else if CounterAt(ps, i, depth) then Kept(ps, i + 3, depth)
    else if ps[i].kind == 'e' && depth == 0 then
      TextLengthAt(ps, i);
      var cleaned := CleanComment(ps[i].text);
      if cleaned.None? then None
      else if cleaned.value == "" then Kept(ps, i + 1, depth)
      else Cons(Piece('e', cleaned.value), Kept(ps, i + 1, depth))
    else Cons(Shown(ps[i]), Kept(ps, i + 1, DepthAfter(depth, ps[i])))
  }

  /** An executable comment without allocator counters, or nothing if it holds nothing else. */
  function CleanComment(s: string): Option<string>
    decreases |s|, 0, 0
  {
    if !MentionsAllocator(s) || s == "" then Some(s)
    else
      var start := BodyStart(s);
      if start.None? then None
      else
        var body := Canonical(Body(s, start.value));
        if body.None? then None
        else if body.value == "" then Some("")
        else Some(Cut(s, 0, start.value) + " " + body.value + " */")
  }

  function KeptTokens(source: string): Option<seq<Piece>>
  {
    if Tokens(source).None? then None
    else
      ScanShort(source, 0);
      Kept(Pieces(Tokens(source).value), 0, 0)
  }

  /** Texts with a blank between them. */
  function Spaced(ps: seq<Piece>): string {
    if |ps| == 0 then "" else if |ps| == 1 then ps[0].text else ps[0].text + " " + Spaced(ps[1..])
  }

  function Canonical(source: string): Option<string>
    decreases |source|, 2, 0
  {
    if Tokens(source).None? then None
    else
      ScanShort(source, 0);
      var kept := Kept(Pieces(Tokens(source).value), 0, 0);
      if kept.None? then None else Some(Spaced(kept.value))
  }

  // ---- pieces that read back ----

  /** Nothing closes a block comment inside. */
  predicate NoClose(x: string) {
    forall k | 0 <= k < |x| - 1 :: !(x[k] == '*' && x[k + 1] == '/')
  }

  /** An executable comment as one token: it closes only at its end and holds no semicolon. */
  predicate WholeComment(t: string) {
    CommentText(t) && |t| >= 4 && NoClose(t[2..|t| - 1]) && ';' !in t
  }

  /** A quoted text as one token. */
  predicate WholeQuote(t: string, q: char) {
    IsQuote(q) && |t| >= 2 && t[0] == q && QuoteEnd(t, 1, q) == Some(|t|)
  }

  predicate AllWord(t: string) {
    t != "" && forall c <- t :: WordByte(c)
  }

  predicate Single(t: string, c: char) {
    t == [c] && !Blank(c) && c != '#' && !IsQuote(c) && !WordByte(c)
  }

  /** A piece that is one token wherever a blank or nothing follows it. */
  predicate Whole(p: Piece) {
    || (p.kind == 'w' && AllWord(p.text))
    || (p.kind == 'e' && WholeComment(p.text))
    || WholeQuote(p.text, p.kind)
    || Single(p.text, p.kind)
  }

  /** Nothing, a blank or a semicolon follows. */
  predicate EndsThere(rest: string) {
    rest == "" || rest[0] == ' ' || rest[0] == ';'
  }

  lemma {:induction false} WordEndsThere(t: string, rest: string, i: nat)
    requires AllWord(t) && EndsThere(rest) && i <= |t|
    ensures WordEnd(t + rest, i) == |t|
    decreases |t| - i
  {
    if i < |t| {
      assert t[i] in t;
      WordEndsThere(t, rest, i + 1);
    }
  }

  lemma {:induction false} QuoteEndsThere(t: string, rest: string, i: nat, q: char)
    requires IsQuote(q) && EndsThere(rest) && QuoteEnd(t, i, q) == Some(|t|)
    ensures QuoteEnd(t + rest, i, q) == Some(|t|)
    decreases |t| - i
  {
    QuoteStep(t, i, q);
    QuoteStep(t + rest, i, q);
    if t[i] == '\\' && q != '`' {
      QuoteEndsThere(t, rest, i + 2, q);
    } else if t[i] != q {
      QuoteEndsThere(t, rest, i + 1, q);
    } else if i + 1 < |t| && t[i + 1] == q {
      QuoteEndsThere(t, rest, i + 2, q);
    }
  }

  lemma {:induction false} ClosesThere(t: string, rest: string, i: nat)
    requires WholeComment(t) && 2 <= i <= |t| - 2
    ensures CloseAt(t + rest, i) == Some(|t| - 2)
    decreases |t| - i
  {
    var s := t + rest;
    assert s[i] == t[i] && s[i + 1] == t[i + 1];
    if i < |t| - 2 {
      assert t[2..|t| - 1][i - 2] == t[i] && t[2..|t| - 1][i - 1] == t[i + 1];
      ClosesThere(t, rest, i + 1);
    }
  }

  /** A whole piece is read back as itself. */
  lemma PieceReads(p: Piece, rest: string)
    requires Whole(p) && EndsThere(rest)
    ensures p.text != "" && Step(p.text + rest, 0) == Found(p.kind, |p.text|)
  {
    hide LineEnd, WordEnd, CloseAt, QuoteEnd;
    var t, s := p.text, p.text + rest;
    assert s[0] == t[0];
    if p.kind == 'w' && AllWord(t) {
      assert t[0] in t;
      WordEndsThere(t, rest, 1);
    } else if p.kind == 'e' && WholeComment(t) {
      CommentReads(t, rest);
    } else if WholeQuote(t, p.kind) {
      QuoteEndsThere(t, rest, 1, p.kind);
    }
  }

  lemma CommentReads(t: string, rest: string)
    requires WholeComment(t)
    ensures Step(t + rest, 0) == Found('e', |t|)
  {
    hide CloseAt;
    var s := t + rest;
    ClosesThere(t, rest, 2);
    assert s[0..|t|] == t;
    if "/*T!" <= t {
      assert t[..4] == "/*T!";
    } else {
      assert t[..3] == "/*!";
    }
    assert s[0] == '/' && s[1] == '*';
  }

  predicate AllWhole(ps: seq<Piece>) {
    forall p <- ps :: Whole(p)
  }

  /** Reading the spaced text gives the pieces back, and then what follows is read. */
  lemma {:induction false} SpacedThen(ps: seq<Piece>, rest: string)
    requires AllWhole(ps) && |ps| > 0 && EndsThere(rest) && Scan(rest, 0).Some?
    ensures Scan(Spaced(ps) + rest, 0).Some?
    ensures Pieces(Scan(Spaced(ps) + rest, 0).value) == ps + Pieces(Scan(rest, 0).value)
  {
    hide Step, Whole, EndsThere;
    var p := ps[0];
    assert p in ps;
    if |ps| == 1 {
      PieceReads(p, rest);
      LastReads(p, rest);
      assert ps == [p];
    } else {
      var tail := ps[1..];
      assert forall q <- tail :: q in ps;
      SpacedThen(tail, rest);
      var more := Spaced(tail) + rest;
      assert Spaced(ps) + rest == p.text + (" " + more);
      BlankEnds(more);
      PieceReads(p, " " + more);
      FirstReads(p, more);
      assert ps == [p] + tail;
    }
  }

  lemma BlankEnds(more: string)
    ensures EndsThere(" " + more) && EndsThere("") && EndsThere(";" + more)
  {
  }

  lemma SpacedReads(ps: seq<Piece>)
    requires AllWhole(ps)
    ensures Scan(Spaced(ps), 0).Some? && Pieces(Scan(Spaced(ps), 0).value) == ps
  {
    if |ps| > 0 {
      assert Scan("", 0) == Some([]);
      SpacedThen(ps, "");
      assert Spaced(ps) + "" == Spaced(ps);
    }
  }

  lemma LastReads(p: Piece, rest: string)
    requires p.text != "" && Step(p.text + rest, 0) == Found(p.kind, |p.text|) && Scan(rest, 0).Some?
    ensures Scan(p.text + rest, 0).Some? && Pieces(Scan(p.text + rest, 0).value) == [p] + Pieces(Scan(rest, 0).value)
  {
    hide Step;
    var s, n := p.text + rest, |p.text|;
    assert s[n..] == rest && s[0..n] == p.text;
    ScanAfter(s, n, 0);
    PiecesJoin(Made(s, 0, Step(s, 0)), Scan(s, n).value);
  }

  lemma FirstReads(p: Piece, more: string)
    requires p.text != "" && Step(p.text + (" " + more), 0) == Found(p.kind, |p.text|) && Scan(more, 0).Some?
    ensures var s := p.text + (" " + more);
      Scan(s, 0).Some? && Pieces(Scan(s, 0).value) == [p] + Pieces(Scan(more, 0).value)
  {
    hide Step;
    var s, n := p.text + (" " + more), |p.text|;
    BlankScans(s, n);
    assert s[n + 1..] == more;
    ScanAfter(s, n + 1, 0);
    assert s[0..n] == p.text;
    PiecesJoin(Made(s, 0, Step(s, 0)), Scan(s, n).value);
  }

  lemma BlankScans(s: string, n: nat)
    requires n < |s| && s[n] == ' '
    ensures Scan(s, n) == Scan(s, n + 1)
  {
    assert Step(s, n) == Skip(n + 1);
    JoinedTwice([], [], Scan(s, n + 1));
  }

  // ---- the lexer makes whole pieces ----

  lemma SliceIn(s: string, i: nat, n: nat, c: char)
    requires i <= n <= |s| && c !in s
    ensures c !in s[i..n]
  {
  }

  lemma BlockWhole(s: string, i: nat)
    requires i + 1 < |s| && s[i] == '/' && s[i + 1] == '*' && BlockStep(s, i).Found?
    ensures WholeComment(s[i..BlockStep(s, i).next])
  {
    var close := CloseAt(s, i + 2).value;
    var t := s[i..close + 2];
    assert t[|t| - 2] == '*' && t[|t| - 1] == '/';
    var inside := t[2..|t| - 1];
    SubSlice(s, i, close + 2, 2, |t| - 1);
    forall k | 0 <= k < |inside| - 1
      ensures !(inside[k] == '*' && inside[k + 1] == '/')
    {
      assert inside[k] == s[i + 2 + k] && inside[k + 1] == s[i + 2 + k + 1];
    }
  }

  lemma QuoteWhole(s: string, i: nat)
    requires i < |s| && IsQuote(s[i]) && QuoteEnd(s, i + 1, s[i]).Some?
    ensures WholeQuote(s[i..QuoteEnd(s, i + 1, s[i]).value], s[i])
  {
    hide QuoteEnd;
    var n := QuoteEnd(s, i + 1, s[i]).value;
    QuoteBefore(s, n, i + 1, s[i]);
    QuoteAfter(s[..n], i, 1, s[i]);
    assert s[..n][i..] == s[i..n];
  }

  lemma StepWhole(s: string, i: nat)
    requires i < |s| && Step(s, i).Found?
    ensures Whole(Piece(Step(s, i).kind, s[i..Step(s, i).next]))
  {
    hide LineEnd, CloseAt, QuoteEnd, WholeComment, WholeQuote, BlockStep;
    var c := s[i];
    if c == '/' && i + 1 < |s| && s[i + 1] == '*' {
      BlockWhole(s, i);
      BlockKind(s, i);
    } else if IsQuote(c) {
      QuoteWhole(s, i);
    }
  }

  lemma BlockKind(s: string, i: nat)
    requires i + 1 < |s| && BlockStep(s, i).Found?
    ensures BlockStep(s, i).kind == 'e'
  {
  }

  /** A whole piece without NUL. */
  predicate Clean(p: Piece) {
    Whole(p) && '\0' !in p.text
  }

  predicate AllClean(ps: seq<Piece>) {
    forall p <- ps :: Clean(p)
  }

  lemma {:induction false} ScanClean(s: string, i: nat)
    requires i <= |s| && Scan(s, i).Some? && '\0' !in s
    ensures AllClean(Pieces(Scan(s, i).value))
    decreases |s| - i
  {
    hide Step, Whole;
    if i < |s| {
      var r := Step(s, i);
      ScanClean(s, r.next);
      PiecesJoin(Made(s, i, r), Scan(s, r.next).value);
      if r.Found? {
        StepWhole(s, i);
        SliceIn(s, i, r.next, '\0');
      }
    }
  }

  // ---- cleaned comments are whole again ----

  lemma NoCloseJoins(a: string, b: string)
    requires NoClose(a) && NoClose(b) && (a == "" || b == "" || a[|a| - 1] != '*' || b[0] != '/')
    ensures NoClose(a + b)
  {
    forall k | 0 <= k < |a + b| - 1
      ensures !((a + b)[k] == '*' && (a + b)[k + 1] == '/')
    {
      if k >= |a| {
        assert (a + b)[k] == b[k - |a|] && (a + b)[k + 1] == b[k + 1 - |a|];
      }
    }
  }

  lemma NoCloseSlice(x: string, i: nat, n: nat)
    requires NoClose(x) && i <= n <= |x|
    ensures NoClose(x[i..n])
  {
    forall k | 0 <= k < n - i - 1
      ensures !(x[i..n][k] == '*' && x[i..n][k + 1] == '/')
    {
      assert x[i..n][k] == x[i + k] && x[i..n][k + 1] == x[i + k + 1];
    }
  }

  /** What can stand inside an executable comment. */
  predicate Tame(p: Piece) {
    p.kind != 'e' && NoClose(p.text) && ';' !in p.text && (p.kind == 'w' ==> AllWord(p.text))
  }

  predicate AllTame(ps: seq<Piece>) {
    forall p <- ps :: Tame(p)
  }

  lemma StepTame(s: string, i: nat)
    requires i < |s| && NoClose(s) && ';' !in s && Step(s, i).Found?
    ensures Tame(Piece(Step(s, i).kind, s[i..Step(s, i).next]))
  {
    hide LineEnd, QuoteEnd, NoClose;
    NoCloseSlice(s, i, Step(s, i).next);
    SliceIn(s, i, Step(s, i).next, ';');
    if s[i] == '/' && i + 1 < |s| && s[i + 1] == '*' {
      NeverCloses(s, i + 2);
    }
  }

  lemma NeverCloses(s: string, i: nat)
    requires NoClose(s)
    ensures CloseAt(s, i) == None
  {
  }

  lemma {:induction false} ScanTame(s: string, i: nat)
    requires i <= |s| && Scan(s, i).Some? && NoClose(s) && ';' !in s
    ensures AllTame(Pieces(Scan(s, i).value))
    decreases |s| - i
  {
    hide Step, Tame;
    if i < |s| {
      var r := Step(s, i);
      ScanTame(s, r.next);
      PiecesJoin(Made(s, i, r), Scan(s, r.next).value);
      if r.Found? {
        StepTame(s, i);
      }
    }
  }

  lemma UpperWord(t: string)
    requires AllWord(t)
    ensures AllWord(Upper(t)) && NoClose(Upper(t)) && ';' !in Upper(t) && '\0' !in Upper(t)
  {
    var u := Upper(t);
    forall i | 0 <= i < |u|
      ensures WordByte(u[i])
    {
      assert t[i] in t;
    }
    assert forall c <- u :: WordByte(c);
    assert forall i | 0 <= i < |u| :: u[i] in u;
  }

  lemma {:induction false} KeptTame(ps: seq<Piece>, i: nat, depth: int)
    requires i <= |ps| && AllTame(ps)
    ensures Kept(ps, i, depth).Some? && AllTame(Kept(ps, i, depth).value)
    decreases |ps| - i
  {
    hide NoClose, AllWord, CounterAt;
    if i < |ps| {
      assert ps[i] in ps;
      if ps[i].kind == ';' {
        KeptTame(ps, i + 1, depth);
      } else if CounterAt(ps, i, depth) {
        CounterFits(ps, i, depth);
        KeptTame(ps, i + 3, depth);
      } else {
        KeptTame(ps, i + 1, DepthAfter(depth, ps[i]));
        if ps[i].kind == 'w' {
          UpperWord(ps[i].text);
        }
      }
    }
  }

  lemma CounterFits(ps: seq<Piece>, i: nat, depth: int)
    requires CounterAt(ps, i, depth)
    ensures i + 3 <= |ps|
  {
  }

  lemma {:induction false} SpacedTame(ps: seq<Piece>)
    requires AllTame(ps)
    ensures NoClose(Spaced(ps)) && ';' !in Spaced(ps)
  {
    hide NoClose, AllWord;
    NothingCloses();
    if |ps| > 0 {
      assert ps[0] in ps && forall p <- ps[1..] :: p in ps;
      if |ps| > 1 {
        SpacedTame(ps[1..]);
        BlankBetween(ps[0].text, Spaced(ps[1..]));
      }
    }
  }

  lemma NothingCloses()
    ensures NoClose("")
  {
  }

  lemma BlankBetween(a: string, b: string)
    requires NoClose(a) && NoClose(b)
    ensures NoClose(a + " " + b)
  {
    NoCloseJoins(a, " ");
    NoCloseJoins(a + " ", b);
  }

  /** The parts of a cleaned comment keep it from closing early. */
  lemma RebuiltWhole(t: string, start: nat, body: string)
    requires WholeComment(t) && BodyStart(t) == Some(start) && NoClose(body) && ';' !in body
    ensures WholeComment(Cut(t, 0, start) + " " + body + " */")
  {
    hide NoClose, AfterDigits;
    BodyInside(t);
    var c := Cut(t, 0, start) + " " + body + " */";
    NoCloseSlice(t[2..|t| - 1], 0, start - 2);
    SubSlice(t, 2, |t| - 1, 0, start - 2);
    BlankBetween(t[2..start], body);
    StarLast(t[2..start] + " " + body);
    assert c[2..|c| - 1] == t[2..start] + " " + body + " *";
    SliceIn(t, 0, start, ';');
    MarkerStays(t, start, c);
  }

  lemma StarLast(a: string)
    requires NoClose(a)
    ensures NoClose(a + " *")
  {
    NoCloseJoins(a, " *");
  }

  lemma MarkerStays(t: string, start: nat, c: string)
    requires Executable(t) && BodyStart(t) == Some(start) && start <= |t| && start <= |c| && c[..start] == t[..start]
    ensures Executable(c)
  {
    if "/*T!" <= t {
      assert t[..4] == "/*T!" && start >= 4;
      assert c[..4] == c[..start][..4] == t[..start][..4] == t[..4];
    } else {
      assert t[..3] == "/*!" && start >= 3;
      assert c[..3] == c[..start][..3] == t[..start][..3] == t[..3];
    }
  }

  /** Taking the counters out of a comment leaves nothing or a comment again. */
  lemma CleanCommentWhole(t: string)
    requires WholeComment(t) && '\0' !in t && CleanComment(t).Some? && CleanComment(t).value != ""
    ensures Clean(Piece('e', CleanComment(t).value))
  {
    hide MentionsAllocator, WholeComment, Kept, Spaced, NoClose;
    if MentionsAllocator(t) && t != "" {
      BodyLies(t);
      var start := BodyStart(t).value;
      var inner := Body(t, start);
      CanonicalTame(inner);
      RebuiltWhole(t, start, Canonical(inner).value);
      SliceIn(t, 0, start, '\0');
    }
  }

  lemma BodyLies(t: string)
    requires WholeComment(t) && '\0' !in t && BodyStart(t).Some?
    ensures var start := BodyStart(t).value;
      && 3 <= start <= |t| - 2 && Cut(t, 0, start) == t[0..start]
      && NoClose(Body(t, start)) && ';' !in Body(t, start) && '\0' !in Body(t, start)
  {
    hide NoClose, BodyStart;
    BodyInside(t);
    var start := BodyStart(t).value;
    NoCloseSlice(t[2..|t| - 1], start - 2, |t| - 4);
    SubSlice(t, 2, |t| - 1, start - 2, |t| - 4);
    SliceIn(t, start, |t| - 2, ';');
    SliceIn(t, start, |t| - 2, '\0');
  }

  lemma CanonicalTame(s: string)
    requires NoClose(s) && ';' !in s && '\0' !in s && Canonical(s).Some?
    ensures NoClose(Canonical(s).value) && ';' !in Canonical(s).value && '\0' !in Canonical(s).value
  {
    hide NoClose, Kept, Spaced;
    ScanTame(s, 0);
    ScanClean(s, 0);
    var ps := Pieces(Tokens(s).value);
    KeptTame(ps, 0, 0);
    SpacedTame(Kept(ps, 0, 0).value);
    TameClean(ps);
    KeptClean(ps, 0, 0);
    SpacedNoNul(Kept(ps, 0, 0).value);
  }

  /** No comment is cleaned on the way. */
  predicate NoComments(ps: seq<Piece>) {
    forall p <- ps :: p.kind != 'e'
  }

  lemma TameClean(ps: seq<Piece>)
    requires AllTame(ps)
    ensures NoComments(ps)
  {
  }

  lemma {:induction false} KeptClean(ps: seq<Piece>, i: nat, depth: int)
    requires i <= |ps| && AllClean(ps) && NoComments(ps) && Kept(ps, i, depth).Some?
    ensures AllClean(Kept(ps, i, depth).value)
    decreases |ps| - i
  {
    hide CounterAt, Whole;
    if i < |ps| {
      assert ps[i] in ps;
      if ps[i].kind == ';' {
        KeptClean(ps, i + 1, depth);
      } else if CounterAt(ps, i, depth) {
        CounterFits(ps, i, depth);
        KeptClean(ps, i + 3, depth);
      } else {
        KeptClean(ps, i + 1, DepthAfter(depth, ps[i]));
        ShownClean(ps[i]);
      }
    }
  }

  lemma ShownClean(p: Piece)
    requires Clean(p)
    ensures Clean(Shown(p))
  {
    if p.kind == 'w' {
      WordOnly(p);
      UpperWord(p.text);
    }
  }

  lemma WordOnly(p: Piece)
    requires Whole(p) && p.kind == 'w'
    ensures AllWord(p.text)
  {
  }

  lemma {:induction false} SpacedNoNul(ps: seq<Piece>)
    requires AllClean(ps)
    ensures '\0' !in Spaced(ps)
  {
    hide Whole;
    if |ps| > 0 {
      assert ps[0] in ps && forall p <- ps[1..] :: p in ps;
      SpacedNoNul(ps[1..]);
    }
  }

  /** Everything kept of a text is whole. */
  lemma {:induction false} KeptWhole(ps: seq<Piece>, i: nat, depth: int)
    requires i <= |ps| && AllClean(ps) && Kept(ps, i, depth).Some?
    ensures AllClean(Kept(ps, i, depth).value)
    decreases |ps| - i
  {
    hide CounterAt, Whole, CleanComment;
    if i < |ps| {
      assert ps[i] in ps;
      if ps[i].kind == ';' {
        KeptWhole(ps, i + 1, depth);
      } else if CounterAt(ps, i, depth) {
        CounterFits(ps, i, depth);
        KeptWhole(ps, i + 3, depth);
      } else if ps[i].kind == 'e' && depth == 0 {
        KeptWhole(ps, i + 1, depth);
        CommentOnly(ps[i]);
        if CleanComment(ps[i].text).value != "" {
          CleanCommentWhole(ps[i].text);
        }
      } else {
        KeptWhole(ps, i + 1, DepthAfter(depth, ps[i]));
        ShownClean(ps[i]);
      }
    }
  }

  lemma CommentOnly(p: Piece)
    requires Whole(p) && p.kind == 'e'
    ensures WholeComment(p.text)
  {
  }

  // ---- the canonical text ----

  /** Reading the canonical text back gives exactly the kept tokens, with the words in upper case. */
  lemma CanonicalReads(source: string)
    requires Canonical(source).Some?
    ensures KeptTokens(source).Some?
    ensures var out := Canonical(source).value;
      Tokens(out).Some? && Pieces(Tokens(out).value) == KeptTokens(source).value
  {
    hide Scan, Kept, Spaced, Whole;
    var ps := Pieces(Tokens(source).value);
    ScanClean(source, 0);
    KeptWhole(ps, 0, 0);
    var kept := Kept(ps, 0, 0).value;
    SpacedNoNul(kept);
    assert forall p <- kept :: Clean(p) && Whole(p);
    SpacedReads(kept);
  }

  /** Two texts have one canonical text exactly when they keep the same tokens. */
  lemma CanonicalExact(a: string, b: string)
    requires Canonical(a).Some? && Canonical(b).Some?
    ensures Canonical(a) == Canonical(b) <==> KeptTokens(a) == KeptTokens(b)
  {
    hide Tokens, Kept, Spaced;
    CanonicalReads(a);
    CanonicalReads(b);
    SpacedKept(a);
    SpacedKept(b);
  }

  lemma SpacedKept(source: string)
    requires Canonical(source).Some? && KeptTokens(source).Some?
    ensures Canonical(source).value == Spaced(KeptTokens(source).value)
  {
  }
}
