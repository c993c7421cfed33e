/** Migration sections and statements (migrate/sql.go:102-234, 315-331): where the up and down sections end, how a
    section splits into statements, and which statements are accepted. */
module SqlSections {
  import opened SqlValues
  import opened SqlLexer

  /** What a check sees of a token. */
  datatype Piece = Piece(kind: char, text: string)

  function Pieces(ts: seq<Token>): (ps: seq<Piece>)
    ensures |ps| == |ts|
  {
    seq(|ts|, i requires 0 <= i < |ts| => Piece(ts[i].kind, ts[i].text))
  }

  function UpperChar(c: char): char {
    if 'a' <= c <= 'z' then c - 'a' + 'A' else c
  }

  function LowerChar(c: char): char {
    if 'A' <= c <= 'Z' then c - 'A' + 'a' else c
  }

  function Upper(s: string): (r: string)
    ensures |r| == |s|
  {
    seq(|s|, i requires 0 <= i < |s| => UpperChar(s[i]))
  }

  function Lower(s: string): (r: string)
    ensures |r| == |s|
  {
    seq(|s|, i requires 0 <= i < |s| => LowerChar(s[i]))
  }

  /** Doubled back quotes become single ones. */
  function Unquoted(s: string): string {
    if |s| == 0 then ""
    else if |s| >= 2 && s[0] == '`' && s[1] == '`' then "`" + Unquoted(s[2..])
    else [s[0]] + Unquoted(s[1..])
  }

  function Identifier(p: Piece): string {
    if p.kind == '`' && |p.text| >= 2 then Unquoted(p.text[1..|p.text| - 1]) else p.text
  }

  // ---- executable comments ----

  function CharAt(s: string, from: nat, c: char): (n: Option<nat>)
    ensures n.Some? ==> from <= n.value < |s| && s[n.value] == c
    decreases |s| - from
  {
    if from >= |s| then None else if s[from] == c then Some(from) else CharAt(s, from + 1, c)
  }

  function AfterDigits(s: string, from: nat): (n: nat)
    ensures n >= from && (from + 2 <= |s| ==> n + 2 <= |s|)
    decreases |s| - from
  {
    if from + 2 < |s| && '0' <= s[from] <= '9' then AfterDigits(s, from + 1) else from
  }

  /** Where the SQL of an executable comment starts: after the marker, a feature in brackets, and a version. */
  function BodyStart(s: string): Option<nat> {
    var start := if "/*T!" <= s then 4 else 3;
    if start < |s| && s[start] == '[' then
      var end := CharAt(s, start, ']');
      if end.None? then None else Some(AfterDigits(s, end.value + 1))
    else Some(AfterDigits(s, start))
  }

  function Body(s: string, start: nat): (body: string)
    ensures |s| > 0 ==> |body| < |s|
  {
    if start + 2 <= |s| then s[start..|s| - 2] else ""
  }

  /** The text of an executable comment as the lexer makes it. */
  predicate CommentText(s: string) {
    Executable(s) && |s| >= 2 && s[|s| - 2] == '*' && s[|s| - 1] == '/'
  }

  /** The body is a slice of the comment, never past its close. */
  lemma BodyInside(s: string)
    requires CommentText(s) && BodyStart(s).Some?
    ensures 3 <= BodyStart(s).value <= |s| - 2
  {
    if "/*T!" <= s {
      assert s[..4] == "/*T!";
      assert |s| >= 6;
    } else {
      assert s[..3] == "/*!";
      assert |s| >= 5;
    }
  }

  // ---- accepted statements ----

  const HISTORY_TABLE := "_tidbgo_migrations"

  function TextLength(ps: seq<Piece>): nat {
    if |ps| == 0 then 0 else TextLength(ps[..|ps| - 1]) + |ps[|ps| - 1].text|
  }

  lemma {:induction false} TextLengthAt(ps: seq<Piece>, i: nat)
    requires i < |ps|
    ensures |ps[i].text| <= TextLength(ps)
  {
    if i < |ps| - 1 {
      TextLengthAt(ps[..|ps| - 1], i);
    }
  }

  lemma {:induction false} TextLengthJoins(a: seq<Piece>, b: seq<Piece>)
    ensures TextLength(a + b) == TextLength(a) + TextLength(b)
  {
    if |b| == 0 {
      assert a + b == a;
    } else {
      TextLengthJoins(a, b[..|b| - 1]);
      assert (a + b)[..|a + b| - 1] == a + b[..|b| - 1];
    }
  }

  /** The tokens of a text are no longer than the text. */
  lemma {:induction false} ScanShort(s: string, i: nat)
    requires i <= |s| && Scan(s, i).Some?
    ensures TextLength(Pieces(Scan(s, i).value)) <= |s| - i
    decreases |s| - i
  {
    hide Step;
    if i < |s| {
      var r := Step(s, i);
      ScanShort(s, r.next);
      var made, rest := Made(s, i, r), Scan(s, r.next).value;
      assert Pieces(made + rest) == Pieces(made) + Pieces(rest);
      TextLengthJoins(Pieces(made), Pieces(rest));
      assert |made| == 1 ==> Pieces(made)[..0] == [];
    }
  }

  predicate ReservedName(name: string) {
    name == HISTORY_TABLE || name == "get_lock" || name == "release_lock" || name == "release_all_locks"
  }

  lemma AllShort(s: string)
    requires Tokens(s).Some?
    ensures forall p <- Pieces(Tokens(s).value) :: |p.text| <= |s|
  {
    ScanShort(s, 0);
    var ps := Pieces(Tokens(s).value);
    forall p <- ps
      ensures |p.text| <= |s|
    {
      var i :| 0 <= i < |ps| && ps[i] == p;
      TextLengthAt(ps, i);
    }
  }

  /** A name of the migration state or of a locking function, also inside an executable comment, or such a
      comment that does not lex. */
  predicate Reserved(p: Piece)
    decreases |p.text|
  {
    if p.kind == 'e' && p.text != "" then
      var start := BodyStart(p.text);
      if start.None? then true
      else
        var body := Body(p.text, start.value);
        if Tokens(body).None? then true
        else AllShort(body); exists q <- Pieces(Tokens(body).value) :: Reserved(q)
    else (p.kind == 'w' || p.kind == '`') && ReservedName(Lower(Identifier(p)))
  }

  predicate SupportedVerb(first: string, second: string) {
    if first == "CREATE" then second in {"TABLE", "INDEX", "UNIQUE", "VECTOR"}
    else if first == "ALTER" || first == "RENAME" then second == "TABLE"
    else if first == "DROP" then second in {"TABLE", "INDEX"}
    else first in {"TRUNCATE", "INSERT", "UPDATE", "DELETE", "REPLACE"}
  }

  predicate ValidStatement(ps: seq<Piece>) {
    |ps| >= 2 && ps[0].kind == 'w' && SupportedVerb(Upper(ps[0].text),
      Upper(ps[1].text)) && forall p <- ps :: !Reserved(p)
  }

  // ---- splitting at semicolons ----

  /** Where the statement that is open at `i` starts, when splitting begins at `base`. */
  function FirstOf(ps: seq<Piece>, base: nat, i: nat): (first: nat)
    requires base <= i <= |ps|
    ensures base <= first <= i
  {
    if i == base then base else if ps[i - 1].kind == ';' then i else FirstOf(ps, base, i - 1)
  }

  /** The statements between `base` and `i` that a semicolon ends. */
  function Complete(ps: seq<Piece>, base: nat, i: nat): seq<seq<Piece>>
    requires base <= i <= |ps|
  {
    if i == base then []
    else
      Complete(ps, base, i - 1) +
      if ps[i - 1].kind == ';' && FirstOf(ps, base, i - 1) < i - 1 then [ps[FirstOf(ps, base, i - 1)..i - 1]] else []
  }

  /** With the last one, which needs no semicolon. */
  function StatementsIn(ps: seq<Piece>, base: nat, end: nat): seq<seq<Piece>>
    requires base <= end <= |ps|
  {
    Complete(ps, base, end) + if FirstOf(ps, base, end) < end then [ps[FirstOf(ps, base, end)..end]] else []
  }

  predicate AllValid(statements: seq<seq<Piece>>) {
    forall st <- statements :: ValidStatement(st)
  }

  /** A text splits when it lexes and each of its statements is accepted. */
  predicate Splits(s: string) {
    Tokens(s).Some? && AllValid(Checked(s))
  }

  /** The statements of a text as they are checked. */
  function Checked(s: string): seq<seq<Piece>>
    requires Tokens(s).Some?
  {
    StatementsIn(Pieces(Tokens(s).value), 0, |Tokens(s).value|)
  }

  function SplitCount(s: string): nat
    requires Splits(s)
  {
    |Checked(s)|
  }

  lemma AllValidGrows(a: seq<seq<Piece>>, b: seq<Piece>)
    ensures AllValid(a + [b]) <==> AllValid(a) && ValidStatement(b)
  {
    assert b in a + [b];
    assert forall st :: st in a + [b] <==> st in a || st == b;
  }

  lemma {:induction false} NeverValid(ps: seq<Piece>, base: nat, i: nat, end: nat)
    requires base <= i <= end <= |ps| && !AllValid(Complete(ps, base, i))
    ensures !AllValid(Complete(ps, base, end)) && !AllValid(StatementsIn(ps, base, end))
  {
    hide ValidStatement;
    if i < end {
      NeverValid(ps, base, i, end - 1);
      assert forall st <- Complete(ps, base, end - 1) :: st in Complete(ps, base, end);
    }
    assert forall st <- Complete(ps, base, end) :: st in StatementsIn(ps, base, end);
  }

  /** Tokens are slices of the text, one after another. */
  ghost predicate Placed(s: string, ts: seq<Token>, from: nat) {
    && (forall i | 0 <= i < |ts| :: from <= ts[i].start < ts[i].end <= |s|)
    && forall i, j | 0 <= i < j < |ts| :: ts[i].end <= ts[j].start
  }

  lemma {:induction false} ScanPlaced(s: string, i: nat)
    requires i <= |s| && Scan(s, i).Some?
    ensures Placed(s, Scan(s, i).value, i)
    decreases |s| - i
  {
    hide Step;
    if i < |s| {
      ScanPlaced(s, Step(s, i).next);
    }
  }

  lemma TokensPlaced(s: string)
    requires Tokens(s).Some?
    ensures Placed(s, Tokens(s).value, 0)
  {
    ScanPlaced(s, 0);
  }

  lemma SplitStep(ps: seq<Piece>, base: nat, i: nat)
    requires base <= i < |ps|
    ensures FirstOf(ps, base, base) == base && Complete(ps, base, base) == []
    ensures ps[i].kind == ';' ==> FirstOf(ps, base, i + 1) == i + 1
    ensures ps[i].kind != ';' ==>
      FirstOf(ps, base, i + 1) == FirstOf(ps, base, i) && Complete(ps, base, i + 1) == Complete(ps, base, i)
    ensures ps[i].kind == ';' && FirstOf(ps, base, i) == i ==> Complete(ps, base, i + 1) == Complete(ps, base, i)
    ensures ps[i].kind == ';' && FirstOf(ps, base, i) < i ==>
      Complete(ps, base, i + 1) == Complete(ps, base, i) + [ps[FirstOf(ps, base, i)..i]]
  {
  }

  lemma SplitEnd(ps: seq<Piece>, base: nat, end: nat)
    requires base <= end <= |ps|
    ensures StatementsIn(ps, base, end) ==
      if FirstOf(ps, base, end) < end then Complete(ps, base,
        end) + [ps[FirstOf(ps, base, end)..end]] else Complete(ps, base, end)
    ensures FirstOf(ps, base, base) == base && Complete(ps, base, base) == [] && AllValid([])
  {
  }

  /** Where the text of the statement that is open before token `i` starts. */
  function TextStart(ts: seq<Token>, i: nat): nat
    requires i <= |ts|
  {
    if i == 0 then 0 else if ts[i - 1].kind == ';' then ts[i - 1].end else TextStart(ts, i - 1)
  }

  function Cut(source: string, from: nat, to: nat): string {
    if from <= to <= |source| then source[from..to] else ""
  }

  /** What is cut out for the statements that end before token `i`. */
  function CutsBefore(source: string, ts: seq<Token>, i: nat): (cuts: seq<string>)
    requires i <= |ts|
    ensures |cuts| == |Complete(Pieces(ts), 0, i)|
  {
    if i == 0 then []
    else
      CutsBefore(source, ts, i - 1) +
      if ts[i - 1].kind == ';' && FirstOf(Pieces(ts), 0, i - 1) < i - 1
      then [Cut(source, TextStart(ts, i - 1), ts[i - 1].start)] else []
  }

  /** What is cut out for each statement of a text that splits. */
  function StatementCuts(source: string): (cuts: seq<string>)
    requires Splits(source)
    ensures |cuts| == SplitCount(source)
  {
    var ts := Tokens(source).value;
    if FirstOf(Pieces(ts), 0, |ts|) < |ts|
    then CutsBefore(source, ts, |ts|) + [Cut(source, TextStart(ts, |ts|), |source|)]
    else CutsBefore(source, ts, |ts|)
  }

  function Trimmed(cuts: seq<string>): (texts: seq<string>)
    ensures |texts| == |cuts|
  {
    seq(|cuts|, i requires 0 <= i < |cuts| => TrimSpace(cuts[i]))
  }

  /** The statements of a text that splits, each trimmed of blanks. */
  function StatementTexts(source: string): (texts: seq<string>)
    requires Splits(source)
    ensures |texts| == SplitCount(source)
  {
    Trimmed(StatementCuts(source))
  }

  lemma TrimmedGrows(cuts: seq<string>, cut: string)
    ensures Trimmed(cuts + [cut]) == Trimmed(cuts) + [TrimSpace(cut)]
  {
  }

  lemma CutStep(source: string, ts: seq<Token>, i: nat)
    requires i < |ts|
    ensures TextStart(ts, i + 1) == if ts[i].kind == ';' then ts[i].end else TextStart(ts, i)
    ensures CutsBefore(source, ts, i + 1) ==
      if ts[i].kind == ';' && FirstOf(Pieces(ts), 0, i) < i
      then CutsBefore(source, ts, i) + [Cut(source, TextStart(ts, i), ts[i].start)] else CutsBefore(source, ts, i)
  {
  }

  /** Cuts a text into statements, checking each. */
  method SplitSQL(source: string) returns (result: Option<seq<string>>)
    ensures result.Some? <==> Splits(source)
    ensures result.Some? ==> result.value == StatementTexts(source)
  {
    hide Tokens, ValidStatement, Complete, FirstOf, StatementsIn, AllValid, TrimSpace, CutsBefore, TextStart, Trimmed;
    var ts := ScanTokens(source, false);
    if ts.None? {
      return None;
    }
    var tokens, ps := ts.value, Pieces(ts.value);
    TokensPlaced(source);
    SplitEnd(ps, 0, |ps|);
    NoCuts(source, tokens);
    var statements: seq<string>, start: nat, first: nat := [], 0, 0;
    for i := 0 to |tokens|
      invariant first == FirstOf(ps, 0, i) && start == TextStart(tokens, i)
      invariant AllValid(Complete(ps, 0, i)) && statements == Trimmed(CutsBefore(source, tokens, i))
      invariant start <= |source| && (i < |tokens| ==> start <= tokens[i].start)
    {
      SplitStep(ps, 0, i);
      CutStep(source, tokens, i);
      if tokens[i].kind == ';' {
        if i > first {
          AllValidGrows(Complete(ps, 0, i), ps[first..i]);
          if !ValidStatement(ps[first..i]) {
            NeverValid(ps, 0, i + 1, |tokens|);
            return None;
          }
          statements := statements + [TrimSpace(source[start..tokens[i].start])];
          TrimmedGrows(CutsBefore(source, tokens, i), source[start..tokens[i].start]);
        }
        start, first := tokens[i].end, i + 1;
      }
    }
    if first < |tokens| {
      AllValidGrows(Complete(ps, 0, |tokens|), ps[first..|tokens|]);
      if !ValidStatement(ps[first..|tokens|]) {
        return None;
      }
      statements := statements + [TrimSpace(source[start..])];
      assert source[start..] == source[start..|source|];
      TrimmedGrows(CutsBefore(source, tokens, |tokens|), source[start..]);
    }
    result := Some(statements);
  }

  lemma NoCuts(source: string, ts: seq<Token>)
    ensures CutsBefore(source, ts, 0) == [] && TextStart(ts, 0) == 0 && Trimmed([]) == []
  {
  }
}
