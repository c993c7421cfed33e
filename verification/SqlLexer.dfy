/** The migration lexer (migrate/sql.go:8-100): tokens with their places, quoted values and executable comments
    kept whole, other comments and blanks skipped. Bytes of 128 and above are single characters here. */
module SqlLexer {
  import opened SqlValues

  datatype Token = Token(text: string, kind: char, start: nat, end: nat)

  predicate Blank(c: char) {
    c <= ' '
  }

  predicate WordByte(c: char) {
    'a' <= c <= 'z' || 'A' <= c <= 'Z' || '0' <= c <= '9' || c == '_' || c == '$' || c >= 128 as char
  }

  predicate IsQuote(c: char) {
    c == '\'' || c == '"' || c == '`'
  }

  // ---- where things end ----

  function LineEnd(s: string, i: nat): (n: nat)
    requires i <= |s|
    ensures i <= n <= |s| && (n < |s| ==> s[n] == '\n') && forall k | i <= k < n :: s[k] != '\n'
    decreases |s| - i
  {
    if i == |s| || s[i] == '\n' then i else LineEnd(s, i + 1)
  }

  function WordEnd(s: string, i: nat): (n: nat)
    requires i <= |s|
    ensures i <= n <= |s| && (n < |s| ==> !WordByte(s[n])) && forall k | i <= k < n :: WordByte(s[k])
    decreases |s| - i
  {
    if i == |s| || !WordByte(s[i]) then i else WordEnd(s, i + 1)
  }

  /** The place of the next close of a block comment. */
  function CloseAt(s: string, i: nat): (n: Option<nat>)
    ensures n.Some? ==> i <= n.value && n.value + 1 < |s| && s[n.value] == '*' && s[n.value + 1] == '/'
    ensures n.Some? ==> forall k | i <= k < n.value :: !(s[k] == '*' && s[k + 1] == '/')
    ensures n.None? ==> forall k | i <= k < |s| - 1 :: !(s[k] == '*' && s[k + 1] == '/')
    decreases |s| - i
  {
    if i + 1 >= |s| then None
    else if s[i] == '*' && s[i + 1] == '/' then Some(i)
    else CloseAt(s, i + 1)
  }

  /** The place after the close of a quote: a doubled quote, and outside back quotes an escape, stay inside. */
  function QuoteEnd(s: string, i: nat, q: char): (n: Option<nat>)
    ensures n.Some? ==> i < n.value <= |s|
    decreases |s| - i
  {
    if i >= |s| then None
    else if s[i] == '\\' && q != '`' then QuoteEnd(s, i + 2, q)
    else if s[i] != q then QuoteEnd(s, i + 1, q)
    else if i + 1 < |s| && s[i + 1] == q then QuoteEnd(s, i + 2, q)
    else Some(i + 1)
  }

  // ---- one step ----

  datatype Lexed = Bad | Skip(next: nat) | Found(kind: char, next: nat)

  predicate StartsComment(s: string, i: nat)
    requires i < |s|
  {
    s[i] == '#' || (s[i] == '-' && i + 2 < |s| && s[i + 1] == '-' && Blank(s[i + 2]))
  }

  predicate Executable(text: string) {
    "/*!" <= text || "/*T!" <= text
  }

  function BlockStep(s: string, i: nat): (r: Lexed)
    requires i + 1 < |s|
    ensures !r.Bad? ==> i < r.next <= |s|
  {
    var close := CloseAt(s, i + 2);
    if close.None? then Bad
    else
      var end := close.value + 2;
      if !Executable(s[i..end]) then Skip(end)
      else if ';' in s[i..end] then Bad
      else Found('e', end)
  }

  function Step(s: string, i: nat): (r: Lexed)
    requires i < |s|
    ensures !r.Bad? ==> i < r.next <= |s|
  {
    var c := s[i];
    if Blank(c) then Skip(i + 1)
    else if StartsComment(s, i) then Skip(LineEnd(s, i + 1))
    else if c == '/' && i + 1 < |s| && s[i + 1] == '*' then BlockStep(s, i)
    else if IsQuote(c) then
      var end := QuoteEnd(s, i + 1, c);
      if end.None? then Bad else Found(c, end.value)
    else if WordByte(c) then Found('w', WordEnd(s, i + 1))
    else Found(c, i + 1)
  }

  // ---- directives ----

  const DIRECTIVE := "-- tidbgo:"

  predicate Space(c: char) {
    c == ' ' || '\t' <= c <= '\r'
  }

  function TrimLeft(s: string): string {
    if s == "" || !Space(s[0]) then s else TrimLeft(s[1..])
  }

  function TrimRight(s: string): string {
    if s == "" || !Space(s[|s| - 1]) then s else TrimRight(s[..|s| - 1])
  }

  function TrimSpace(s: string): string {
    TrimRight(TrimLeft(s))
  }

  function LineStart(s: string, i: nat): (n: nat)
    requires i <= |s|
    ensures n <= i && (n > 0 ==> s[n - 1] == '\n')
  {
    if i == 0 || s[i - 1] == '\n' then i else LineStart(s, i - 1)
  }

  predicate IsDirective(s: string, i: nat)
    requires i < |s|
  {
    StartsComment(s, i) && DIRECTIVE <= s[i..LineEnd(s, i + 1)]
  }

  predicate OnOwnLine(s: string, i: nat)
    requires i <= |s|
  {
    TrimSpace(s[LineStart(s, i)..i]) == ""
  }

  // ---- all tokens ----

  /** `front` and the rest, which may have failed. */
  function Joined(front: seq<Token>, rest: Option<seq<Token>>): Option<seq<Token>> {
    if rest.None? then None else Some(front + rest.value)
  }

  /** The token of a step, if it makes one. */
  function Made(s: string, i: nat, r: Lexed): (ts: seq<Token>)
    requires i < |s| && !r.Bad? && i < r.next <= |s|
    ensures |ts| <= 1
  {
    if r.Found? then [Token(s[i..r.next], r.kind, i, r.next)] else []
  }

  function MadeInSections(s: string, i: nat, r: Lexed): (ts: seq<Token>)
    requires i < |s| && !r.Bad? && i < r.next <= |s|
    ensures |ts| <= 1
  {
    if IsDirective(s, i) then [Token(TrimSpace(s[i..r.next]), 'd', i, r.next)] else Made(s, i, r)
  }

  function Scan(s: string, i: nat): Option<seq<Token>>
    requires i <= |s|
    decreases |s| - i
  {
    if i == |s| then Some([])
    else
      var r := Step(s, i);
      if r.Bad? then None else Joined(Made(s, i, r), Scan(s, r.next))
  }

  /** The same with the section directives as tokens. */
  function ScanSections(s: string, i: nat): Option<seq<Token>>
    requires i <= |s|
    decreases |s| - i
  {
    if i == |s| then Some([])
    else
      var r := Step(s, i);
      if r.Bad? || (IsDirective(s, i) && !OnOwnLine(s, i)) then None
      else Joined(MadeInSections(s, i, r), ScanSections(s, r.next))
  }

  function Tokens(s: string): Option<seq<Token>> {
    if '\0' in s then None else Scan(s, 0)
  }

  function SectionTokens(s: string): Option<seq<Token>> {
    if '\0' in s then None else ScanSections(s, 0)
  }

  // ---- the lexer as it runs ----

  lemma {:induction false} QuoteStep(s: string, i: nat, q: char)
    requires i < |s|
    ensures s[i] == '\\' && q != '`' ==> QuoteEnd(s, i, q) == QuoteEnd(s, i + 2, q)
    ensures !(s[i] == '\\' && q != '`') && s[i] != q ==> QuoteEnd(s, i, q) == QuoteEnd(s, i + 1, q)
    ensures !(s[i] == '\\' && q != '`') && s[i] == q && i + 1 < |s| && s[i + 1] == q ==>
      QuoteEnd(s, i, q) == QuoteEnd(s, i + 2, q)
    ensures !(s[i] == '\\' && q != '`') && s[i] == q && !(i + 1 < |s| && s[i + 1] == q) ==>
      QuoteEnd(s, i, q) == Some(i + 1)
  {
  }

  method ScanQuote(s: string, start: nat) returns (end: Option<nat>)
    requires start < |s| && IsQuote(s[start])
    ensures end == QuoteEnd(s, start + 1, s[start])
  {
    var c, i := s[start], start + 1;
    hide QuoteEnd;
    while i < |s|
      invariant QuoteEnd(s, start + 1, c) == QuoteEnd(s, i, c)
      decreases |s| - i
    {
      QuoteStep(s, i, c);
      if s[i] == '\\' && c != '`' {
        i := i + 2;
        continue;
      }
      if s[i] != c {
        i := i + 1;
        continue;
      }
      i := i + 1;
      if i < |s| && s[i] == c {
        i := i + 1;
        continue;
      }
      return Some(i);
    }
    NotClosed(s, i, c);
    end := None;
  }

  lemma NotClosed(s: string, i: nat, q: char)
    requires i >= |s|
    ensures QuoteEnd(s, i, q) == None
  {
  }

  /** One step of the loop: where it ends and the token it makes, if any. */
  method ScanOne(s: string, start: nat) returns (r: Lexed)
    requires start < |s|
    ensures r == Step(s, start)
  {
    var i, c := start, s[start];
    if Blank(c) {
      return Skip(i + 1);
    }
    if c == '#' || (c == '-' && i + 2 < |s| && s[i + 1] == '-' && Blank(s[i + 2])) {
      i := i + 1;
      while i < |s| && s[i] != '\n'
        invariant start < i <= |s| && LineEnd(s, start + 1) == LineEnd(s, i)
      {
        i := i + 1;
      }
      return Skip(i);
    }
    if c == '/' && i + 1 < |s| && s[i + 1] == '*' {
      var close := CloseAt(s, i + 2);
      if close.None? {
        return Bad;
      }
      i := close.value + 2;
      if Executable(s[start..i]) {
        if ';' in s[start..i] {
          return Bad;
        }
        return Found('e', i);
      }
      return Skip(i);
    }
    if IsQuote(c) {
      var end := ScanQuote(s, start);
      if end.None? {
        return Bad;
      }
      return Found(c, end.value);
    }
    if WordByte(c) {
      i := i + 1;
      while i < |s| && WordByte(s[i])
        invariant start < i <= |s| && WordEnd(s, start + 1) == WordEnd(s, i)
      {
        i := i + 1;
      }
      return Found('w', i);
    }
    r := Found(c, i + 1);
  }

  lemma JoinedTwice(a: seq<Token>, b: seq<Token>, rest: Option<seq<Token>>)
    ensures Joined(a + b, rest) == Joined(a, Joined(b, rest)) && Joined([], rest) == rest
  {
    if rest.Some? {
      assert a + b + rest.value == a + (b + rest.value) && [] + rest.value == rest.value;
    }
  }

  method ScanTokens(s: string, directives: bool) returns (result: Option<seq<Token>>)
    ensures result == if directives then SectionTokens(s) else Tokens(s)
  {
    hide Step, TrimSpace, IsDirective, OnOwnLine, Joined;
    if '\0' in s {
      return None;
    }
    var ts: seq<Token>, i := [], 0;
    JoinedTwice([], [], Scan(s, 0));
    JoinedTwice([], [], ScanSections(s, 0));
    while i < |s|
      invariant i <= |s|
      invariant !directives ==> Tokens(s) == Joined(ts, Scan(s, i))
      invariant directives ==> SectionTokens(s) == Joined(ts, ScanSections(s, i))
      decreases |s| - i
    {
      var start := i;
      var r := ScanOne(s, i);
      if r.Bad? {
        NothingJoined(ts);
        return None;
      }
      i := r.next;
      var made := [];
      if directives && IsDirective(s, start) {
        if !OnOwnLine(s, start) {
          NothingJoined(ts);
          return None;
        }
        made := [Token(TrimSpace(s[start..i]), 'd', start, i)];
      } else if r.Found? {
        made := [Token(s[start..i], r.kind, start, i)];
      }
      JoinedTwice(ts, made, Scan(s, i));
      JoinedTwice(ts, made, ScanSections(s, i));
      ts := ts + made;
    }
    AllJoined(ts);
    result := Some(ts);
  }

  lemma NothingJoined(ts: seq<Token>)
    ensures Joined(ts, None) == None
  {
  }

  lemma AllJoined(ts: seq<Token>)
    ensures Joined(ts, Some([])) == Some(ts)
  {
    assert ts + [] == ts;
  }
}
