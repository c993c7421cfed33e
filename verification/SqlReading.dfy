/** SQL as it is written, item by item, and the lexer reading it (migrate/sql.go:20-100). What a word, a quoted value
    and a comment look like is said here by themselves, character by character: a text lexes exactly when it is such a
    writing, and its tokens are the items that are not blanks or comments. */
module SqlReading {
  import opened SqlValues
  import opened SqlLexer
  import opened SqlSections
  import opened SqlRelex
  import opened SqlCanonical

  /** One character of a quoted value as it is written: itself, the quote doubled, or one behind a backslash. */
  datatype Unit = Plain(c: char) | Doubled | Escaped(c: char)

  datatype Item =
    | Name(text: string)                        // a word or a number
    | Quoted(quote: char, units: seq<Unit>)
    | Special(marker: string, body: string)     // an executable comment
    | Mark(c: char)                             // punctuation
    | Gap(c: char)                              // a blank or a control character
    | Hash(body: string)                        // comments up to the end of the line
    | Dashes(body: string)
    | Directive(stem: string, pad: string)      // a dash comment that starts as a section directive, and blanks
    | Block(body: string)

  predicate NameChar(c: char) {
    'a' <= c <= 'z' || 'A' <= c <= 'Z' || '0' <= c <= '9' || c == '_' || c == '$' || c as int >= 128
  }

  predicate QuoteChar(c: char) {
    c == '\'' || c == '"' || c == '`'
  }

  predicate PadChar(c: char) {
    c as int == 32 || 9 <= c as int <= 13
  }

  /** Only inside back quotes a backslash is a character like others. */
  predicate UnitFits(u: Unit, quote: char) {
    match u
    case Plain(c) => c != quote && (c == '\\' ==> quote == '`')
    case Doubled => true
    case Escaped(_) => quote != '`'
  }

  predicate Fits(item: Item) {
    match item
    case Name(text) => text != "" && forall c <- text :: NameChar(c)
    case Quoted(quote, units) => QuoteChar(quote) && forall u <- units :: UnitFits(u, quote)
    case Special(marker, body) => (marker == "/*!" || marker == "/*T!") && NoClose(body) && ';' !in body
    case Mark(c) => c as int > 32 && !NameChar(c) && !QuoteChar(c) && c != '#'
    case Gap(c) => c as int <= 32
    case Hash(body) => '\n' !in body
    case Dashes(body) => '\n' !in body && (body != "" ==> body[0] as int <= 32) && !(" tidbgo:" <= body)
    case Directive(stem, pad) =>
      && '\n' !in stem && '\n' !in pad && (forall c <- pad :: PadChar(c))
      && (stem != "" ==> !PadChar(stem[|stem| - 1]))
    case Block(body) => NoClose(body) && !("!" <= body) && !("T!" <= body)
  }

  /** What follows does not run into the item. */
  predicate Apart(item: Item, next: string) {
    match item
    case Name(_) => next == "" || !NameChar(next[0])
    case Quoted(quote, _) => next == "" || next[0] != quote
    case Mark(c) =>
      && (c == '-' ==> !(|next| >= 2 && next[0] == '-' && next[1] as int <= 32))
      && (c == '/' ==> next == "" || next[0] != '*')
    case Hash(_) => next == "" || next[0] == '\n'
    case Dashes(body) => (next == "" || next[0] == '\n') && (body == "" ==> next != "")
    case Directive(_, _) => next == "" || next[0] == '\n'
    case _ => true
  }

  function Inside(units: seq<Unit>, quote: char): string {
    if units == [] then ""
    else
      (match units[0]
       case Plain(c) => [c]
       case Doubled => [quote, quote]
       case Escaped(c) => ['\\', c]) + Inside(units[1..], quote)
  }

  function Literal(quote: char, units: seq<Unit>): string {
    [quote] + (Inside(units, quote) + [quote])
  }

  function Line(stem: string, pad: string): string {
    "--" + (" tidbgo:" + stem + pad)
  }

  function Written(item: Item): string {
    match item
    case Name(text) => text
    case Quoted(quote, units) => Literal(quote, units)
    case Special(marker, body) => marker + body + "*/"
    case Mark(c) => [c]
    case Gap(c) => [c]
    case Hash(body) => "#" + body
    case Dashes(body) => "--" + body
    case Directive(stem, pad) => Line(stem, pad)
    case Block(body) => "/*" + body + "*/"
  }

  function Text(items: seq<Item>): string {
    if items == [] then "" else Written(items[0]) + Text(items[1..])
  }

  predicate AllFit(items: seq<Item>) {
    items != [] ==> Fits(items[0]) && Apart(items[0], Text(items[1..])) && AllFit(items[1..])
  }

  /** The token an item is. */
  function TokenOf(item: Item): seq<Piece> {
    match item
    case Name(text) => [Piece('w', text)]
    case Quoted(quote, units) => [Piece(quote, Literal(quote, units))]
    case Special(marker, body) => [Piece('e', marker + body + "*/")]
    case Mark(c) => [Piece(c, [c])]
    case _ => []
  }

  function TokensOf(items: seq<Item>): seq<Piece> {
    if items == [] then [] else TokenOf(items[0]) + TokensOf(items[1..])
  }

  // ---- one item is one step ----

  function StepOf(item: Item): Lexed {
    var n := |Written(item)|;
    match item
    case Name(_) => Found('w', n)
    case Quoted(quote, _) => Found(quote, n)
    case Special(_, _) => Found('e', n)
    case Mark(c) => Found(c, n)
    case _ => Skip(n)
  }

  lemma {:induction false} WordEndIs(s: string, i: nat, n: nat)
    requires i <= n <= |s| && (forall k | i <= k < n :: NameChar(s[k])) && (n < |s| ==> !NameChar(s[n]))
    ensures WordEnd(s, i) == n
    decreases n - i
  {
    if i < n { WordEndIs(s, i + 1, n); }
  }

  lemma NameStep(text: string, tail: string)
    requires Fits(Name(text)) && Apart(Name(text), tail)
    ensures Step(text + tail, 0) == Found('w', |text|)
  {
    hide WordEnd, LineEnd, QuoteEnd, BlockStep;
    var s := text + tail;
    assert forall k | 0 <= k < |text| :: s[k] == text[k] && text[k] in text;
    assert |s| > |text| ==> s[|text|] == tail[0];
    WordEndIs(s, 1, |text|);
  }

  lemma {:induction false} InsideEnds(units: seq<Unit>, quote: char, s: string, i: nat, n: nat)
    requires QuoteChar(quote) && forall u <- units :: UnitFits(u, quote)
    requires i <= n <= |s| && s[i..n] == Inside(units, quote) + [quote] && (n < |s| ==> s[n] != quote)
    ensures QuoteEnd(s, i, quote) == Some(n)
    decreases |units|
  {
    hide QuoteEnd;
    QuoteStep(s, i, quote);
    var inside := s[i..n];
    assert inside == Inside(units, quote) + [quote] && inside[0] == s[i];
    if units == [] {
      assert n == i + 1;
    } else {
      var k := if units[0].Plain? then 1 else 2;
      assert units[0] in units && forall u <- units[1..] :: u in units;
      assert s[i + k..n] == inside[k..] == Inside(units[1..], quote) + [quote];
      assert k == 2 ==> s[i + 1] == inside[1];
      InsideEnds(units[1..], quote, s, i + k, n);
    }
  }

  lemma LiteralStep(quote: char, units: seq<Unit>, tail: string)
    requires Fits(Quoted(quote, units)) && Apart(Quoted(quote, units), tail)
    ensures Step(Literal(quote, units) + tail, 0) == Found(quote, |Literal(quote, units)|)
  {
    hide QuoteEnd, LineEnd, WordEnd, BlockStep;
    var s, n := Literal(quote, units) + tail, |Literal(quote, units)|;
    assert s[1..n] == Inside(units, quote) + [quote];
    assert |s| > n ==> s[n] == tail[0];
    InsideEnds(units, quote, s, 1, n);
  }

  lemma SpecialWhole(marker: string, body: string)
    requires Fits(Special(marker, body))
    ensures WholeComment(marker + body + "*/")
  {
    hide NoClose;
    var t := marker + body + "*/";
    var inner := marker[2..] + body;
    assert |marker| >= 3 && marker[0] == '/' && marker[1] == '*';
    assert t[2..|t| - 1] == inner + "*";
    MarkerKeepsOpen(marker);
    NoCloseJoins(marker[2..], body);
    StarBehind(inner);
    if marker == "/*T!" { assert t[..4] == "/*T!"; } else { assert t[..3] == "/*!"; }
  }

  lemma MarkerKeepsOpen(marker: string)
    requires marker == "/*!" || marker == "/*T!"
    ensures NoClose(marker[2..]) && marker[|marker| - 1] == '!'
  {
  }

  lemma StarBehind(a: string)
    requires NoClose(a)
    ensures NoClose(a + "*")
  {
    NoCloseJoins(a, "*");
  }

  lemma {:induction false} LineEndIs(s: string, i: nat, n: nat)
    requires i <= n <= |s| && (n < |s| ==> s[n] == '\n') && forall k | i <= k < n :: s[k] != '\n'
    ensures LineEnd(s, i) == n
    decreases n - i
  {
    if i < n { LineEndIs(s, i + 1, n); }
  }

  lemma LineStep(opening: string, body: string, tail: string)
    requires opening == "#" || opening == "--"
    requires '\n' !in body && (tail == "" || tail[0] == '\n')
    requires opening == "--" ==> if body == "" then tail != "" else body[0] as int <= 32
    ensures Step(opening + body + tail, 0) == Skip(|opening + body|)
  {
    hide LineEnd, WordEnd, QuoteEnd, BlockStep;
    var line := opening + body;
    var s := line + tail;
    assert forall k | 0 <= k < |line| :: s[k] == line[k];
    assert opening == "--" ==> |s| > 2 && s[2] == if body == "" then tail[0] else body[0];
    LineEndIs(s, 1, |line|);
  }

  lemma {:induction false} BlockClose(body: string, tail: string, i: nat)
    requires NoClose(body) && 2 <= i <= |body| + 2
    ensures CloseAt("/*" + body + "*/" + tail, i) == Some(|body| + 2)
    decreases |body| + 2 - i
  {
    var s := "/*" + body + "*/" + tail;
    if i < |body| + 2 {
      assert s[i] == body[i - 2];
      assert i < |body| + 1 ==> s[i + 1] == body[i - 1];
      BlockClose(body, tail, i + 1);
    }
  }

  lemma NotExecutable(body: string)
    ensures Executable("/*" + body + "*/") <==> "!" <= body || "T!" <= body
  {
    var t := "/*" + body + "*/";
    var tail := body + "*/";
    assert forall k | 0 <= k < |tail| :: t[k + 2] == tail[k];
    assert t[..3] == ['/', '*', tail[0]] && t[..4] == ['/', '*', tail[0], tail[1]];
    assert "/*!" == ['/', '*', '!'] && "/*T!" == ['/', '*', 'T', '!'];
    assert body != "" ==> tail[0] == body[0];
    assert |body| > 1 ==> tail[1] == body[1];
  }

  lemma PlainBlockStep(body: string, tail: string)
    requires Fits(Block(body))
    ensures Step("/*" + body + "*/" + tail, 0) == Skip(|"/*" + body + "*/"|)
  {
    hide CloseAt, NoClose, Executable, LineEnd, WordEnd, QuoteEnd;
    var s, n := "/*" + body + "*/" + tail, |body| + 4;
    BlockClose(body, tail, 2);
    assert s[0..n] == "/*" + body + "*/";
    NotExecutable(body);
  }

  lemma ItemStep(item: Item, tail: string)
    requires Fits(item) && Apart(item, tail)
    ensures Written(item) != "" && Step(Written(item) + tail, 0) == StepOf(item)
  {
    hide Step, NoClose;
    match item
    case Name(text) => NameStep(text, tail);
    case Quoted(quote, units) => LiteralStep(quote, units, tail);
    case Special(marker, body) =>
      SpecialWhole(marker, body);
      CommentReads(marker + body + "*/", tail);
    case Mark(c) => MarkStep(c, tail);
    case Gap(c) => GapStep(c, tail);
    case Hash(body) => LineStep("#", body, tail);
    case Dashes(body) => LineStep("--", body, tail);
    case Directive(stem, pad) => LineStep("--", " tidbgo:" + stem + pad, tail);
    case Block(body) => PlainBlockStep(body, tail);
  }

  lemma MarkStep(c: char, tail: string)
    requires Fits(Mark(c)) && Apart(Mark(c), tail)
    ensures Step([c] + tail, 0) == Found(c, 1)
  {
    var s := [c] + tail;
    assert |tail| > 0 ==> s[1] == tail[0];
    assert |tail| > 1 ==> s[2] == tail[1];
  }

  lemma GapStep(c: char, tail: string)
    requires Fits(Gap(c))
    ensures Step([c] + tail, 0) == Skip(1)
  {
  }

  // ---- a whole text ----

  /** What a scan of `s` makes of its first step. */
  lemma StepReads(s: string, n: nat)
    requires 0 < n <= |s| && !Step(s, 0).Bad? && Step(s, 0).next == n
    ensures Scan(s, 0).Some? <==> Scan(s[n..], 0).Some?
    ensures Scan(s, 0).Some? ==>
      Pieces(Scan(s, 0).value) ==
      (if Step(s, 0).Found? then [Piece(Step(s, 0).kind, s[..n])] else []) + Pieces(Scan(s[n..], 0).value)
  {
    hide Step;
    ScanAfter(s, n, 0);
    if Scan(s, n).Some? {
      PiecesJoin(Made(s, 0, Step(s, 0)), Scan(s, n).value);
      assert s[0..n] == s[..n];
    }
  }

  lemma {:induction false} ItemsRead(items: seq<Item>)
    requires AllFit(items)
    ensures Scan(Text(items), 0).Some? && Pieces(Scan(Text(items), 0).value) == TokensOf(items)
  {
    hide Step, Fits, Apart, Written;
    if items != [] {
      var item, tail := items[0], Text(items[1..]);
      var s := Written(item) + tail;
      ItemsRead(items[1..]);
      ItemStep(item, tail);
      WrittenToken(item);
      assert s[|Written(item)|..] == tail && s[..|Written(item)|] == Written(item);
      StepReads(s, |Written(item)|);
    }
  }

  lemma WrittenToken(item: Item)
    ensures TokenOf(item) == if StepOf(item).Found? then [Piece(StepOf(item).kind, Written(item))] else []
    ensures !StepOf(item).Bad? && StepOf(item).next == |Written(item)|
  {
  }

  /** A text written this way is read as exactly its words, quoted values, marks and executable comments, each of
      them one token. */
  lemma TextReads(items: seq<Item>)
    requires AllFit(items) && '\0' !in Text(items)
    ensures Tokens(Text(items)).Some? && Pieces(Tokens(Text(items)).value) == TokensOf(items)
  {
    ItemsRead(items);
  }

  /** A quoted value, whatever stands in it, is one token with its whole text, and what follows is read as by itself. */
  lemma LiteralIsOneToken(quote: char, units: seq<Unit>, tail: string)
    requires Fits(Quoted(quote, units)) && (tail == "" || tail[0] != quote) && '\0' !in Literal(quote, units)
    requires Tokens(tail).Some?
    ensures var s := Literal(quote, units) + tail;
      Tokens(s).Some? && Pieces(Tokens(s).value) == [Piece(quote, Literal(quote, units))] + Pieces(Tokens(tail).value)
  {
    hide Step, Literal, Fits;
    var t := Literal(quote, units);
    var s := t + tail;
    ItemStep(Quoted(quote, units), tail);
    assert s[|t|..] == tail && s[..|t|] == t;
    StepReads(s, |t|);
  }

  // ---- every text that lexes is written this way ----

  lemma {:induction false} UnitsOf(s: string, i: nat, quote: char) returns (units: seq<Unit>)
    requires QuoteChar(quote) && QuoteEnd(s, i, quote).Some?
    ensures var n := QuoteEnd(s, i, quote).value;
      i < n <= |s| && s[i..n] == Inside(units, quote) + [quote] && (n < |s| ==> s[n] != quote)
    ensures forall u <- units :: UnitFits(u, quote)
    decreases |s| - i
  {
    hide QuoteEnd, QuoteChar;
    QuoteInside(s, i, quote);
    QuoteStep(s, i, quote);
    var n := QuoteEnd(s, i, quote).value;
    if s[i] == '\\' && quote != '`' {
      QuoteInside(s, i + 2, quote);
      var more := UnitsOf(s, i + 2, quote);
      units := [Escaped(s[i + 1])] + more;
      assert s[i..n] == ['\\', s[i + 1]] + s[i + 2..n];
    } else if s[i] != quote {
      var more := UnitsOf(s, i + 1, quote);
      units := [Plain(s[i])] + more;
      assert s[i..n] == [s[i]] + s[i + 1..n];
    } else if i + 1 < |s| && s[i + 1] == quote {
      var more := UnitsOf(s, i + 2, quote);
      units := [Doubled] + more;
      assert s[i..n] == [quote, quote] + s[i + 2..n];
    } else {
      units := [];
    }
  }

  lemma QuoteInside(s: string, i: nat, quote: char)
    requires QuoteEnd(s, i, quote).Some?
    ensures i < |s|
  {
  }

  /** The item that a step reads. */
  lemma ItemOf(s: string) returns (item: Item)
    requires s != "" && !Step(s, 0).Bad?
    ensures var n := Step(s, 0).next;
      n <= |s| && Fits(item) && Written(item) == s[..n] && Apart(item, s[n..])
  {
    hide LineEnd, WordEnd, CloseAt, QuoteEnd, NoClose, BlockStep;
    var c, n := s[0], Step(s, 0).next;
    if Blank(c) {
      item := Gap(c);
    } else if StartsComment(s, 0) {
      item := CommentOf(s);
    } else if c == '/' && |s| > 1 && s[1] == '*' {
      item := BlockOf(s);
    } else if IsQuote(c) {
      var units := UnitsOf(s, 1, c);
      item := Quoted(c, units);
      assert s[..n] == [c] + s[1..n];
    } else if WordByte(c) {
      item := Name(s[..n]);
    } else {
      item := Mark(c);
    }
  }

  lemma CommentOf(s: string) returns (item: Item)
    requires s != "" && StartsComment(s, 0)
    ensures var n := LineEnd(s, 1);
      Fits(item) && Written(item) == s[..n] && Apart(item, s[n..])
  {
    var n := LineEnd(s, 1);
    hide LineEnd, Line, NoClose;
    if s[0] == '#' {
      item := Hash(s[1..n]);
      assert s[..n] == "#" + s[1..n];
    } else {
      var body := s[2..n];
      assert n >= 2 && s[..n] == "--" + body;
      assert n < |s| ==> s[n..][0] == '\n';
      NoBreak(s, 2, n);
      item := DashesOf(body);
      if item.Dashes? && body == "" { assert s[2] == s[n..][0]; }
    }
  }

  lemma NoBreak(s: string, i: nat, n: nat)
    requires i <= n <= |s| && forall k | i <= k < n :: s[k] != '\n'
    ensures '\n' !in s[i..n]
  {
  }

  lemma DashesOf(body: string) returns (item: Item)
    requires '\n' !in body && (body != "" ==> body[0] as int <= 32)
    ensures (item == Dashes(body) || item.Directive?) && Fits(item) && Written(item) == "--" + body
  {
    hide Line;
    if " tidbgo:" <= body {
      var rest := body[8..];
      assert body == " tidbgo:" + rest;
      NoBreak(body, 8, |body|);
      assert body[8..|body|] == rest;
      var stem, pad := SplitPad(rest);
      item := Directive(stem, pad);
      LineIs(stem, pad, body);
    } else {
      item := Dashes(body);
    }
  }

  lemma LineIs(stem: string, pad: string, body: string)
    requires body == " tidbgo:" + (stem + pad)
    ensures Line(stem, pad) == "--" + body
  {
    assert " tidbgo:" + stem + pad == " tidbgo:" + (stem + pad);
  }

  lemma {:induction false} SplitPad(x: string) returns (stem: string, pad: string)
    requires '\n' !in x
    ensures x == stem + pad && '\n' !in stem && '\n' !in pad && forall c <- pad :: PadChar(c)
    ensures stem != "" ==> !PadChar(stem[|stem| - 1])
  {
    if x == "" || !PadChar(x[|x| - 1]) {
      stem, pad := x, "";
    } else {
      var n := |x| - 1;
      var front, back := SplitPad(x[..n]);
      stem, pad := front, back + [x[n]];
      assert x == x[..n] + [x[n]];
    }
  }

  lemma BlockOf(s: string) returns (item: Item)
    requires |s| > 1 && s[0] == '/' && s[1] == '*' && !BlockStep(s, 0).Bad?
    ensures var n := BlockStep(s, 0).next;
      n <= |s| && Fits(item) && Written(item) == s[..n] && Apart(item, s[n..])
  {
    hide CloseAt, Executable, NoClose;
    var close := CloseAt(s, 2).value;
    var n, body := close + 2, s[2..close];
    OpenInside(s, close);
    assert s[0..n] == s[..n] == "/*" + body + "*/";
    NotExecutable(body);
    var marked := if "!" <= body then 1 else if "T!" <= body then 2 else 0;
    if marked > 0 {
      var marker := if marked == 1 then "/*!" else "/*T!";
      item := Special(marker, body[marked..]);
      NoCloseSlice(body, marked, |body|);
      assert body[marked..|body|] == body[marked..];
      MarkerJoins(marker, marked, body);
      SliceIn(s[0..n], 2 + marked, close, ';');
      assert s[0..n][2 + marked..close] == body[marked..];
    } else {
      item := Block(body);
    }
  }

  lemma MarkerJoins(marker: string, marked: nat, body: string)
    requires (marker == "/*!" && marked == 1 && "!" <= body) || (marker == "/*T!" && marked == 2 && "T!" <= body)
    ensures marker + body[marked..] + "*/" == "/*" + body + "*/"
  {
    assert marker == "/*" + body[..marked];
    assert body == body[..marked] + body[marked..];
  }

  lemma OpenInside(s: string, close: nat)
    requires 2 <= close && close + 1 < |s| && forall k | 2 <= k < close :: !(s[k] == '*' && s[k + 1] == '/')
    ensures NoClose(s[2..close])
  {
  }

  lemma {:induction false} ItemsOf(s: string) returns (items: seq<Item>)
    requires Scan(s, 0).Some?
    ensures AllFit(items) && Text(items) == s
  {
    hide Step, Fits, Apart, Written;
    if s == "" {
      items := [];
    } else {
      var item := ItemOf(s);
      var n := Step(s, 0).next;
      StepReads(s, n);
      var more := ItemsOf(s[n..]);
      items := [item] + more;
      assert s == s[..n] + s[n..];
    }
  }

  ghost predicate IsWritten(s: string) {
    exists items :: AllFit(items) && Text(items) == s
  }

  /** A text lexes exactly when it has no NUL and is written in items. */
  lemma LexesIff(s: string)
    ensures Tokens(s).Some? <==> '\0' !in s && IsWritten(s)
  {
    if Tokens(s).Some? {
      var items := ItemsOf(s);
    }
    if items :| AllFit(items) && Text(items) == s {
      ItemsRead(items);
    }
  }
}
