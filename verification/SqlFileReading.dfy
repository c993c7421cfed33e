/** Migration files as they are written, and the lexer that sees their section directives (migrate/sql.go:36-46):
    a dash comment that starts as a directive is a token when only blanks stand before it on its line, and refuses
    the file when anything else does. */
module SqlFileReading {
  import opened SqlValues
  import opened SqlLexer
  import opened SqlSections
  import opened SqlMigration
  import opened SqlRelex
  import opened SqlCanonical
  import opened SqlTrim
  import opened SqlReading

  /** Only blanks so far on the line, behind an item. */
  predicate StaysOpen(item: Item, open: bool) {
    item.Gap? && (item.c == '\n' || (open && PadChar(item.c)))
  }

  function SectionTokenOf(item: Item): seq<Piece> {
    if item.Directive? then [Piece('d', "-- tidbgo:" + item.stem)] else TokenOf(item)
  }

  /** The tokens of items when they stand at the start of a line, or behind something on it. */
  function SectionTokensOf(items: seq<Item>, open: bool): Option<seq<Piece>> {
    if items == [] then Some([])
    else if items[0].Directive? && !open then None
    else
      match SectionTokensOf(items[1..], StaysOpen(items[0], open))
      case None => None
      case Some(more) => Some(SectionTokenOf(items[0]) + more)
  }

  // ---- what stands before on the line ----

  /** Only blanks since the last line break. */
  ghost predicate Open(s: string) {
    exists n :: StartsBlank(s, n)
  }

  ghost predicate StartsBlank(s: string, n: int) {
    IsLineStart(s, n) && AllSpace(s[n..])
  }

  ghost predicate IsLineStart(s: string, n: int) {
    0 <= n <= |s| && (n > 0 ==> s[n - 1] == '\n') && '\n' !in s[n..]
  }

  lemma {:induction false} LineStartIs(s: string, i: nat)
    requires i <= |s|
    ensures IsLineStart(s[..i], LineStart(s, i))
  {
    if i > 0 && s[i - 1] != '\n' {
      LineStartIs(s, i - 1);
      var n := LineStart(s, i - 1);
      assert s[..i][n..] == s[..i - 1][n..] + [s[i - 1]];
    } else {
      assert s[..i][i..] == [];
    }
  }

  lemma OneLineStart(s: string, m: int, n: int)
    requires IsLineStart(s, m) && IsLineStart(s, n)
    ensures m == n
  {
    BreakInside(s, m, n);
    BreakInside(s, n, m);
  }

  lemma BreakInside(s: string, m: int, n: int)
    requires 0 <= m <= |s| && '\n' !in s[m..] && IsLineStart(s, n)
    ensures n <= m
  {
    assert forall k | 0 <= k < |s[m..]| :: s[m..][k] == s[m + k];
    assert forall k | m <= k < |s| :: s[m..][k - m] == s[k] && s[k] != '\n';
  }

  lemma TrimsToNothing(x: string)
    ensures TrimSpace(x) == "" <==> AllSpace(x)
  {
    hide AllSpace, Space;
    var left := TrimLeft(x);
    TrimLeftIs(x);
    TrimRightIs(left);
    var n := |x| - |left|;
    assert x == x[..n] + x[n..];
    AllSpaceJoins(x[..n], x[n..]);
    if TrimRight(left) == "" {
      assert left[0..] == left;
    } else if AllSpace(x) {
      LastIsSpace(left, TrimRight(left));
    }
  }

  lemma LastIsSpace(x: string, front: string)
    requires AllSpace(x) && front <= x && front != ""
    ensures Space(front[|front| - 1])
  {
    assert front[|front| - 1] == x[|front| - 1];
    assert x[|front| - 1] in x;
  }

  lemma OwnLineIff(s: string, i: nat)
    requires i <= |s|
    ensures OnOwnLine(s, i) <==> Open(s[..i])
  {
    hide AllSpace, TrimSpace, LineStart, IsLineStart;
    var n := LineStart(s, i);
    LineStartIs(s, i);
    StartInside(s[..i], n);
    assert s[n..i] == s[..i][n..];
    TrimsToNothing(s[n..i]);
    if Open(s[..i]) {
      var m :| StartsBlank(s[..i], m);
      OneLineStart(s[..i], m, n);
    } else {
      assert !StartsBlank(s[..i], n);
    }
  }

  lemma StartInside(s: string, n: int)
    requires IsLineStart(s, n)
    ensures 0 <= n <= |s|
  {
  }

  // ---- item by item ----

  lemma OpenBreak(s: string)
    ensures Open(s + ['\n']) && Open("")
  {
    var t := s + ['\n'];
    assert t[|t|..] == [];
    assert StartsBlank(t, |t|);
    assert StartsBlank("", 0);
  }

  lemma OpenBlank(s: string, c: char)
    requires c != '\n'
    ensures Open(s + [c]) <==> Open(s) && PadChar(c)
  {
    var t := s + [c];
    forall n | 0 <= n <= |s|
      ensures StartsBlank(t, n) <==> StartsBlank(s, n) && PadChar(c)
    {
      BlankGrows(s, c, n);
    }
    NoStartBehind(t);
    assert forall n :: StartsBlank(t, n) || StartsBlank(s, n) ==> 0 <= n <= |s|;
  }

  lemma BlankGrows(s: string, c: char, n: nat)
    requires c != '\n' && n <= |s|
    ensures StartsBlank(s + [c], n) <==> StartsBlank(s, n) && PadChar(c)
  {
    hide AllSpace, IsLineStart;
    assert (s + [c])[n..] == s[n..] + [c];
    OneSpace(c);
    AllSpaceJoins(s[n..], [c]);
    LineStartGrows(s, c, n);
  }

  lemma LineStartGrows(s: string, c: char, n: nat)
    requires c != '\n' && n <= |s|
    ensures IsLineStart(s, n) <==> IsLineStart(s + [c], n)
  {
    assert (s + [c])[n..] == s[n..] + [c];
  }

  lemma NoStartBehind(t: string)
    requires t != "" && t[|t| - 1] != '\n'
    ensures !IsLineStart(t, |t|)
  {
  }

  /** Something other than a blank stands on the last line. */
  lemma Closed(s: string, k: nat)
    requires k < |s| && !PadChar(s[k]) && forall j | k <= j < |s| :: s[j] != '\n'
    ensures !Open(s)
  {
    forall n | IsLineStart(s, n)
      ensures !AllSpace(s[n..])
    {
      assert n <= k;
      assert s[n..][k - n] == s[k];
      assert s[k] in s[n..];
    }
  }

  lemma OpenBehind(s: string, item: Item)
    requires Fits(item)
    ensures Open(s + Written(item)) <==> StaysOpen(item, Open(s))
  {
    hide Open, NoClose;
    var w := Written(item);
    var t := s + w;
    match item
    case Gap(c) =>
      if c == '\n' { OpenBreak(s); } else { OpenBlank(s, c); }
    case Name(text) =>
      assert text[|text| - 1] in text && t[|t| - 1] == text[|text| - 1];
      Closed(t, |t| - 1);
    case Quoted(quote, units) =>
      assert t[|t| - 1] == w[|w| - 1] == quote;
      Closed(t, |t| - 1);
    case Special(_, _) =>
      assert t[|t| - 1] == w[|w| - 1] == '/';
      Closed(t, |t| - 1);
    case Block(_) =>
      assert t[|t| - 1] == w[|w| - 1] == '/';
      Closed(t, |t| - 1);
    case Mark(c) =>
      assert t[|t| - 1] == c;
      Closed(t, |t| - 1);
    case _ =>
      CommentCloses(s, item);
  }

  lemma CommentCloses(s: string, item: Item)
    requires Fits(item) && (item.Hash? || item.Dashes? || item.Directive?)
    ensures !Open(s + Written(item))
  {
    hide Open;
    var w := Written(item);
    var t := s + w;
    assert t[|s|] == w[0];
    forall j | |s| <= j < |t|
      ensures t[j] != '\n'
    {
      assert t[j] == w[j - |s|];
      OneLine(item, j - |s|);
    }
    Closed(t, |s|);
  }

  lemma OneLine(item: Item, j: nat)
    requires Fits(item) && (item.Hash? || item.Dashes? || item.Directive?) && j < |Written(item)|
    ensures Written(item)[j] != '\n'
  {
    var w := Written(item);
    assert w[j] in w;
    match item
    case Hash(body) => assert w == "#" + body;
    case Dashes(body) => assert w == "--" + body;
    case Directive(stem, pad) => LineParts(stem, pad);
  }

  lemma LineParts(stem: string, pad: string)
    requires '\n' !in stem && '\n' !in pad
    ensures '\n' !in Line(stem, pad)
  {
    var x := " tidbgo:" + stem + pad;
    assert '\n' !in " tidbgo:" + stem;
    assert '\n' !in x;
  }

  // ---- the section lexer on items ----

  /** The step at a place is the step of the item that stands there. */
  lemma StepThere(s: string, i: nat, item: Item, tail: string)
    requires Fits(item) && Apart(item, tail) && i <= |s| && s[i..] == Written(item) + tail
    ensures i < |s| && !Step(s, i).Bad? && Step(s, i).next == i + |Written(item)| <= |s|
    ensures Made(s, i, Step(s, i)) == if TokenOf(item) == [] then []
      else [Token(Written(item), TokenOf(item)[0].kind, i, i + |Written(item)|)]
    ensures s[i..i + |Written(item)|] == Written(item)
  {
    hide Step, Fits, Apart, Written;
    var n := |Written(item)|;
    ItemStep(item, tail);
    WrittenToken(item);
    StepAfter(s, i, 0);
    assert s[i..][0..n] == Written(item);
    SubSlice(s, i, |s|, 0, n);
    assert s[i..|s|] == s[i..];
  }

  /** Which items start as a directive. */
  lemma DirectiveThere(s: string, i: nat, item: Item, tail: string)
    requires Fits(item) && Apart(item, tail) && i < |s| && s[i..] == Written(item) + tail
    ensures IsDirective(s, i) <==> item.Directive?
  {
    hide Step, NoClose, QuoteEnd;
    StepThere(s, i, item, tail);
    assert s[i] == s[i..][0] == Written(item)[0];
    if item.Dashes? || item.Directive? {
      DashesThere(s, i, item, tail);
    } else if IsDirective(s, i) {
      assert s[i..LineEnd(s, i + 1)][0] == DIRECTIVE[0];
      MarkOnly(s, i, item, tail);
    }
  }

  lemma NameStarts(item: Item)
    requires Fits(item)
    ensures item.Name? ==> NameChar(Written(item)[0])
  {
    if item.Name? { assert item.text[0] in item.text; }
  }

  lemma MarkOnly(s: string, i: nat, item: Item, tail: string)
    requires Fits(item) && Apart(item, tail) && i < |s| && s[i..] == Written(item) + tail && s[i] == '-'
    requires !item.Dashes? && !item.Directive?
    ensures !StartsComment(s, i)
  {
    hide NoClose;
    assert s[i] == s[i..][0] == Written(item)[0];
    NameStarts(item);
    assert item == Mark('-');
    assert |tail| > 0 ==> s[i + 1] == s[i..][1] == tail[0];
    assert |tail| > 1 ==> s[i + 2] == s[i..][2] == tail[1];
  }

  lemma DashesThere(s: string, i: nat, item: Item, tail: string)
    requires Fits(item) && Apart(item, tail) && (item.Dashes? || item.Directive?)
    requires i < |s| && s[i..] == Written(item) + tail
    ensures IsDirective(s, i) <==> item.Directive?
  {
    hide Step, LineEnd;
    var w := Written(item);
    var body := w[2..];
    assert w == "--" + body;
    DashBody(item, body);
    var n := i + |w|;
    forall k | i <= k < |s|
      ensures s[k] == s[i..][k - i]
    {
    }
    assert forall k | i <= k < n :: s[k] == w[k - i];
    assert n < |s| ==> s[n] == tail[0];
    LineEndIs(s, i + 1, n);
    assert s[i..n] == w;
    assert |s| > i + 2 && s[i + 2] == if body == "" then tail[0] else body[0];
    assert DIRECTIVE == "--" + " tidbgo:";
    PrefixBehind("--", " tidbgo:", body);
  }

  lemma PrefixBehind(a: string, b: string, c: string)
    ensures a + b <= a + c <==> b <= c
  {
    if a + b <= a + c {
      assert (a + c)[..|a + b|] == a + b;
      assert c[..|b|] == (a + c)[..|a + b|][|a|..] == (a + b)[|a|..] == b;
    }
    if b <= c {
      assert c == b + c[|b|..];
      assert a + c == a + b + c[|b|..];
    }
  }

  lemma DashBody(item: Item, body: string)
    requires Fits(item) && (item.Dashes? || item.Directive?) && Written(item) == "--" + body
    ensures body == Written(item)[2..] && '\n' !in body && (body != "" ==> body[0] as int <= 32)
    ensures " tidbgo:" <= body <==> item.Directive?
    ensures item.Directive? ==> body != ""
  {
    if item.Directive? {
      LineParts(item.stem, item.pad);
      assert body == ("--" + body)[2..] == Line(item.stem, item.pad)[2..];
      assert body == " tidbgo:" + item.stem + item.pad;
      assert body == " tidbgo:" + (item.stem + item.pad);
      assert forall c <- body :: c in Line(item.stem, item.pad);
    } else {
      assert body == item.body;
    }
  }

  lemma DirectiveText(stem: string, pad: string)
    requires Fits(Directive(stem, pad))
    ensures TrimSpace(Line(stem, pad)) == "-- tidbgo:" + stem
  {
    hide AllSpace;
    var x, front := Line(stem, pad), "-- tidbgo:" + stem;
    assert x == front + pad;
    assert x[0] == '-' && TrimLeft(x) == x;
    assert forall c <- pad :: Space(c);
    assert front[|front| - 1] == if stem == "" then ':' else stem[|stem| - 1];
    PadTrimmed(front, pad);
  }

  lemma {:induction false} PadTrimmed(front: string, pad: string)
    requires front != "" && !Space(front[|front| - 1]) && forall c <- pad :: Space(c)
    ensures TrimRight(front + pad) == front
  {
    if pad == "" {
      assert front + pad == front;
    } else {
      var n := |pad| - 1;
      assert pad[n] in pad;
      assert (front + pad)[..|front + pad| - 1] == front + pad[..n];
      assert (front + pad)[|front + pad| - 1] == pad[n];
      PadTrimmed(front, pad[..n]);
    }
  }

  lemma {:induction false} SectionsRead(s: string, i: nat, items: seq<Item>)
    requires AllFit(items) && i <= |s| && s[i..] == Text(items)
    ensures var want := SectionTokensOf(items, Open(s[..i]));
      && (ScanSections(s, i).Some? <==> want.Some?)
      && (want.Some? ==> Pieces(ScanSections(s, i).value) == want.value)
    decreases |items|
  {
    hide Step, Fits, Apart, Written, Open, IsDirective, OnOwnLine, TrimSpace, StaysOpen;
    if items == [] {
      assert i == |s|;
    } else {
      var item, tail := items[0], Text(items[1..]);
      var n := |Written(item)|;
      StepThere(s, i, item, tail);
      DirectiveThere(s, i, item, tail);
      OwnLineIff(s, i);
      OpenBehind(s[..i], item);
      assert s[..i + n] == s[..i] + Written(item);
      assert s[i + n..] == s[i..][n..] == tail;
      SectionsRead(s, i + n, items[1..]);
      if item.Directive? { DirectiveText(item.stem, item.pad); }
      MadeThere(s, i, item);
      if ScanSections(s, i + n).Some? {
        PiecesJoin(MadeInSections(s, i, Step(s, i)), ScanSections(s, i + n).value);
      }
    }
  }

  lemma MadeThere(s: string, i: nat, item: Item)
    requires i < |s| && !Step(s, i).Bad? && Step(s, i).next == i + |Written(item)| <= |s|
    requires s[i..i + |Written(item)|] == Written(item) && (IsDirective(s, i) <==> item.Directive?)
    requires Made(s, i, Step(s, i)) == if TokenOf(item) == [] then []
      else [Token(Written(item), TokenOf(item)[0].kind, i, i + |Written(item)|)]
    requires item.Directive? ==> TrimSpace(Line(item.stem, item.pad)) == "-- tidbgo:" + item.stem
    ensures Pieces(MadeInSections(s, i, Step(s, i))) == SectionTokenOf(item)
  {
    hide Step, IsDirective, TrimSpace;
  }

  /** A file lexes exactly when each of its directives stands alone on its line, and then its tokens are the items
      that are not blanks or comments, and the directives. */
  lemma FileReads(items: seq<Item>)
    requires AllFit(items) && '\0' !in Text(items)
    ensures var s, want := Text(items), SectionTokensOf(items, true);
      && (SectionTokens(s).Some? <==> want.Some?)
      && (want.Some? ==> Pieces(SectionTokens(s).value) == want.value)
  {
    hide Open;
    var s := Text(items);
    OpenBreak("");
    assert s[..0] == "" && s[0..] == s;
    SectionsRead(s, 0, items);
  }

  // ---- a file of two sections ----

  function SectionPieces(items: seq<Item>): seq<Piece> {
    if items == [] then [] else SectionTokenOf(items[0]) + SectionPieces(items[1..])
  }

  lemma {:induction false} PiecesPlain(items: seq<Item>)
    requires forall item <- items :: !item.Directive?
    ensures SectionPieces(items) == TokensOf(items)
  {
    if items != [] { PiecesPlain(items[1..]); }
  }

  lemma {:induction false} TextJoins(a: seq<Item>, b: seq<Item>)
    ensures Text(a + b) == Text(a) + Text(b)
  {
    hide Written, Text;
    if a == [] {
      assert a + b == b;
      NoText(b);
    } else {
      TextJoins(a[1..], b);
      TextSteps(a, b);
      Grouped(Written(a[0]), Text(a[1..]), Text(b));
    }
  }

  lemma NoText(b: seq<Item>)
    ensures Text([]) == "" && "" + Text(b) == Text(b)
  {
    hide Written;
  }

  lemma TextSteps(a: seq<Item>, b: seq<Item>)
    requires a != []
    ensures Text(a + b) == Written(a[0]) + Text(a[1..] + b) && Text(a) == Written(a[0]) + Text(a[1..])
  {
    hide Written;
    assert (a + b)[1..] == a[1..] + b && (a + b)[0] == a[0];
  }

  lemma {:induction false} FitBehind(a: seq<Item>, b: seq<Item>)
    requires AllFit(a + b)
    ensures AllFit(b)
  {
    hide Fits, Apart;
    if a == [] {
      assert a + b == b;
    } else {
      assert (a + b)[1..] == a[1..] + b;
      FitBehind(a[1..], b);
    }
  }

  /** The scan from `i` makes these tokens up to `j`, where the tail stands. */
  ghost predicate SectionsGoOn(s: string, i: nat, j: nat, tail: string, made: seq<Token>) {
    && i <= |s| && j <= |s| && s[j..] == tail && ScanSections(s, i).Some? && ScanSections(s, j).Some?
    && ScanSections(s, i).value == made + ScanSections(s, j).value
  }

  /** The tokens of one item, and then those of the rest of the text. */
  lemma SectionsOne(s: string, i: nat, item: Item, tail: string) returns (made: seq<Token>)
    requires Fits(item) && Apart(item, tail) && i <= |s| && s[i..] == Written(item) + tail
    requires ScanSections(s, i).Some?
    ensures SectionsGoOn(s, i, i + |Written(item)|, tail, made) && Pieces(made) == SectionTokenOf(item)
  {
    hide Step, Fits, Apart, Written, IsDirective, OnOwnLine, TrimSpace;
    var n := |Written(item)|;
    StepThere(s, i, item, tail);
    DirectiveThere(s, i, item, tail);
    assert s[i + n..] == s[i..][n..] == tail;
    if item.Directive? { DirectiveText(item.stem, item.pad); }
    MadeThere(s, i, item);
    made := MadeInSections(s, i, Step(s, i));
  }

  /** The tokens of the items in front, and then those of the rest of the text. */
  lemma {:induction false} SectionsFront(s: string, i: nat, front: seq<Item>, back: seq<Item>) returns (pre: seq<Token>)
    requires AllFit(front + back) && i <= |s| && s[i..] == Text(front + back) && ScanSections(s, i).Some?
    ensures SectionsGoOn(s, i, i + |Text(front)|, Text(back), pre) && Pieces(pre) == SectionPieces(front)
    decreases |front|
  {
    hide Fits, Apart, Written, ScanSections, SectionTokenOf, AllFit, Text, SectionPieces;
    if front == [] {
      assert front + back == back;
      NoFront(s, i);
      pre := [];
    } else {
      var item, n := front[0], |Written(front[0])|;
      FrontItem(front, back);
      var made := SectionsOne(s, i, item, Text(front[1..] + back));
      var more := SectionsFront(s, i + n, front[1..], back);
      pre := made + more;
      PiecesJoin(made, more);
      Grouped(made, more, ScanSections(s, i + |Text(front)|).value);
    }
  }

  lemma NoFront(s: string, i: nat)
    requires i <= |s| && ScanSections(s, i).Some?
    ensures |Text([])| == 0 && SectionPieces([]) == [] && [] + ScanSections(s, i).value == ScanSections(s, i).value
  {
    hide ScanSections;
  }

  lemma FrontItem(front: seq<Item>, back: seq<Item>)
    requires front != [] && AllFit(front + back)
    ensures Fits(front[0]) && Apart(front[0], Text(front[1..] + back)) && AllFit(front[1..] + back)
    ensures Text(front + back) == Written(front[0]) + Text(front[1..] + back)
    ensures |Text(front)| == |Written(front[0])| + |Text(front[1..])|
    ensures SectionPieces(front) == SectionTokenOf(front[0]) + SectionPieces(front[1..])
  {
    hide Fits, Apart, Written, SectionTokenOf;
    assert (front + back)[1..] == front[1..] + back && (front + back)[0] == front[0];
  }

  lemma Grouped<T>(a: seq<T>, b: seq<T>, c: seq<T>)
    ensures a + (b + c) == (a + b) + c
  {
  }

  lemma DirectiveFirst(s: string, i: nat, stem: string, pad: string, back: seq<Item>)
    requires AllFit([Directive(stem, pad)] + back) && i <= |s| && s[i..] == Text([Directive(stem, pad)] + back)
    requires ScanSections(s, i).Some?
    ensures |ScanSections(s, i).value| > 0 && ScanSections(s, i).value[0].start == i
    ensures ScanSections(s, i).value[0].kind == 'd' && ScanSections(s, i).value[0].text == "-- tidbgo:" + stem
    ensures
      Pieces(ScanSections(s, i).value) == [Piece('d', "-- tidbgo:" + stem)] + Pieces(ScanSections(s, i).value[1..])
  {
    hide ScanSections, Text, AllFit, Fits, Apart, Line;
    var item := Directive(stem, pad);
    DirectiveItem(stem, pad, back);
    var token := DirectiveMade(s, i, stem, pad, Text(back));
    var rest := ScanSections(s, i + |Written(item)|).value;
    assert ([token] + rest)[1..] == rest;
  }

  lemma DirectiveItem(stem: string, pad: string, back: seq<Item>)
    requires AllFit([Directive(stem, pad)] + back)
    ensures Fits(Directive(stem, pad)) && Apart(Directive(stem, pad), Text(back))
    ensures Text([Directive(stem, pad)] + back) == Written(Directive(stem, pad)) + Text(back)
  {
    hide Fits, Apart, Written;
    var items := [Directive(stem, pad)] + back;
    assert items[1..] == back && items[0] == Directive(stem, pad);
  }

  /** The token of a directive starts where the directive stands. */
  lemma DirectiveMade(s: string, i: nat, stem: string, pad: string, tail: string) returns (token: Token)
    requires var item := Directive(stem, pad);
      Fits(item) && Apart(item, tail) && i <= |s| && s[i..] == Written(item) + tail
    requires ScanSections(s, i).Some?
    ensures token.start == i && token.kind == 'd' && token.text == "-- tidbgo:" + stem
    ensures SectionsGoOn(s, i, i + |Written(Directive(stem, pad))|, tail, [token])
  {
    hide Step, Fits, Apart, IsDirective, OnOwnLine, TrimSpace, Written;
    var item := Directive(stem, pad);
    StepThere(s, i, item, tail);
    DirectiveThere(s, i, item, tail);
    DirectiveText(stem, pad);
    WrittenDirective(stem, pad);
    assert s[i + |Written(item)|..] == s[i..][|Written(item)|..] == tail;
    token := Token("-- tidbgo:" + stem, 'd', i, i + |Written(item)|);
  }

  lemma WrittenDirective(stem: string, pad: string)
    ensures Written(Directive(stem, pad)) == Line(stem, pad)
  {
  }

  /** The items of a file: comments and blanks, the up directive, statements, the down directive, statements. */
  function FileItems(
    lead: seq<Item>, upPad: string, ups: seq<Item>, downPad: string, downs: seq<Item>): seq<Item>
  {
    lead + ([Directive("up", upPad)] + (ups + ([Directive("down", downPad)] + downs)))
  }

  ghost predicate NoDirectives(items: seq<Item>) {
    forall item <- items :: !item.Directive?
  }

  /** Its tokens. */
  lemma FileTokensAre(
    lead: seq<Item>, upPad: string, ups: seq<Item>, downPad: string, downs: seq<Item>)
    returns (ts: seq<Token>, k: nat)
    requires AllFit(FileItems(lead, upPad, ups, downPad, downs))
    requires '\0' !in Text(FileItems(lead, upPad, ups, downPad, downs))
    requires SectionTokens(Text(FileItems(lead, upPad, ups, downPad, downs))).Some?
    requires NoDirectives(lead) && NoDirectives(ups) && NoDirectives(downs) && TokensOf(lead) == []
    ensures SectionTokens(Text(FileItems(lead, upPad, ups, downPad, downs))) == Some(ts)
    ensures k == 1 + |TokensOf(ups)| < |ts|
    ensures
      Pieces(ts) == [Piece('d', "-- tidbgo:up")] + TokensOf(ups) + [Piece('d', "-- tidbgo:down")] + TokensOf(downs)
    ensures ts[k].start == |Text(lead + ([Directive("up", upPad)] + ups))|
  {
    hide AllFit, Text, ScanSections, Fits, SectionPieces, TokensOf;
    var head, foot := [Directive("up", upPad)], [Directive("down", downPad)];
    var rest := foot + downs;
    var s := Text(FileItems(lead, upPad, ups, downPad, downs));
    assert s[0..] == s;
    var pre := SectionsFront(s, 0, lead, head + (ups + rest));
    PiecesPlain(lead);
    NoPieces(pre);
    FitBehind(lead, head + (ups + rest));
    var a := |Text(lead)|;
    var one := SectionsFront(s, a, head, ups + rest);
    OnePiece("up", upPad);
    FitBehind(head, ups + rest);
    var b := a + |Text(head)|;
    var body := SectionsFront(s, b, ups, rest);
    PiecesPlain(ups);
    FitBehind(ups, rest);
    var c := b + |Text(ups)|;
    DirectiveFirst(s, c, "down", downPad, downs);
    RestPieces(s, c, downPad, downs);
    TextJoins(head, ups);
    TextJoins(lead, head + ups);
    var last := ScanSections(s, c).value;
    ts, k := one + (body + last), |one| + |body|;
    assert ScanSections(s, a).value == one + ScanSections(s, b).value == ts;
    assert pre + ts == ts;
    assert SectionTokens(s) == Some(ts);
    assert |Pieces(one)| == 1 && |Pieces(body)| == |TokensOf(ups)|;
    assert ts[k] == last[0];
    PiecesJoin(one, body + last);
    PiecesJoin(body, last);
    PartsInLine([Piece('d', "-- tidbgo:up")], TokensOf(ups), [Piece('d', "-- tidbgo:down")], TokensOf(downs));
    assert "-- tidbgo:" + "up" == "-- tidbgo:up";
    assert Pieces(last) == [Piece('d', "-- tidbgo:down")] + TokensOf(downs);
    assert Pieces(ts) == Pieces(one) + (Pieces(body) + Pieces(last));
  }

  lemma PartsInLine(a: seq<Piece>, b: seq<Piece>, c: seq<Piece>, d: seq<Piece>)
    ensures a + (b + (c + d)) == a + b + c + d
  {
  }

  lemma NoPieces(pre: seq<Token>)
    ensures Pieces(pre) == [] ==> pre == []
  {
  }

  lemma OnePiece(stem: string, pad: string)
    ensures SectionPieces([Directive(stem, pad)]) == [Piece('d', "-- tidbgo:" + stem)]
  {
    assert [Directive(stem, pad)][1..] == [];
  }

  lemma RestPieces(s: string, c: nat, pad: string, downs: seq<Item>)
    requires AllFit([Directive("down", pad)] + downs) && c <= |s| && s[c..] == Text([Directive("down", pad)] + downs)
    requires ScanSections(s, c).Some? && NoDirectives(downs)
    ensures Pieces(ScanSections(s, c).value) == [Piece('d', "-- tidbgo:down")] + TokensOf(downs)
  {
    hide AllFit, Text, TokensOf;
    var items := [Directive("down", pad)] + downs;
    assert items + [] == items;
    var all := SectionsFront(s, c, items, []);
    assert c + |Text(items)| == |s|;
    assert all + [] == all;
    assert items[1..] == downs && items[0] == Directive("down", pad);
    PiecesPlain(downs);
    assert "-- tidbgo:" + "down" == "-- tidbgo:down";
  }

  /** A file written as comments, the up directive, statements that a semicolon ends, the down directive and
      statements is accepted, and is cut in two right before its down directive. */
  lemma WrittenFileSplits(
    lead: seq<Item>, upPad: string, ups: seq<Item>, downPad: string, downs: seq<Item>) returns (k: nat)
    requires var items := FileItems(lead, upPad, ups, downPad, downs);
      AllFit(items) && '\0' !in Text(items) && SectionTokensOf(items, true).Some?
    requires NoDirectives(lead) && NoDirectives(ups) && NoDirectives(downs) && TokensOf(lead) == []
    requires var up, down := TokensOf(ups), TokensOf(downs);
      && SectionValid(up, 0, |up|) && FirstOf(up, 0, |up|) == |up| && SectionValid(down, 0, |down|)
    ensures var s := Text(FileItems(lead, upPad, ups, downPad, downs));
      && SectionTokens(s).Some? && IsFile(SectionTokens(s).value, k)
      && BoundaryOf(s, SectionTokens(s).value, k) == |Text(lead + ([Directive("up", upPad)] + ups))|
  {
    hide AllFit, Text, Fits, SectionTokens, TokensOf, AllValid, Complete, FirstOf, StatementsIn;
    var items := FileItems(lead, upPad, ups, downPad, downs);
    FileReads(items);
    var ts, k' := FileTokensAre(lead, upPad, ups, downPad, downs);
    k := k';
    var ps, up, down := Pieces(ts), TokensOf(ups), TokensOf(downs);
    EachFits(items);
    KindsOf(ups);
    KindsOf(downs);
    FileShape(ts, k, up, down);
    TextJoins(lead, [Directive("up", upPad)] + (ups + ([Directive("down", downPad)] + downs)));
    TextJoins([Directive("up", upPad)], ups + ([Directive("down", downPad)] + downs));
    TextJoins(ups, [Directive("down", downPad)] + downs);
    TextJoins([Directive("up", upPad)], ups);
    TextJoins(lead, [Directive("up", upPad)] + ups);
  }

  lemma {:induction false} EachFits(items: seq<Item>)
    requires AllFit(items)
    ensures forall item <- items :: Fits(item)
  {
    hide Fits, Apart;
    if items != [] { EachFits(items[1..]); }
  }

  lemma {:induction false} KindsOf(items: seq<Item>)
    requires forall item <- items :: Fits(item)
    ensures forall p <- TokensOf(items) :: p.kind != 'd'
  {
    if items != [] {
      assert Fits(items[0]);
      KindsOf(items[1..]);
    }
  }

  lemma FileShape(ts: seq<Token>, k: nat, up: seq<Piece>, down: seq<Piece>)
    requires k == 1 + |up| < |ts|
    requires Pieces(ts) == [Piece('d', "-- tidbgo:up")] + up + [Piece('d', "-- tidbgo:down")] + down
    requires (forall p <- up :: p.kind != 'd') && forall p <- down :: p.kind != 'd'
    requires SectionValid(up, 0, |up|) && FirstOf(up, 0, |up|) == |up| && SectionValid(down, 0, |down|)
    ensures IsFile(ts, k)
  {
    hide SectionValid, FirstOf;
    var ps := Pieces(ts);
    FileSlices(ps, k, up, down);
    SectionSlice(ps, 1, k, up);
    SectionSlice(ps, k + 1, |ps|, down);
    assert FirstOf(ps, 1, k) == k;
    assert ts[0].kind == ps[0].kind && ts[0].text == ps[0].text;
    assert ts[k].kind == ps[k].kind && ts[k].text == ps[k].text;
    NoOthers(ps, k, up, down);
    assert forall i | 1 <= i < |ts| && i != k :: ts[i].kind == ps[i].kind;
  }

  lemma SectionSlice(ps: seq<Piece>, base: nat, end: nat, part: seq<Piece>)
    requires base <= end <= |ps| && ps[base..end] == part && SectionValid(part, 0, |part|)
    ensures SectionValid(ps, base, end) && FirstOf(ps, base, end) == base + FirstOf(part, 0, |part|)
  {
    hide AllValid, Complete, FirstOf, StatementsIn;
    SliceSplits(ps, base, end);
    SliceStatements(ps, base, end, end - base);
  }

  lemma NoOthers(ps: seq<Piece>, k: nat, up: seq<Piece>, down: seq<Piece>)
    requires 1 <= k < |ps| && ps[1..k] == up && ps[k + 1..] == down
    requires (forall p <- up :: p.kind != 'd') && forall p <- down :: p.kind != 'd'
    ensures forall i | 1 <= i < |ps| && i != k :: ps[i].kind != 'd'
  {
    forall i | 1 <= i < |ps| && i != k
      ensures ps[i].kind != 'd'
    {
      if i < k {
        assert ps[1..k][i - 1] in up;
      } else {
        assert ps[k + 1..][i - k - 1] in down;
      }
    }
  }

  lemma FileSlices(ps: seq<Piece>, k: nat, up: seq<Piece>, down: seq<Piece>)
    requires k == 1 + |up|
    requires ps == [Piece('d', "-- tidbgo:up")] + up + [Piece('d', "-- tidbgo:down")] + down
    ensures k < |ps| && ps[1..k] == up && ps[k + 1..] == down && ps[k + 1..|ps|] == down
    ensures ps[0] == Piece('d', "-- tidbgo:up") && ps[k] == Piece('d', "-- tidbgo:down")
  {
  }
}
