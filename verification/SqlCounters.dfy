/** What the canonical text leaves out and what it does not tell apart (migrate/sql.go:236-313): allocator counters
    outside parentheses, and the case of words. */
module SqlCounters {
  import opened SqlValues
  import opened SqlLexer
  import opened SqlSections
  import opened SqlCanonical

  /** The same letters, in upper or in lower case. */
  predicate SameLetter(a: char, b: char) {
    || a == b
    || ('a' <= a <= 'z' && a as int - 32 == b as int)
    || ('a' <= b <= 'z' && b as int - 32 == a as int)
  }

  predicate SameWord(a: string, b: string) {
    |a| == |b| && forall i | 0 <= i < |a| :: SameLetter(a[i], b[i])
  }

  predicate CounterName(p: Piece) {
    p.kind == 'w' && (SameWord(p.text, "AUTO_INCREMENT") || SameWord(p.text, "AUTO_RANDOM_BASE"))
  }

  predicate Digits(s: string) {
    s != "" && forall c <- s :: '0' <= c <= '9'
  }

  /** NAME = digits. */
  predicate IsCounter(ps: seq<Piece>) {
    |ps| == 3 && CounterName(ps[0]) && ps[1].kind == '=' && ps[2].kind == 'w' && Digits(ps[2].text)
  }

  /** How many parentheses are open behind these tokens. */
  function Nesting(ps: seq<Piece>): int {
    if ps == [] then 0
    else (if ps[0].kind == '(' then 1 else if ps[0].kind == ')' then -1 else 0) + Nesting(ps[1..])
  }

  /** What follows could be read as the rest of a counter. */
  predicate LeavesCounterOpen(ps: seq<Piece>) {
    var n := |ps|;
    (n >= 1 && CounterName(ps[n - 1])) || (n >= 2 && CounterName(ps[n - 2]) && ps[n - 1].kind == '=')
  }

  lemma SameUpper(a: string, b: string)
    ensures SameWord(a, b) <==> Upper(a) == Upper(b)
  {
    if Upper(a) == Upper(b) {
      forall i | 0 <= i < |a|
        ensures SameLetter(a[i], b[i])
      {
        assert Upper(a)[i] == Upper(b)[i];
      }
    }
    if SameWord(a, b) {
      forall i | 0 <= i < |a|
        ensures Upper(a)[i] == Upper(b)[i]
      {
        assert SameLetter(a[i], b[i]);
      }
    }
  }

  lemma UpperStays(s: string)
    requires forall c <- s :: !('a' <= c <= 'z')
    ensures Upper(s) == s
  {
    assert forall i | 0 <= i < |s| :: s[i] in s;
  }

  lemma CounterNameIff(p: Piece)
    ensures CounterName(p) <==> p.kind == 'w' && Allocator(p.text)
  {
    hide Upper, SameWord;
    SameUpper(p.text, "AUTO_INCREMENT");
    SameUpper(p.text, "AUTO_RANDOM_BASE");
    UpperStays("AUTO_INCREMENT");
    UpperStays("AUTO_RANDOM_BASE");
  }

  lemma CounterAtIff(ps: seq<Piece>, i: nat, depth: int)
    requires i <= |ps|
    ensures CounterAt(ps, i, depth) <==> depth == 0 && i + 3 <= |ps| && IsCounter(ps[i..i + 3])
  {
    hide Allocator, CounterName;
    if i + 3 <= |ps| {
      CounterNameIff(ps[i]);
      var three := ps[i..i + 3];
      assert three[0] == ps[i] && three[1] == ps[i + 1] && three[2] == ps[i + 2];
    }
  }

  // ---- tokens before and behind ----

  function Joined(a: Option<seq<Piece>>, b: Option<seq<Piece>>): Option<seq<Piece>> {
    if a.None? || b.None? then None else Some(a.value + b.value)
  }

  lemma ConsJoins(p: Piece, a: Option<seq<Piece>>, b: Option<seq<Piece>>)
    ensures Joined(Cons(p, a), b) == Cons(p, Joined(a, b))
    ensures Joined(Some([]), b) == b
  {
    if a.Some? && b.Some? {
      assert [p] + a.value + b.value == [p] + (a.value + b.value);
    }
    if b.Some? { assert [] + b.value == b.value; }
  }

  lemma {:induction false} KeptBehind(a: seq<Piece>, b: seq<Piece>, i: nat, depth: int)
    requires i <= |b|
    ensures Kept(a + b, |a| + i, depth) == Kept(b, i, depth)
    decreases |b| - i
  {
    hide CleanComment, CounterAt, Shown;
    if i < |b| {
      var ab := a + b;
      assert ab[|a| + i] == b[i];
      CounterBehind(a, b, i, depth);
      if b[i].kind == ';' {
        KeptBehind(a, b, i + 1, depth);
      } else if CounterAt(b, i, depth) {
        CounterFits(b, i, depth);
        KeptBehind(a, b, i + 3, depth);
      } else {
        KeptBehind(a, b, i + 1, depth);
        KeptBehind(a, b, i + 1, DepthAfter(depth, b[i]));
      }
    }
  }

  lemma CounterBehind(a: seq<Piece>, b: seq<Piece>, i: nat, depth: int)
    requires i <= |b|
    ensures CounterAt(a + b, |a| + i, depth) <==> CounterAt(b, i, depth)
  {
    hide IsCounter;
    CounterAtIff(a + b, |a| + i, depth);
    CounterAtIff(b, i, depth);
    if i + 3 <= |b| {
      assert (a + b)[|a| + i..|a| + i + 3] == b[i..i + 3];
    }
  }

  lemma NestingAt(a: seq<Piece>, i: nat, depth: int)
    requires i < |a|
    ensures depth + Nesting(a[i..]) == DepthAfter(depth, a[i]) + Nesting(a[i + 1..])
  {
    assert a[i..][0] == a[i] && a[i..][1..] == a[i + 1..];
  }

  /** What is kept of two parts when no counter lies across their border. */
  lemma {:induction false} KeptJoins(a: seq<Piece>, b: seq<Piece>, i: nat, depth: int)
    requires i <= |a| && !LeavesCounterOpen(a)
    ensures Kept(a + b, i, depth) == Joined(Kept(a, i, depth), Kept(b, 0, depth + Nesting(a[i..])))
    decreases |a| - i
  {
    hide CleanComment, CounterAt, Shown, LeavesCounterOpen, Nesting;
    if i == |a| {
      KeptBehind(a, b, 0, depth);
      NothingNests();
      assert a[i..] == [];
      ConsJoins(Piece('a', ""), None, Kept(b, 0, depth));
    } else {
      assert (a + b)[i] == a[i];
      CounterWithin(a, b, i, depth);
      NestingAt(a, i, depth);
      var behind := Kept(b, 0, depth + Nesting(a[i..]));
      if a[i].kind == ';' {
        KeptJoins(a, b, i + 1, depth);
      } else if CounterAt(a, i, depth) {
        CounterFits(a, i, depth);
        CounterNests(a, i, depth);
        KeptJoins(a, b, i + 3, depth);
      } else {
        KeptJoins(a, b, i + 1, DepthAfter(depth, a[i]));
        ConsJoins(Shown(a[i]), Kept(a, i + 1, DepthAfter(depth, a[i])), behind);
        if a[i].kind == 'e' && CleanComment(a[i].text).Some? {
          ConsJoins(Piece('e', CleanComment(a[i].text).value), Kept(a, i + 1, depth), behind);
        }
      }
    }
  }

  lemma NothingNests()
    ensures Nesting([]) == 0
  {
  }

  lemma CounterNests(a: seq<Piece>, i: nat, depth: int)
    requires i + 3 <= |a| && CounterAt(a, i, depth)
    ensures Nesting(a[i..]) == Nesting(a[i + 3..])
  {
    hide Nesting;
    NestingAt(a, i, 0);
    NestingAt(a, i + 1, 0);
    NestingAt(a, i + 2, 0);
  }

  lemma CounterWithin(a: seq<Piece>, b: seq<Piece>, i: nat, depth: int)
    requires i < |a| && !LeavesCounterOpen(a)
    ensures CounterAt(a + b, i, depth) <==> CounterAt(a, i, depth)
  {
    hide CounterName, Digits;
    CounterAtIff(a + b, i, depth);
    CounterAtIff(a, i, depth);
    if i + 3 <= |a| {
      assert (a + b)[i..i + 3] == a[i..i + 3];
    } else if i + 3 <= |a + b| {
      var three := (a + b)[i..i + 3];
      assert three[0] == a[i];
      assert i == |a| - 2 ==> three[1] == a[i + 1];
    }
  }

  // ---- the counter is left out ----

  lemma CounterKept(counter: seq<Piece>, b: seq<Piece>)
    requires IsCounter(counter)
    ensures Kept(counter + b, 0, 0) == Kept(b, 0, 0)
  {
    hide Kept, IsCounter, CounterName;
    var ps := counter + b;
    assert |counter| == 3 && counter[0].kind == 'w' by { CounterShape(counter); }
    assert ps[0..3] == counter && ps[0] == counter[0];
    CounterAtIff(ps, 0, 0);
    KeptAtCounter(ps);
    KeptBehind(counter, b, 0, 0);
  }

  lemma CounterShape(counter: seq<Piece>)
    requires IsCounter(counter)
    ensures |counter| == 3 && counter[0].kind == 'w' && counter[1].kind == '=' && counter[2].kind == 'w'
  {
  }

  lemma KeptAtCounter(ps: seq<Piece>)
    requires |ps| >= 3 && ps[0].kind == 'w' && CounterAt(ps, 0, 0)
    ensures Kept(ps, 0, 0) == Kept(ps, 3, 0)
  {
    hide CounterAt, CleanComment;
  }

  /** Two texts that differ only in an allocator counter outside parentheses have the same canonical text. */
  lemma CounterIsLeftOut(s: string, t: string, a: seq<Piece>, counter: seq<Piece>, b: seq<Piece>)
    requires Tokens(s).Some? && Pieces(Tokens(s).value) == a + (counter + b)
    requires Tokens(t).Some? && Pieces(Tokens(t).value) == a + b
    requires IsCounter(counter) && Nesting(a) == 0 && !LeavesCounterOpen(a)
    ensures Canonical(s) == Canonical(t)
  {
    hide Tokens, Kept, Spaced, IsCounter, LeavesCounterOpen, Nesting;
    assert a[0..] == a;
    KeptJoins(a, counter + b, 0, 0);
    KeptJoins(a, b, 0, 0);
    CounterKept(counter, b);
    CanonicalIs(s);
    CanonicalIs(t);
  }

  lemma CanonicalIs(s: string)
    requires Tokens(s).Some?
    ensures var kept := Kept(Pieces(Tokens(s).value), 0, 0);
      Canonical(s) == if kept.None? then None else Some(Spaced(kept.value))
  {
    hide Tokens, Kept, Spaced;
  }

  /** Inside parentheses the same three tokens are kept. */
  lemma CounterInsideStays(s: string, a: seq<Piece>, counter: seq<Piece>, b: seq<Piece>)
    requires Canonical(s).Some? && Tokens(s).Some? && Pieces(Tokens(s).value) == a + (counter + b)
    requires IsCounter(counter) && Nesting(a) != 0 && !LeavesCounterOpen(a)
    ensures KeptTokens(s).Some?
    ensures exists front, back ::
      KeptTokens(s).value == front + [Piece('w', Upper(counter[0].text)), counter[1], Piece('w',
        Upper(counter[2].text))] + back
  {
    hide Tokens, Kept, Spaced, LeavesCounterOpen, Nesting, CounterName, Digits;
    var d := Nesting(a);
    assert a[0..] == a;
    KeptJoins(a, counter + b, 0, 0);
    var ps := counter + b;
    CounterShape(counter);
    assert ps[0] == counter[0] && ps[1] == counter[1] && ps[2] == counter[2];
    PlainKept(ps, 0, d);
    PlainKept(ps, 1, d);
    PlainKept(ps, 2, d);
    KeptIs(s);
    var front, back := Kept(a, 0, 0).value, Kept(ps, 3, d).value;
    var three := [Piece('w', Upper(counter[0].text)), counter[1], Piece('w', Upper(counter[2].text))];
    assert Kept(ps, 0, d).value == three + back;
    assert KeptTokens(s).value == front + (three + back) == front + three + back;
  }

  lemma KeptIs(s: string)
    requires Tokens(s).Some?
    ensures KeptTokens(s) == Kept(Pieces(Tokens(s).value), 0, 0)
  {
    hide Tokens, Kept;
  }

  lemma PlainKept(ps: seq<Piece>, i: nat, depth: int)
    requires i < |ps| && depth != 0 && (ps[i].kind == 'w' || ps[i].kind == '=')
    ensures Kept(ps, i, depth) == Cons(if ps[i].kind == 'w' then Piece('w', Upper(ps[i].text)) else ps[i],
      Kept(ps, i + 1, depth))
  {
    hide CleanComment;
  }

  // ---- the case of words ----

  /** The same tokens, up to the case of words. */
  predicate SamePieces(a: seq<Piece>, b: seq<Piece>) {
    |a| == |b| && forall i | 0 <= i < |a| :: SamePiece(a[i], b[i])
  }

  predicate SamePiece(a: Piece, b: Piece) {
    a.kind == b.kind && if a.kind == 'w' then SameWord(a.text, b.text) else a.text == b.text
  }

  lemma SameCounter(a: seq<Piece>, b: seq<Piece>, i: nat, depth: int)
    requires SamePieces(a, b) && i <= |a|
    ensures CounterAt(a, i, depth) <==> CounterAt(b, i, depth)
  {
    hide SameWord, Upper;
    if i + 2 < |a| {
      assert SamePiece(a[i], b[i]) && SamePiece(a[i + 1], b[i + 1]) && SamePiece(a[i + 2], b[i + 2]);
      if a[i].kind == 'w' { SameUpper(a[i].text, b[i].text); }
      if a[i + 2].kind == 'w' { SameDigits(a[i + 2].text, b[i + 2].text); }
    }
  }

  lemma SameDigits(a: string, b: string)
    requires SameWord(a, b)
    ensures Digits(a) <==> Digits(b)
  {
    assert forall i | 0 <= i < |a| :: SameLetter(a[i], b[i]);
    if Digits(a) {
      assert forall i | 0 <= i < |a| :: a[i] in a;
      assert forall c <- b :: '0' <= c <= '9';
    }
    if Digits(b) {
      assert forall i | 0 <= i < |b| :: b[i] in b;
      assert forall c <- a :: '0' <= c <= '9';
    }
  }

  lemma SameShown(a: Piece, b: Piece)
    requires SamePiece(a, b)
    ensures Shown(a) == Shown(b)
  {
    hide SameWord, Upper;
    if a.kind == 'w' { SameUpper(a.text, b.text); }
  }

  lemma {:induction false} SameKept(a: seq<Piece>, b: seq<Piece>, i: nat, depth: int)
    requires SamePieces(a, b) && i <= |a|
    ensures Kept(a, i, depth) == Kept(b, i, depth)
    decreases |a| - i
  {
    hide CleanComment, CounterAt, Shown, SameWord;
    if i < |a| {
      SameCounter(a, b, i, depth);
      SameShown(a[i], b[i]);
      if a[i].kind != ';' && CounterAt(a, i, depth) {
        CounterFits(a, i, depth);
        SameKept(a, b, i + 3, depth);
      } else {
        SameKept(a, b, i + 1, depth);
        SameKept(a, b, i + 1, DepthAfter(depth, a[i]));
      }
    }
  }

  /** Texts whose tokens differ only in the case of words have the same canonical text. */
  lemma CaseIsLeftOut(s: string, t: string)
    requires Tokens(s).Some? && Tokens(t).Some?
    requires SamePieces(Pieces(Tokens(s).value), Pieces(Tokens(t).value))
    ensures Canonical(s) == Canonical(t)
  {
    hide Tokens, Kept, Spaced, SamePieces;
    SameKept(Pieces(Tokens(s).value), Pieces(Tokens(t).value), 0, 0);
    CanonicalIs(s);
    CanonicalIs(t);
  }

  // ---- executable comments that hold nothing but a counter ----

  /** The SQL of an executable comment stands behind the marker, a feature in brackets and a version. */
  predicate CommentParts(marker: string, feature: string, version: string, body: string) {
    && (marker == "/*!" || marker == "/*T!")
    && (feature == "" || (|feature| >= 2 && feature[0] == '[' && feature[|feature| - 1] == ']'
                          && ']' !in feature[..|feature| - 1]))
    && (forall c <- version :: '0' <= c <= '9')
    && (body == "" || !('0' <= body[0] <= '9')) && (feature == "" && version == "" && body != "" ==> body[0] != '[')
  }

  lemma {:induction false} CharAtIs(s: string, from: nat, n: nat, c: char)
    requires from <= n < |s| && s[n] == c && forall k | from <= k < n :: s[k] != c
    ensures CharAt(s, from, c) == Some(n)
    decreases n - from
  {
    if from < n { CharAtIs(s, from + 1, n, c); }
  }

  lemma {:induction false} AfterDigitsIs(s: string, from: nat, n: nat)
    requires from <= n && n + 2 <= |s| && forall k | from <= k < n :: '0' <= s[k] <= '9'
    requires n + 2 == |s| || !('0' <= s[n] <= '9')
    ensures AfterDigits(s, from) == n
    decreases n - from
  {
    if from < n { AfterDigitsIs(s, from + 1, n); }
  }

  lemma VersionEnds(t: string, f: nat, version: string, body: string)
    requires f <= |t| && t[f..] == version + (body + "*/")
    requires (forall c <- version :: '0' <= c <= '9') && (body == "" || !('0' <= body[0] <= '9'))
    ensures AfterDigits(t, f) == f + |version| <= |t| - 2
  {
    hide AfterDigits;
    var tail, n := t[f..], f + |version|;
    assert forall k | f <= k < n :: t[k] == tail[k - f] == version[k - f] && version[k - f] in version;
    assert n + 2 < |t| ==> t[n] == tail[|version|] == body[0];
    AfterDigitsIs(t, f, n);
  }

  lemma FeatureEnds(t: string, m: nat, feature: string, tail: string)
    requires m <= |t| && t[m..] == feature + tail && |feature| >= 2 && feature[0] == '['
    requires feature[|feature| - 1] == ']' && ']' !in feature[..|feature| - 1]
    ensures m < |t| && t[m] == '[' && CharAt(t, m, ']') == Some(m + |feature| - 1)
  {
    hide CharAt;
    var front, n := feature[..|feature| - 1], m + |feature| - 1;
    forall k | m <= k <= n
      ensures t[k] == feature[k - m]
    {
      assert t[k] == t[m..][k - m];
    }
    forall k | m <= k < n
      ensures t[k] != ']'
    {
      assert feature[k - m] == front[k - m] && front[k - m] in front;
    }
    CharAtIs(t, m, n, ']');
  }

  lemma BodyStartIs(t: string, marker: string, feature: string, f: nat, start: nat)
    requires (marker == "/*!" || marker == "/*T!") && ("/*T!" <= t <==> marker == "/*T!") && |marker| < |t|
    requires if feature == "" then t[|marker|] != '[' && f == |marker|
      else t[|marker|] == '[' && f > 0 && CharAt(t, |marker|, ']') == Some(f - 1)
    requires AfterDigits(t, f) == start
    ensures BodyStart(t) == Some(start)
  {
    hide CharAt, AfterDigits;
  }

  lemma BodyStands(marker: string, feature: string, version: string, body: string)
    requires CommentParts(marker, feature, version, body)
    ensures var t := marker + (feature + (version + (body + "*/"))); var start := |marker + feature + version|;
      BodyStart(t) == Some(start) && Body(t, start) == body
  {
    hide CharAt, AfterDigits, Executable, BodyStart, Body;
    var tail := version + (body + "*/");
    var t := marker + (feature + tail);
    var m, f := |marker|, |marker| + |feature|;
    MarkerLength(marker, feature + tail);
    Behind(marker, feature, tail);
    VersionEnds(t, f, version, body);
    if feature != "" {
      FeatureEnds(t, m, feature, tail);
    } else {
      NoFeature(version, body);
      assert feature + tail == tail && t[m] == t[m..][0] == tail[0];
    }
    BodyStartIs(t, marker, feature, f, f + |version|);
    BodyIs(marker + feature + version, body);
    Sides(marker, feature, version, body + "*/");
  }

  lemma Sides(a: string, b: string, c: string, d: string)
    ensures a + (b + (c + d)) == (a + b + c) + d
  {
  }

  lemma Behind(a: string, b: string, c: string)
    ensures (a + (b + c))[|a|..] == b + c && (a + (b + c))[|a| + |b|..] == c
  {
  }

  lemma NoFeature(version: string, body: string)
    requires (forall c <- version :: '0' <= c <= '9') && (version == "" && body != "" ==> body[0] != '[')
    ensures (version + (body + "*/"))[0] != '['
  {
    if version != "" { assert version[0] in version; }
  }

  lemma BodyIs(front: string, body: string)
    ensures Body(front + (body + "*/"), |front|) == body
  {
  }

  lemma MarkerLength(marker: string, tail: string)
    requires marker == "/*!" || marker == "/*T!"
    ensures "/*T!" <= marker + tail <==> marker == "/*T!"
  {
    assert (marker + tail)[..3] == marker[..3];
    assert "/*T!"[2] == 'T' && "/*!"[2] == '!';
    assert marker == "/*!" ==> (marker + tail)[2] == '!';
  }

  lemma {:induction false} TokenInText(s: string, i: nat, k: nat)
    requires i <= |s| && Scan(s, i).Some? && k < |Scan(s, i).value|
    ensures var t := Scan(s, i).value[k]; t.start <= t.end <= |s| && t.text == s[t.start..t.end]
    decreases |s| - i
  {
    hide Step;
    var r := Step(s, i);
    if |Made(s, i, r)| == 0 || k > 0 {
      TokenInText(s, r.next, k - |Made(s, i, r)|);
    }
  }

  lemma MentionsName(a: string, name: string, b: string)
    requires SameWord(name, "AUTO_INCREMENT") || SameWord(name, "AUTO_RANDOM_BASE")
    ensures MentionsAllocator(a + name + b)
  {
    hide SameWord;
    var s := a + name + b;
    SameUpper(name, "AUTO_INCREMENT");
    SameUpper(name, "AUTO_RANDOM_BASE");
    UpperStays("AUTO_INCREMENT");
    UpperStays("AUTO_RANDOM_BASE");
    assert Upper(s)[|a|..] == Upper(name) + Upper(b);
    assert Upper(name) <= Upper(s)[|a|..];
  }

  /** A comment with a counter and nothing else is cleaned away. */
  lemma CounterCommentEmpty(marker: string, feature: string, version: string, body: string)
    requires CommentParts(marker, feature, version, body)
    requires Tokens(body).Some? && IsCounter(Pieces(Tokens(body).value))
    ensures CleanComment(marker + (feature + (version + (body + "*/")))) == Some("")
  {
    hide Tokens, Kept, BodyStart, MentionsAllocator, CounterName;
    var t := marker + (feature + (version + (body + "*/")));
    BodyStands(marker, feature, version, body);
    var ps := Pieces(Tokens(body).value);
    CounterMentioned(marker + feature + version, body);
    assert t == marker + feature + version + body + "*/";
    assert ps + [] == ps;
    CounterKept(ps, []);
    NothingKept();
    CanonicalIs(body);
  }

  lemma NothingKept()
    ensures Kept([], 0, 0) == Some([]) && Spaced([]) == ""
  {
  }

  lemma CounterMentioned(front: string, body: string)
    requires Tokens(body).Some? && IsCounter(Pieces(Tokens(body).value))
    ensures MentionsAllocator(front + body + "*/")
  {
    hide Scan, MentionsAllocator, SameWord;
    var first := Tokens(body).value[0];
    assert Pieces(Tokens(body).value)[0].text == first.text;
    TokenInText(body, 0, 0);
    var a, b := front + body[..first.start], body[first.end..] + "*/";
    assert body == body[..first.start] + first.text + body[first.end..];
    assert front + body + "*/" == a + first.text + b;
    MentionsName(a, first.text, b);
  }

  /** Outside parentheses such a comment makes no difference to the canonical text. */
  lemma CounterCommentIsLeftOut(
    s: string, t: string, a: seq<Piece>, b: seq<Piece>, marker: string, feature: string, version: string, body: string)
    requires CommentParts(marker, feature, version, body)
    requires Tokens(body).Some? && IsCounter(Pieces(Tokens(body).value))
    requires Tokens(s).Some? && Tokens(t).Some? && Pieces(Tokens(t).value) == a + b
    requires Pieces(Tokens(s).value) == a + ([Piece('e', marker + (feature + (version + (body + "*/"))))] + b)
    requires Nesting(a) == 0 && !LeavesCounterOpen(a)
    ensures Canonical(s) == Canonical(t)
  {
    hide Tokens, Kept, Spaced, IsCounter, LeavesCounterOpen, Nesting, CommentParts, CleanComment;
    var comment := Piece('e', marker + (feature + (version + (body + "*/"))));
    CounterCommentEmpty(marker, feature, version, body);
    assert a[0..] == a;
    KeptJoins(a, [comment] + b, 0, 0);
    KeptJoins(a, b, 0, 0);
    CommentKept(comment, b);
    CanonicalIs(s);
    CanonicalIs(t);
  }

  lemma CommentKept(comment: Piece, b: seq<Piece>)
    requires comment.kind == 'e' && CleanComment(comment.text) == Some("")
    ensures Kept([comment] + b, 0, 0) == Kept(b, 0, 0)
  {
    hide CleanComment;
    KeptBehind([comment], b, 0, 0);
    assert ([comment] + b)[0] == comment;
  }
}
