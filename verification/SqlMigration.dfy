/** Migration files (migrate/sql.go:102-145): the up and down sections, and why each of them lexes and splits by
    itself into the statements that were checked in the whole file. */
module SqlMigration {
  import opened SqlLexer
  import opened SqlSections

  const UP_DIRECTIVE := "-- tidbgo:up"
  const DOWN_DIRECTIVE := "-- tidbgo:down"

  /** At least one statement, and all accepted. */
  predicate SectionValid(ps: seq<Piece>, base: nat, end: nat)
    requires base <= end <= |ps|
  {
    StatementsIn(ps, base, end) != [] && AllValid(StatementsIn(ps, base, end))
  }

  /** The tokens of an accepted file whose down directive is token `k`, or which has none. */
  ghost predicate IsFile(ts: seq<Token>, k: nat) {
    && 1 <= k <= |ts|
    && ts[0].kind == 'd' && ts[0].text == UP_DIRECTIVE
    && (forall i | 1 <= i < |ts| && i != k :: ts[i].kind != 'd')
    && SectionValid(Pieces(ts), 1, k)
    && (k < |ts| ==>
          && ts[k].kind == 'd' && ts[k].text == DOWN_DIRECTIVE
          && FirstOf(Pieces(ts), 1, k) == k
          && SectionValid(Pieces(ts), k + 1, |ts|))
  }

  function BoundaryOf(source: string, ts: seq<Token>, k: nat): nat {
    if k < |ts| && ts[k].start <= |source| then ts[k].start else |source|
  }

  lemma {:induction false} SectionsPlaced(s: string, i: nat)
    requires i <= |s| && ScanSections(s, i).Some?
    ensures Placed(s, ScanSections(s, i).value, i)
    decreases |s| - i
  {
    hide Step, IsDirective, OnOwnLine, TrimSpace;
    if i < |s| {
      SectionsPlaced(s, Step(s, i).next);
    }
  }

  // ---- refusals ----

  /** An invalid statement before `i` in the section that starts at `base` refuses every file with that section. */
  lemma NoFileUp(ts: seq<Token>, i: nat)
    requires 1 <= i <= |ts| && !AllValid(Complete(Pieces(ts), 1, i)) && forall j | 1 <= j < i :: ts[j].kind != 'd'
    ensures forall k: nat :: !IsFile(ts, k)
  {
    hide StatementsIn, AllValid, Complete, FirstOf;
    forall k: nat | IsFile(ts, k)
      ensures false
    {
      NeverValid(Pieces(ts), 1, i, k);
    }
  }

  lemma NoFileDown(ts: seq<Token>, d: nat, i: nat)
    requires 1 <= d < i <= |ts| && ts[d].kind == 'd' && !AllValid(Complete(Pieces(ts), d + 1, i))
    ensures forall k: nat :: !IsFile(ts, k)
  {
    hide StatementsIn, AllValid, Complete, FirstOf;
    forall k: nat | IsFile(ts, k)
      ensures false
    {
      assert k == d;
      NeverValid(Pieces(ts), d + 1, i, |ts|);
    }
  }

  /** The up section ends where the down directive starts. */
  ghost predicate SplitBy(source: string, up: string)
    requires SectionTokens(source).Some?
  {
    var ts := SectionTokens(source).value;
    exists k: nat :: IsFile(ts, k) && up == source[..BoundaryOf(source, ts, k)]
  }

  /** Splits a file at its down directive. Every section is checked statement by statement on the way. */
  method MigrationParts(source: string) returns (ok: bool, up: string, down: string)
    ensures ok <==> SectionTokens(source).Some? && exists k: nat :: IsFile(SectionTokens(source).value, k)
    ensures ok ==> up + down == source
    ensures ok ==> SplitBy(source, up)
  {
    hide SectionTokens, ValidStatement, Complete, FirstOf, StatementsIn, AllValid, IsFile;
    up, down := "", "";
    var scanned := ScanTokens(source, true);
    if scanned.None? {
      return false, up, down;
    }
    var ts := scanned.value;
    var ps := Pieces(ts);
    FilePlaced(source);
    if |ts| == 0 || ts[0].kind != 'd' || ts[0].text != UP_DIRECTIVE {
      NoHead(ts);
      return false, up, down;
    }
    var first: nat, statements: nat, boundary := 1, 0, |source|;
    ghost var k: nat, base: nat := |ts|, 1;
    SplitEnd(ps, 1, |ts|);
    for i := 1 to |ts|
      invariant Scanning(ts, i, k, base) && first == FirstOf(ps, base, i) && statements == |Complete(ps, base, i)|
      invariant boundary <= |source| && boundary == BoundaryOf(source, ts, k) && (boundary == |source| <==> k == |ts|)
    {
      var t := ts[i];
      ScanningStep(ts, i, k, base);
      if t.kind == 'd' {
        if t.text != DOWN_DIRECTIVE || boundary != |source| {
          return false, up, down;
        }
        if i != first || statements == 0 {
          return false, up, down;
        }
        SplitEnd(ps, i + 1, |ts|);
        k, base := i, i + 1;
        boundary, first, statements := t.start, i + 1, 0;
        continue;
      }
      if t.kind == ';' {
        if i > first {
          if !ValidStatement(ps[first..i]) {
            return false, up, down;
          }
          statements := statements + 1;
        }
        first := i + 1;
      }
    }
    ScanningEnd(ts, k, base);
    if first < |ts| {
      if !ValidStatement(ps[first..|ts|]) {
        return false, up, down;
      }
      statements := statements + 1;
    }
    if statements == 0 {
      return false, up, down;
    }
    ok, up, down := true, source[..boundary], source[boundary..];
  }

  lemma NoHead(ts: seq<Token>)
    requires |ts| == 0 || ts[0].kind != 'd' || ts[0].text != UP_DIRECTIVE
    ensures forall k: nat :: !IsFile(ts, k)
  {
  }

  lemma FilePlaced(source: string)
    requires SectionTokens(source).Some?
    ensures Placed(source, SectionTokens(source).value, 0)
  {
    SectionsPlaced(source, 0);
  }

  /** What is known before token `i`: the down directive `k` if it was seen, and the section from `base` on. */
  ghost predicate Scanning(ts: seq<Token>, i: nat, k: nat, base: nat) {
    && 1 <= base <= i <= |ts| && ts[0].kind == 'd' && ts[0].text == UP_DIRECTIVE
    && (forall j | 1 <= j < i && j != k :: ts[j].kind != 'd')
    && AllValid(Complete(Pieces(ts), base, i))
    && (if k == |ts| then base == 1
        else
          && 1 <= k < i && base == k + 1 && ts[k].kind == 'd' && ts[k].text == DOWN_DIRECTIVE
          && FirstOf(Pieces(ts), 1, k) == k && SectionValid(Pieces(ts), 1, k))
  }

  /** What token `i` does to it, in every case of the loop. */
  lemma ScanningStep(ts: seq<Token>, i: nat, k: nat, base: nat)
    requires i < |ts| && Scanning(ts, i, k, base)
    ensures var ps, t := Pieces(ts), ts[i]; var first := FirstOf(ps, base, i); var done := Complete(ps, base, i);
      && (t.kind == 'd' && (t.text != DOWN_DIRECTIVE || k != |ts|) ==> forall f: nat :: !IsFile(ts, f))
      && (t.kind == 'd' && t.text == DOWN_DIRECTIVE && k == |ts| && (first != i || done == []) ==>
            forall f: nat :: !IsFile(ts, f))
      && (t.kind == 'd' && t.text == DOWN_DIRECTIVE && k == |ts| && first == i && done != [] ==> Scanning(ts, i + 1,
        i, i + 1))
      && (t.kind == ';' && first < i && !ValidStatement(ps[first..i]) ==> forall f: nat :: !IsFile(ts, f))
      && (t.kind == ';' && first < i && ValidStatement(ps[first..i]) ==>
            Scanning(ts, i + 1, k, base) && |Complete(ps, base, i + 1)| == |done| + 1)
      && (t.kind == ';' ==> FirstOf(ps, base, i + 1) == i + 1)
      && (t.kind == ';' && first == i ==> Scanning(ts, i + 1, k, base) && |Complete(ps, base, i + 1)| == |done|)
      && (t.kind != 'd' && t.kind != ';' ==>
            Scanning(ts, i + 1, k, base) && |Complete(ps, base, i + 1)| == |done| && FirstOf(ps, base, i + 1) == first)
  {
    hide StatementsIn, AllValid, Complete, FirstOf, ValidStatement;
    var ps, t := Pieces(ts), ts[i];
    var first, done := FirstOf(ps, base, i), Complete(ps, base, i);
    SplitStep(ps, base, i);
    AllValidGrows(done, ps[first..i]);
    if t.kind == 'd' {
      DirectiveSeen(ts, i, k, base);
    } else if t.kind == ';' && first < i && !ValidStatement(ps[first..i]) {
      if k == |ts| {
        NoFileUp(ts, i + 1);
      } else {
        NoFileDown(ts, k, i + 1);
      }
    }
  }

  lemma DirectiveSeen(ts: seq<Token>, i: nat, k: nat, base: nat)
    requires i < |ts| && Scanning(ts, i, k, base) && ts[i].kind == 'd'
    ensures var ps, t := Pieces(ts), ts[i]; var first := FirstOf(ps, base, i); var done := Complete(ps, base, i);
      && (t.text != DOWN_DIRECTIVE || k != |ts| ==> forall f: nat :: !IsFile(ts, f))
      && (t.text == DOWN_DIRECTIVE && k == |ts| && (first != i || done == []) ==>
            forall f: nat :: !IsFile(ts, f))
      && (t.text == DOWN_DIRECTIVE && k == |ts| && first == i && done != [] ==> Scanning(ts, i + 1, i, i + 1))
  {
    hide AllValid, Complete, FirstOf, StatementsIn;
    var ps := Pieces(ts);
    SplitEnd(ps, base, i);
    SplitEnd(ps, i + 1, i + 1);
    if k != |ts| {
      TwoDirectives(ts, k, i);
    }
    OneDirective(ts, i);
  }

  lemma TwoDirectives(ts: seq<Token>, a: nat, b: nat)
    requires 1 <= a < b < |ts| && ts[a].kind == 'd' && ts[b].kind == 'd'
    ensures forall f: nat :: !IsFile(ts, f)
  {
    hide SectionValid, FirstOf;
  }

  lemma OneDirective(ts: seq<Token>, d: nat)
    requires 1 <= d < |ts| && ts[d].kind == 'd'
    ensures forall f: nat :: IsFile(ts, f) ==>
      f == d && ts[d].text == DOWN_DIRECTIVE && FirstOf(Pieces(ts), 1, d) == d && SectionValid(Pieces(ts), 1, d)
  {
    hide SectionValid, FirstOf;
  }

  lemma NoDirective(ts: seq<Token>)
    requires forall j | 1 <= j < |ts| :: ts[j].kind != 'd'
    ensures forall f: nat :: IsFile(ts, f) ==> f == |ts|
  {
    hide SectionValid, FirstOf;
  }

  /** The end of the file: the last statement, and the verdict. */
  lemma ScanningEnd(ts: seq<Token>, k: nat, base: nat)
    requires Scanning(ts, |ts|, k, base)
    ensures var ps := Pieces(ts); var first := FirstOf(ps, base, |ts|); var done := Complete(ps, base, |ts|);
      && (first < |ts| && !ValidStatement(ps[first..|ts|]) ==> forall f: nat :: !IsFile(ts, f))
      && (first == |ts| && done == [] ==> forall f: nat :: !IsFile(ts, f))
      && ((first < |ts| && ValidStatement(ps[first..|ts|])) || (first == |ts| && done != []) ==> IsFile(ts, k))
  {
    hide AllValid, Complete, FirstOf, StatementsIn, ValidStatement;
    var ps := Pieces(ts);
    var first, done := FirstOf(ps, base, |ts|), Complete(ps, base, |ts|);
    SplitEnd(ps, base, |ts|);
    AllValidGrows(done, ps[first..|ts|]);
    if k < |ts| {
      OneDirective(ts, k);
    } else {
      NoDirective(ts);
    }
  }
}
