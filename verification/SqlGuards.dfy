/** Which statements a migration may contain (migrate/sql.go:147-234): the verbs, and the names of the migration state
    and of the locking functions, also quoted or inside an executable comment. */
module SqlGuards {
  import opened SqlValues
  import opened SqlLexer
  import opened SqlSections
  import opened SqlCounters
  import opened SqlReading

  predicate Either(word: string, one: string, other: string) {
    SameWord(word, one) || SameWord(word, other)
  }

  /** The first two words of a statement, in any case. */
  predicate Supported(first: string, second: string) {
    || (SameWord(first, "CREATE") && (Either(second, "TABLE", "INDEX") || Either(second, "UNIQUE", "VECTOR")))
    || (Either(first, "ALTER", "RENAME") && SameWord(second, "TABLE"))
    || (SameWord(first, "DROP") && Either(second, "TABLE", "INDEX"))
    || SameWord(first, "TRUNCATE") || Either(first, "INSERT", "REPLACE") || Either(first, "UPDATE", "DELETE")
  }

  lemma UpperIs(word: string, capitals: string)
    requires forall c <- capitals :: !('a' <= c <= 'z')
    ensures SameWord(word, capitals) <==> Upper(word) == capitals
  {
    hide SameWord, Upper;
    SameUpper(word, capitals);
    UpperStays(capitals);
  }

  lemma VerbIff(first: string, second: string)
    ensures SupportedVerb(Upper(first), Upper(second)) <==> Supported(first, second)
  {
    hide SameWord, Upper;
    UpperIs(first, "CREATE");
    UpperIs(first, "ALTER");
    UpperIs(first, "RENAME");
    UpperIs(first, "DROP");
    UpperIs(first, "TRUNCATE");
    UpperIs(first, "INSERT");
    UpperIs(first, "REPLACE");
    UpperIs(first, "UPDATE");
    UpperIs(first, "DELETE");
    UpperIs(second, "TABLE");
    UpperIs(second, "INDEX");
    UpperIs(second, "UNIQUE");
    UpperIs(second, "VECTOR");
  }

  /** A statement is accepted when it starts with two supported words and none of its tokens is reserved. */
  lemma StatementIff(ps: seq<Piece>)
    ensures ValidStatement(ps) <==>
      |ps| >= 2 && ps[0].kind == 'w' && Supported(ps[0].text, ps[1].text) && forall p <- ps :: !Reserved(p)
  {
    hide SupportedVerb, Supported, Reserved;
    if |ps| >= 2 { VerbIff(ps[0].text, ps[1].text); }
  }

  // ---- reserved names ----

  predicate ReservedWord(word: string) {
    Either(word, "_tidbgo_migrations", "get_lock") || Either(word, "release_lock", "release_all_locks")
  }

  lemma SameLower(a: string, b: string)
    ensures SameWord(a, b) <==> Lower(a) == Lower(b)
  {
    if Lower(a) == Lower(b) {
      forall i | 0 <= i < |a|
        ensures SameLetter(a[i], b[i])
      {
        assert Lower(a)[i] == Lower(b)[i];
      }
    }
    if SameWord(a, b) {
      forall i | 0 <= i < |a|
        ensures Lower(a)[i] == Lower(b)[i]
      {
        assert SameLetter(a[i], b[i]);
      }
    }
  }

  lemma LowerIs(word: string, small: string)
    requires forall c <- small :: !('A' <= c <= 'Z')
    ensures SameWord(word, small) <==> Lower(word) == small
  {
    hide SameWord;
    SameLower(word, small);
    assert Lower(small) == small by {
      assert forall i | 0 <= i < |small| :: small[i] in small;
    }
  }

  lemma NameIff(word: string)
    ensures ReservedName(Lower(word)) <==> ReservedWord(word)
  {
    hide SameWord, Lower;
    LowerIs(word, "_tidbgo_migrations");
    LowerIs(word, "get_lock");
    LowerIs(word, "release_lock");
    LowerIs(word, "release_all_locks");
  }

  /** A word is reserved when it is one of the names, in any case. */
  lemma WordReservedIff(p: Piece)
    requires p.kind == 'w'
    ensures Reserved(p) <==> ReservedWord(p.text)
  {
    hide ReservedName, ReservedWord, Lower;
    NameIff(p.text);
  }

  /** The name that back quotes stand for. */
  function NameOf(units: seq<Unit>): string {
    if units == [] then ""
    else (match units[0] case Plain(c) => [c] case Doubled => "`" case Escaped(c) => ['\\', c]) + NameOf(units[1..])
  }

  lemma {:induction false} UnquotedIs(units: seq<Unit>)
    requires forall u <- units :: UnitFits(u, '`')
    ensures Unquoted(Inside(units, '`')) == NameOf(units)
  {
    if units != [] {
      var rest := Inside(units[1..], '`');
      assert units[0] in units && forall u <- units[1..] :: u in units;
      UnquotedIs(units[1..]);
      if units[0].Plain? {
        assert ([units[0].c] + rest)[1..] == rest;
      } else {
        assert (['`', '`'] + rest)[2..] == rest;
      }
    }
  }

  /** A quoted name is reserved when what it stands for is one of the names. */
  lemma QuotedReservedIff(units: seq<Unit>)
    requires Fits(Quoted('`', units))
    ensures Reserved(Piece('`', Literal('`', units))) <==> ReservedWord(NameOf(units))
  {
    hide ReservedName, ReservedWord, Lower, Unquoted;
    var t := Literal('`', units);
    assert t[1..|t| - 1] == Inside(units, '`');
    UnquotedIs(units);
    NameIff(NameOf(units));
  }

  /** Text in other quotes, and punctuation, is never reserved. */
  lemma OthersAreFree(p: Piece)
    requires p.kind != 'w' && p.kind != '`' && p.kind != 'e'
    ensures !Reserved(p)
  {
  }

  /** An executable comment is reserved when its SQL does not lex or a token of it is reserved. */
  lemma CommentReservedIff(marker: string, feature: string, version: string, body: string)
    requires CommentParts(marker, feature, version, body)
    ensures Reserved(Piece('e', marker + (feature + (version + (body + "*/"))))) <==>
      Tokens(body).None? || exists q <- Pieces(Tokens(body).value) :: Reserved(q)
  {
    hide BodyStart, Tokens, Body, CommentParts;
    BodyStands(marker, feature, version, body);
  }

  /** So is one whose feature is not closed. */
  lemma OpenFeatureIsReserved(marker: string, rest: string)
    requires (marker == "/*!" || marker == "/*T!") && ']' !in rest
    ensures Reserved(Piece('e', marker + ("[" + rest + "*/")))
  {
    var t := marker + ("[" + rest + "*/");
    MarkerLength(marker, "[" + rest + "*/");
    assert forall k | |marker| <= k < |t| :: t[k] in "[" + rest + "*/";
    assert ']' !in "[" + rest + "*/";
    NoCharAt(t, |marker|, ']');
  }

  lemma {:induction false} NoCharAt(s: string, from: nat, c: char)
    requires forall k | from <= k < |s| :: s[k] != c
    ensures CharAt(s, from, c) == None
    decreases |s| - from
  {
    if from < |s| { NoCharAt(s, from + 1, c); }
  }
}
