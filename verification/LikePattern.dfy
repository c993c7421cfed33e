/** The escaping of string patterns (orm/predicate.go) against the LIKE predicate with
    ESCAPE '!' (ISO/IEC 9075:1992, section 8.5). */
module LikePattern {
  const ESCAPE: char := '!'

  predicate Special(c: char) {
    c == ESCAPE || c == '%' || c == '_'
  }

  /** LIKE with ESCAPE '!': `%` matches any run, `_` one character, and the character
      after `!` matches itself. A pattern ending in a lone `!` matches nothing. */
  predicate Like(pattern: string, text: string)
    decreases |pattern| + |text|
  {
    if pattern == "" then text == ""
    else if pattern[0] == '%' then Like(pattern[1..], text) || (text != "" && Like(pattern, text[1..]))
    else if pattern[0] == ESCAPE then
      |pattern| >= 2 && text != "" && text[0] == pattern[1] && Like(pattern[2..], text[1..])
    else text != "" && (pattern[0] == '_' || text[0] == pattern[0]) && Like(pattern[1..], text[1..])
  }

  function EscapedChar(c: char): string {
    if Special(c) then [ESCAPE, c] else [c]
  }

  function Escaped(value: string): string {
    if value == "" then "" else Escaped(value[..|value| - 1]) + EscapedChar(value[|value| - 1])
  }

  function SpecialCount(value: string): nat {
    if value == "" then 0
    else SpecialCount(value[..|value| - 1]) + |EscapedChar(value[|value| - 1])| - 1
  }

  function EscapedPattern(value: string, leading: bool, trailing: bool): string {
    (if leading then "%" else "") + (Escaped(value) + (if trailing then "%" else ""))
  }

  /** The first loop of the escaper: the characters it will have to escape. */
  method CountSpecial(value: string) returns (escapedBytes: nat)
    ensures escapedBytes == SpecialCount(value)
  {
    escapedBytes := 0;
    for index := 0 to |value|
      invariant escapedBytes == SpecialCount(value[..index])
    {
      assert value[..index + 1][..index] == value[..index];
      if Special(value[index]) {
        escapedBytes := escapedBytes + 1;
      }
    }
    assert value[..|value|] == value;
  }

  /** The escaper. It sizes its buffer before filling it, and the size is exact. */
  method EscapeLikePattern(value: string, leading: bool, trailing: bool) returns (pattern: string, capacity: nat)
    ensures pattern == EscapedPattern(value, leading, trailing)
    ensures |pattern| == capacity
  {
    var escapedBytes := CountSpecial(value);
    capacity := |value| + escapedBytes;
    if leading { capacity := capacity + 1; }
    if trailing { capacity := capacity + 1; }

    var start := if leading then "%" else "";
    pattern := start;
    for index := 0 to |value|
      invariant pattern == start + Escaped(value[..index])
    {
      EscapedSnoc(start, value, index);
      if Special(value[index]) {
        pattern := pattern + [ESCAPE];
      }
      pattern := pattern + [value[index]];
    }
    assert value[..|value|] == value;
    if trailing { pattern := pattern + "%"; }
    EscapedLength(value);
  }

  lemma EscapedSnoc(start: string, value: string, index: nat)
    requires index < |value|
    ensures start + Escaped(value[..index + 1]) ==
      if Special(value[index]) then start + Escaped(value[..index]) + [ESCAPE] + [value[index]]
      else start + Escaped(value[..index]) + [value[index]]
  {
    assert value[..index + 1][..index] == value[..index];
  }

  lemma {:induction false} EscapedLength(value: string)
    ensures |Escaped(value)| == |value| + SpecialCount(value)
  {
    if value != "" {
      EscapedLength(value[..|value| - 1]);
    }
  }

  lemma {:induction false} EscapedFront(value: string)
    requires value != ""
    ensures Escaped(value) == EscapedChar(value[0]) + Escaped(value[1..])
  {
    var last := |value| - 1;
    if last == 0 {
      assert value[..0] == "" && value[1..] == "";
    } else {
      EscapedFront(value[..last]);
      assert value[..last][1..] == value[1..][..last - 1];
      assert value[1..][|value[1..]| - 1] == value[last];
    }
  }

  /** Reading an escaped value consumes exactly that value from the text. */
  lemma {:induction false} EscapedMatchesItself(value: string, rest: string, text: string)
    ensures Like(Escaped(value) + rest, text) <==> value <= text && Like(rest, text[|value|..])
  {
    if value == "" {
      assert Escaped(value) + rest == rest && text[0..] == text;
    } else {
      EscapedFront(value);
      var p := Escaped(value) + rest;
      var width := |EscapedChar(value[0])|;
      assert p[width..] == Escaped(value[1..]) + rest;
      if text != "" {
        EscapedMatchesItself(value[1..], rest, text[1..]);
        assert value == [value[0]] + value[1..] && text == [text[0]] + text[1..];
        assert value <= text <==> value[0] == text[0] && value[1..] <= text[1..];
        if value[1..] <= text[1..] {
          assert text[1..][|value| - 1..] == text[|value|..];
        }
      }
    }
  }

  lemma PercentMatchesAll(text: string)
    ensures Like("%", text)
    decreases |text|
  {
    if text == "" {
      assert "%"[1..] == "";
    } else {
      PercentMatchesAll(text[1..]);
    }
  }

  /** A leading `%` lets the rest of the pattern start anywhere. */
  lemma {:induction false} LeadingPercent(rest: string, text: string)
    ensures Like("%" + rest, text) <==> exists k :: 0 <= k <= |text| && Like(rest, text[k..])
    decreases |text|
  {
    assert ("%" + rest)[1..] == rest;
    assert text[0..] == text;
    if text != "" {
      LeadingPercent(rest, text[1..]);
      if k :| 0 <= k <= |text[1..]| && Like(rest, text[1..][k..]) {
        assert text[1..][k..] == text[k + 1..];
      }
      if k :| 0 <= k <= |text| && Like(rest, text[k..]) {
        if k > 0 {
          assert text[1..][k - 1..] == text[k..];
        }
      }
    }
  }

  ghost predicate Contains(text: string, value: string) {
    exists k :: 0 <= k <= |text| && value <= text[k..]
  }

  /** HasPrefix, HasSuffix and Contains match exactly the strings they are named after,
      for every value, `!`, `%` and `_` included. */
  lemma PatternMeaning(value: string, text: string)
    ensures Like(EscapedPattern(value, false, true), text) <==> value <= text
    ensures Like(EscapedPattern(value, true, false), text) <==> |value| <= |text| && text[|text| - |value|..] == value
    ensures Like(EscapedPattern(value, true, true), text) <==> Contains(text, value)
  {
    PrefixMeaning(value, text);
    SuffixMeaning(value, text);
    ContainsMeaning(value, text);
  }

  lemma PrefixMeaning(value: string, text: string)
    ensures Like(EscapedPattern(value, false, true), text) <==> value <= text
  {
    assert EscapedPattern(value, false, true) == Escaped(value) + "%";
    EscapedMatchesItself(value, "%", text);
    if value <= text {
      PercentMatchesAll(text[|value|..]);
    }
  }

  lemma WholeMeaning(value: string, text: string)
    ensures Like(Escaped(value) + "", text) <==> text == value
  {
    EscapedMatchesItself(value, "", text);
  }

  lemma SuffixMeaning(value: string, text: string)
    ensures Like(EscapedPattern(value, true, false), text) <==> |value| <= |text| && text[|text| - |value|..] == value
  {
    LeadingPercent(Escaped(value) + "", text);
    forall k | 0 <= k <= |text|
      ensures Like(Escaped(value) + "", text[k..]) <==> text[k..] == value
    {
      WholeMeaning(value, text[k..]);
    }
    if |value| <= |text| {
      assert text[|text| - |value|..] == value <==> Like(Escaped(value) + "", text[|text| - |value|..]);
    }
  }

  lemma ContainsMeaning(value: string, text: string)
    ensures Like(EscapedPattern(value, true, true), text) <==> Contains(text, value)
  {
    LeadingPercent(Escaped(value) + "%", text);
    forall k | 0 <= k <= |text|
      ensures Like(Escaped(value) + "%", text[k..]) <==> value <= text[k..]
    {
      EscapedMatchesItself(value, "%", text[k..]);
      if value <= text[k..] {
        PercentMatchesAll(text[k..][|value|..]);
      }
    }
  }
}
