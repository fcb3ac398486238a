// The pieces of SQL text the classifier macros are made of: string literals
// (section 5.3 of ISO/IEC 9075-2) and LIKE patterns with an escape character
// (section 8.5 of the same).
module SqlText {
  import opened Wrappers

  // strings.ReplaceAll for a one-character old string.
  function ReplaceAll(s: string, from: char, to: string): string {
    if s == "" then ""
    else (if s[0] == from then to else [s[0]]) + ReplaceAll(s[1..], from, to)
  }

  function SqlString(value: string): string {
    "'" + ReplaceAll(value, '\'', "''") + "'"
  }

  // ---------------------------------------------------------------- literals

  // The inside of a literal up to its closing quote, and what follows it.
  function ReadBody(text: string): Option<(string, string)>
    decreases |text|
  {
    if text == "" then None
    else if text[0] != '\'' then
      var more := ReadBody(text[1..]);
      if more.None? then None else Some(([text[0]] + more.value.0, more.value.1))
    else if |text| > 1 && text[1] == '\'' then
      var more := ReadBody(text[2..]);
      if more.None? then None else Some(("'" + more.value.0, more.value.1))
    else Some(("", text[1..]))
  }

  function ReadLiteral(text: string): Option<(string, string)> {
    if text != "" && text[0] == '\'' then ReadBody(text[1..]) else None
  }

  lemma {:induction false} ReadBodyInverts(value: string, rest: string)
    requires rest == "" || rest[0] != '\''
    ensures ReadBody(ReplaceAll(value, '\'', "''") + "'" + rest) == Some((value, rest))
  {
    var text := ReplaceAll(value, '\'', "''") + "'" + rest;
    if value == "" {
      assert text == "'" + rest && text[1..] == rest;
    } else {
      var tail := ReplaceAll(value[1..], '\'', "''") + "'" + rest;
      ReadBodyInverts(value[1..], rest);
      assert value == [value[0]] + value[1..];
      if value[0] == '\'' {
        assert text == "''" + tail && text[2..] == tail;
      } else {
        assert text == [value[0]] + tail && text[1..] == tail;
      }
    }
  }

  // A literal decodes to the text it was written from.
  lemma ReadLiteralInverts(value: string, rest: string)
    requires rest == "" || rest[0] != '\''
    ensures ReadLiteral(SqlString(value) + rest) == Some((value, rest))
  {
    ReadBodyInverts(value, rest);
    assert (SqlString(value) + rest)[1..] == ReplaceAll(value, '\'', "''") + "'" + rest;
  }

  // -------------------------------------------------------------------- LIKE

  datatype Item = AnyRun | AnyOne | Exactly(c: char)

  // An escape character must be followed by itself or by a wildcard.
  function ParsePattern(pattern: string, escape: char): Option<seq<Item>>
    decreases |pattern|
  {
    if pattern == "" then Some([])
    else if pattern[0] == escape then
      if |pattern| == 1 || (pattern[1] != escape && pattern[1] != '%' && pattern[1] != '_') then None
      else
        var more := ParsePattern(pattern[2..], escape);
        if more.None? then None else Some([Exactly(pattern[1])] + more.value)
    else
      var more := ParsePattern(pattern[1..], escape);
      if more.None? then None
      else
        var item := if pattern[0] == '%' then AnyRun else if pattern[0] == '_' then AnyOne else Exactly(pattern[0]);
        Some([item] + more.value)
  }

  predicate MatchItems(items: seq<Item>, s: string)
    decreases |items|
  {
    if items == [] then s == ""
    else
      match items[0]
      case AnyRun => exists k :: 0 <= k <= |s| && MatchItems(items[1..], s[k..])
      case AnyOne => s != "" && MatchItems(items[1..], s[1..])
      case Exactly(c) => s != "" && s[0] == c && MatchItems(items[1..], s[1..])
  }

  // s LIKE pattern ESCAPE escape; a malformed pattern is an error and selects nothing.
  predicate Like(s: string, pattern: string, escape: char) {
    var items := ParsePattern(pattern, escape);
    items.Some? && MatchItems(items.value, s)
  }

  predicate OccursAt(s: string, t: string, i: int) {
    0 <= i <= |s| - |t| && s[i..i + |t|] == t
  }

  // strings.Contains
  predicate Contains(s: string, t: string) {
    exists i :: 0 <= i <= |s| && OccursAt(s, t, i)
  }

  function EscapeLike(token: string): string {
    ReplaceAll(ReplaceAll(token, '|', "||"), '_', "|_")
  }

  function Literally(token: string): seq<Item> {
    if token == "" then [] else [Exactly(token[0])] + Literally(token[1..])
  }

  lemma {:induction false} ReplaceAllAppend(a: string, b: string, from: char, to: string)
    ensures ReplaceAll(a + b, from, to) == ReplaceAll(a, from, to) + ReplaceAll(b, from, to)
  {
    if a == "" {
      assert a + b == b;
    } else {
      ReplaceAllAppend(a[1..], b, from, to);
      assert (a + b)[1..] == a[1..] + b && (a + b)[0] == a[0];
    }
  }

  lemma EscapeLikeStep(token: string)
    requires token != ""
    ensures EscapeLike(token) == EscapeLike([token[0]]) + EscapeLike(token[1..])
    ensures EscapeLike([token[0]]) == if token[0] == '|' then "||" else if token[0] == '_' then "|_" else [token[0]]
  {
    var first, rest := [token[0]], token[1..];
    assert token == first + rest;
    ReplaceAllAppend(first, rest, '|', "||");
    ReplaceAllAppend(ReplaceAll(first, '|', "||"), ReplaceAll(rest, '|', "||"), '_', "|_");
    assert first[1..] == "";
    if token[0] == '|' {
      assert ReplaceAll(first, '|', "||") == "||";
      assert ReplaceAll("||", '_', "|_") == "||" by { assert "||"[1..] == "|" && "|"[1..] == ""; }
    }
  }

  // The two replacements in sequence turn every character of the token, the
  // wildcard '_' and the escape '|' included, into one literal item.
  lemma {:induction false} EscapeParses(token: string)
    requires '%' !in token
    ensures ParsePattern(EscapeLike(token) + "%", '|') == Some(Literally(token) + [AnyRun])
  {
    var pattern := EscapeLike(token) + "%";
    if token == "" {
      assert pattern == "%" && pattern[1..] == "";
      assert ParsePattern(pattern[1..], '|') == Some([]) && [AnyRun] + [] == Literally(token) + [AnyRun];
    } else {
      EscapeLikeStep(token);
      EscapeParses(token[1..]);
      var head, tail := EscapeLike([token[0]]), EscapeLike(token[1..]) + "%";
      assert pattern == head + tail && pattern[|head|..] == tail;
      assert pattern[0] == head[0] && (|head| == 2 ==> pattern[1] == head[1]);
      assert [Exactly(token[0])] + (Literally(token[1..]) + [AnyRun]) == Literally(token) + [AnyRun];
    }
  }

  lemma {:induction false} LiteralPrefix(token: string, s: string)
    ensures MatchItems(Literally(token) + [AnyRun], s) <==> |token| <= |s| && s[..|token|] == token
  {
    var items := Literally(token) + [AnyRun];
    if token == "" {
      assert items == [AnyRun] && s[|s|..] == "" && MatchItems([], s[|s|..]);
    } else {
      assert items[1..] == Literally(token[1..]) + [AnyRun];
      if s != "" {
        LiteralPrefix(token[1..], s[1..]);
        if |token| <= |s| {
          assert s[..|token|] == [s[0]] + s[1..][..|token| - 1] && token == [token[0]] + token[1..];
          assert s[..|token|] == token ==> s[1..][..|token| - 1] == token[1..];
        }
      }
    }
  }

  // LIKE '%escaped token%' ESCAPE '|' says the same as strings.Contains.
  lemma LikeIsContains(s: string, token: string)
    requires '%' !in token
    ensures Like(s, "%" + EscapeLike(token) + "%", '|') <==> Contains(s, token)
  {
    var pattern := "%" + EscapeLike(token) + "%";
    assert pattern[1..] == EscapeLike(token) + "%" && pattern[0] == '%';
    EscapeParses(token);
    var items := [AnyRun] + (Literally(token) + [AnyRun]);
    assert ParsePattern(pattern, '|') == Some(items);
    assert items[1..] == Literally(token) + [AnyRun];
    forall k | 0 <= k <= |s|
      ensures MatchItems(items[1..], s[k..]) <==> OccursAt(s, token, k)
    {
      LiteralPrefix(token, s[k..]);
      if k <= |s| - |token| { assert s[k..][..|token|] == s[k..k + |token|]; }
    }
  }
}
