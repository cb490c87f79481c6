/** Text values through a dump: `quote_text` on export, the lexer and the parser on import. */
module TextLiteral {
  import opened Common
  import opened SqlLexer

  /** Rust's `replace(q, qq)`. */
  function Doubled(q: char, v: string): string {
    if v == [] then [] else (if v[0] == q then [q, q] else [v[0]]) + Doubled(q, v[1..])
  }

  /** src/sql_dump.rs:118-120 */
  function QuoteText(v: string): string {
    "'" + Doubled('\'', v) + "'"
  }

  /** src/sql_dump.rs:100-102 */
  function QuoteIdentifier(name: string): string {
    "\"" + Doubled('"', name) + "\""
  }

  /** `parse_string_literal` (crates/radixdb-sql/src/expressions.rs:338-394) on a token's content. */
  function Unescape(s: string): string {
    if s == [] then []
    else if s[0] == '\\' && |s| > 1 && s[1] == 'n' then "\n" + Unescape(s[2..])
    else if s[0] == '\\' && |s| > 1 && s[1] == 't' then "\t" + Unescape(s[2..])
    else if s[0] == '\\' && |s| > 1 && s[1] == 'r' then "\r" + Unescape(s[2..])
    else if s[0] == '\\' && |s| > 1 && (s[1] == '\'' || s[1] == '\\') then [s[1]] + Unescape(s[2..])
    else [s[0]] + Unescape(s[1..])
  }

  /** The value of a text that is one string literal and nothing else. */
  function ReadText(sql: string): Option<string> {
    if sql == [] || sql[0] != '\'' then None
    else
      var b := StringBody(sql[1..]);
      if b.Closed? && b.rest == [] && !TooLong(b.content) then Some(Unescape(b.content)) else None
  }

  // ---------------------------------------------------------------- when the lexer finds the end again

  /** No NUL, and reading left to right no quote and no end directly follows an unpaired backslash. */
  predicate LexSafe(v: string) {
    v == [] ||
    (v[0] != '\0' &&
     if v[0] == '\\' then |v| > 1 && v[1] != '\'' && v[1] != '\0' && LexSafe(v[2..]) else LexSafe(v[1..]))
  }

  lemma BodyOfPair(t: string)
    ensures StringBody("''" + t) == Prepend("'", StringBody(t))
  {
    assert ("''" + t)[2..] == t;
  }

  lemma BodyOfEscape(p: string, t: string)
    requires |p| == 2 && p[0] == '\\' && p[1] != '\0'
    ensures StringBody(p + t) == Prepend(p, StringBody(t))
  {
    assert (p + t)[2..] == t && (p + t)[..2] == p;
  }

  lemma BodyOfChar(p: string, t: string)
    requires |p| == 1 && p[0] !in "\0'\\"
    ensures StringBody(p + t) == Prepend(p, StringBody(t))
  {
    assert (p + t)[1..] == t && (p + t)[..1] == p;
  }

  /** The doubled value, its closing quote and what follows, character by character. */
  function Spelled(v: string, rest: string): string {
    if v == [] then "'" + rest else (if v[0] == '\'' then "''" else [v[0]]) + Spelled(v[1..], rest)
  }

  lemma {:induction false} SpelledIsQuoted(v: string, rest: string)
    ensures Spelled(v, rest) == Doubled('\'', v) + "'" + rest
    decreases |v|
  {
    if v != [] {
      SpelledIsQuoted(v[1..], rest);
    }
  }

  lemma SpelledTwo(v: string, rest: string)
    requires |v| > 1 && v[0] != '\''
    ensures v[1] != '\'' ==> Spelled(v, rest) == v[..2] + Spelled(v[2..], rest)
    ensures v[1] == '\'' ==> Spelled(v, rest) == [v[0], '\''] + ("'" + Spelled(v[2..], rest))
  {
    assert v[1..][1..] == v[2..];
  }

  lemma {:induction false} SafeBodyCloses(v: string, rest: string)
    requires LexSafe(v) && (rest == [] || rest[0] != '\'')
    ensures StringBody(Spelled(v, rest)) == Closed(v, rest)
    decreases |v|
  {
    if v == [] {
    } else if v[0] == '\'' {
      BodyOfPair(Spelled(v[1..], rest));
      SafeBodyCloses(v[1..], rest);
      assert v == "'" + v[1..];
    } else if v[0] == '\\' {
      SpelledTwo(v, rest);
      BodyOfEscape(v[..2], Spelled(v[2..], rest));
      SafeBodyCloses(v[2..], rest);
      assert v == v[..2] + v[2..];
    } else {
      BodyOfChar([v[0]], Spelled(v[1..], rest));
      SafeBodyCloses(v[1..], rest);
      assert v == [v[0]] + v[1..];
    }
  }

  predicate EndsAt(b: Body, rest: string) {
    b.Closed? && b.rest == rest
  }

  /** Once half of a doubled quote was swallowed by a backslash, the literal never ends where it should. */
  lemma {:induction false} HalfQuoteNeverRecovers(w: string, rest: string)
    ensures !EndsAt(StringBody("'" + Spelled(w, rest)), rest)
    decreases |w|
  {
    var s := "'" + Spelled(w, rest);
    if w == [] {
      assert s == "''" + rest;
      BodyOfPair(rest);
    } else if w[0] == '\'' {
      assert s == "''" + ("'" + Spelled(w[1..], rest));
      BodyOfPair("'" + Spelled(w[1..], rest));
      HalfQuoteNeverRecovers(w[1..], rest);
    } else {
      assert s[1] == w[0];
      SpelledIsLonger(w, rest);
      assert StringBody(s) == Closed([], s[1..]);
    }
  }

  lemma {:induction false} SpelledIsLonger(w: string, rest: string)
    ensures |Spelled(w, rest)| > |rest|
    decreases |w|
  {
    if w != [] {
      SpelledIsLonger(w[1..], rest);
    }
  }

  lemma {:induction false} UnsafeBodyGoesWrong(v: string, rest: string)
    requires !LexSafe(v)
    ensures !EndsAt(StringBody(Spelled(v, rest)), rest)
    decreases |v|
  {
    if v[0] == '\0' {
    } else if v[0] == '\'' {
      BodyOfPair(Spelled(v[1..], rest));
      UnsafeBodyGoesWrong(v[1..], rest);
    } else if v[0] != '\\' {
      BodyOfChar([v[0]], Spelled(v[1..], rest));
      UnsafeBodyGoesWrong(v[1..], rest);
    } else if |v| == 1 {
      assert v[1..] == [] && Spelled(v, rest) == "\\'" + rest;
      BodyOfEscape("\\'", rest);
    } else {
      SpelledTwo(v, rest);
      if v[1] == '\'' {
        BodyOfEscape("\\'", "'" + Spelled(v[2..], rest));
        HalfQuoteNeverRecovers(v[2..], rest);
      } else if v[1] == '\0' {
        var s := Spelled(v, rest);
        assert s[1] == '\0' && s[1..][0] == '\0';
      } else {
        BodyOfEscape(v[..2], Spelled(v[2..], rest));
        UnsafeBodyGoesWrong(v[2..], rest);
      }
    }
  }

  /** The lexer reads a quoted value back to exactly its end if and only if the value is lexically safe. */
  lemma QuotedTextLexesBack(v: string, rest: string)
    requires rest == [] || rest[0] != '\''
    ensures EndsAt(StringBody(Doubled('\'', v) + "'" + rest), rest) <==> LexSafe(v)
    ensures LexSafe(v) ==> StringBody(Doubled('\'', v) + "'" + rest) == Closed(v, rest)
  {
    SpelledIsQuoted(v, rest);
    if LexSafe(v) {
      SafeBodyCloses(v, rest);
    } else {
      UnsafeBodyGoesWrong(v, rest);
    }
  }

  // ---------------------------------------------------------------- when the value comes back

  /** Within eight mebibytes: with both quotes, but with one where the lexer copies its content. */
  predicate ShortLiteral(v: string) {
    ByteLength(v) <= if exists i :: 0 <= i < |v| && (v[i] == '\'' || v[i] == '\\') then 8_388_607 else 8_388_606
  }

  predicate NoNul(v: string) {
    '\0' !in v
  }

  /** Every backslash is followed by a character that the parser does not treat as an escape. */
  predicate InertBackslashes(v: string) {
    forall i :: 0 <= i < |v| && v[i] == '\\' ==> i + 1 < |v| && v[i + 1] !in "ntr'\\"
  }

  lemma InertTail(v: string, k: nat)
    requires InertBackslashes(v) && k <= |v|
    ensures InertBackslashes(v[k..])
  {
    forall i | 0 <= i < |v[k..]| && v[k..][i] == '\\' ensures i + 1 < |v[k..]| && v[k..][i + 1] !in "ntr'\\" {
      assert v[k + i] == '\\';
    }
  }

  lemma {:induction false} InertIsSafeAndKept(v: string)
    requires NoNul(v) && InertBackslashes(v)
    ensures LexSafe(v) && Unescape(v) == v
    decreases |v|
  {
    if v != [] {
      InertTail(v, 1);
      InertIsSafeAndKept(v[1..]);
      assert v == [v[0]] + v[1..];
      if v[0] == '\\' {
        assert v[1] in v && v[1] !in "ntr'\\";
        InertTail(v, 2);
        InertIsSafeAndKept(v[2..]);
      }
    }
  }

  lemma {:induction false} UnescapeShrinks(v: string)
    ensures |Unescape(v)| <= |v|
    decreases |v|
  {
    if v != [] {
      UnescapeShrinks(v[1..]);
      if |v| > 1 {
        UnescapeShrinks(v[2..]);
      }
    }
  }

  lemma {:induction false} KeptIsInert(v: string)
    requires LexSafe(v) && Unescape(v) == v
    ensures NoNul(v) && InertBackslashes(v)
    decreases |v|
  {
    if v != [] {
      assert v == [v[0]] + v[1..];
      if v[0] == '\\' {
        UnescapeShrinks(v[2..]);
        assert v[1] !in "ntr'\\";
        assert Unescape(v) == [v[0]] + Unescape(v[1..]);
        assert Unescape(v)[1..] == Unescape(v[1..]);
        assert v[1..] == [v[1]] + v[2..] && v[1..][1..] == v[2..];
        assert Unescape(v[1..]) == [v[1]] + Unescape(v[2..]);
        assert Unescape(v[1..])[1..] == Unescape(v[2..]);
        KeptIsInert(v[2..]);
      } else {
        assert Unescape(v)[1..] == Unescape(v[1..]);
        KeptIsInert(v[1..]);
      }
      InertHead(v);
    }
  }

  lemma InertHead(v: string)
    requires v != [] && v[0] != '\0'
    requires v[0] != '\\' ==> NoNul(v[1..]) && InertBackslashes(v[1..])
    requires v[0] == '\\' ==> |v| > 1 && v[1] !in "ntr'\\" && v[1] != '\0' && NoNul(v[2..]) && InertBackslashes(v[2..])
    ensures NoNul(v) && InertBackslashes(v)
  {
    var k := if v[0] == '\\' then 2 else 1;
    assert v == v[..k] + v[k..];
    forall i | 0 <= i < |v| && v[i] == '\\' ensures i + 1 < |v| && v[i + 1] !in "ntr'\\" {
      if i >= k {
        assert v[k..][i - k] == '\\';
      }
    }
  }

  /** A text value survives export and import if and only if it has no NUL, every backslash in it is
      inert, and it is within the literal limit: `quote_text` escapes quotes, not backslashes. */
  lemma TextRoundTrip(v: string)
    ensures ReadText(QuoteText(v)) == Some(v) <==> NoNul(v) && InertBackslashes(v) && ShortLiteral(v)
  {
    var sql := QuoteText(v);
    assert sql[1..] == Doubled('\'', v) + "'" + [];
    QuotedTextLexesBack(v, []);
    if NoNul(v) && InertBackslashes(v) {
      InertIsSafeAndKept(v);
    } else if LexSafe(v) && Unescape(v) == v {
      KeptIsInert(v);
    }
  }

  /** A value ending in a backslash swallows its closing quote; `\\n` in a value becomes a line feed. */
  lemma BackslashCounterexamples()
    ensures ReadText(QuoteText("a\\")) == None
    ensures Unescape("a\\nb") == "a\nb" && ReadText(QuoteText("a\\nb")) != Some("a\\nb")
  {
    var v := "a\\";
    assert !LexSafe(v[1..]);
    assert !LexSafe(v);
    QuotedTextLexesBack(v, []);
    assert QuoteText(v)[1..] == Doubled('\'', v) + "'" + [];
    var w := "a\\nb";
    assert w[1..] == "\\nb" && w[1..][2..] == "b" && Unescape("b") == "b" + Unescape("b"[1..]);
    assert Unescape(w[1..]) == "\n" + Unescape(w[1..][2..]);
    assert w[1] == '\\' && w[2] == 'n';
    TextRoundTrip(w);
  }

  // ---------------------------------------------------------------- a spelling that would always work

  /** The two characters the parser reads as `c`, where it knows an escape for it. */
  function Escape(c: char): string {
    match c as int
    case 10 => "\\n"
    case 9 => "\\t"
    case 13 => "\\r"
    case 39 => "\\'"
    case 92 => "\\\\"
    case _ => [c]
  }

  function Escaped(v: string): string {
    if v == [] then [] else Escape(v[0]) + Escaped(v[1..])
  }

  lemma UnescapeStep(c: char, t: string)
    ensures Unescape(Escape(c) + t) == [c] + Unescape(t)
  {
    var s := Escape(c) + t;
    assert |Escape(c)| == 2 ==> s[0] == '\\' && s[1] == Escape(c)[1] && s[2..] == t;
    assert |Escape(c)| == 1 ==> s[0] == c && s[1..] == t;
  }

  lemma {:induction false} EscapedReadsBack(v: string)
    ensures Unescape(Escaped(v)) == v
    decreases |v|
  {
    if v != [] {
      EscapedReadsBack(v[1..]);
      UnescapeStep(v[0], Escaped(v[1..]));
    }
  }

  lemma EscapeStep(c: char, t: string)
    requires c != '\0'
    ensures StringBody(Escape(c) + t) == Prepend(Escape(c), StringBody(t))
  {
    if |Escape(c)| == 2 {
      BodyOfEscape(Escape(c), t);
    } else {
      BodyOfChar(Escape(c), t);
    }
  }

  lemma {:induction false} EscapedBodyCloses(v: string)
    requires NoNul(v)
    ensures StringBody(Escaped(v) + "'") == Closed(Escaped(v), [])
    decreases |v|
  {
    if v != [] {
      EscapedBodyCloses(v[1..]);
      EscapeStep(v[0], Escaped(v[1..]) + "'");
      assert Escape(v[0]) + (Escaped(v[1..]) + "'") == Escaped(v) + "'";
    }
  }

  /** Written with the parser's own escapes every text without a NUL comes back, however it uses
      backslashes and quotes, up to the size of a literal: what a dump loses is lost by its export. */
  lemma EscapedTextRoundTrip(v: string)
    requires NoNul(v)
    ensures ReadText("'" + Escaped(v) + "'") == Some(v) <==> ShortLiteral(Escaped(v))
  {
    var sql := "'" + Escaped(v) + "'";
    assert sql[1..] == Escaped(v) + "'";
    EscapedBodyCloses(v);
    EscapedReadsBack(v);
  }
}
