/** Every kind of token, as the grammar of the lexer spells it, and what a sequence of them means for
    the end of a statement (crates/radixdb-sql/src/lexer, src/sql_dump.rs:909-927). */
module SqlTokens {
  import opened Common
  import opened SqlLexer
  import D = DumpStatement
  import TextLiteral

  // ---------------------------------------------------------------- spellings

  datatype Exponent = NoExponent | Exponent(mark: char, sign: string, digits: string)

  datatype Spelling =
    | Word(text: string)
    | Name(quote: char, name: string)
    | Text(value: string)
    | Number(whole: string, fraction: string, exponent: Exponent)
    | Numbered(digits: string)
    | Question
    | Bound(name: string)
    | Mark(c: char)
    | Pair(a: char, b: char)
    | Triple(a: char, b: char, c: char)
    | Stop

  function ExponentText(e: Exponent): string {
    match e
    case NoExponent => []
    case Exponent(mark, sign, digits) => [mark] + (sign + digits)
  }

  function FractionText(fraction: string): string {
    if fraction == [] then [] else "." + fraction
  }

  function Spell(t: Spelling): string {
    match t
    case Word(text) => text
    case Name(quote, name) => [quote] + (TextLiteral.Doubled(quote, name) + [quote])
    case Text(value) => TextLiteral.QuoteText(value)
    case Number(whole, fraction, exponent) => whole + (FractionText(fraction) + ExponentText(exponent))
    case Numbered(digits) => "$" + digits
    case Question => "?"
    case Bound(name) => ":" + name
    case Mark(c) => [c]
    case Pair(a, b) => [a, b]
    case Triple(a, b, c) => [a, b, c]
    case Stop => ";"
  }

  predicate Starter(u: Unicode, c: char) {
    (Alphabetic(u, c) || c == '_') && !Whitespace(u, c)
  }

  predicate Follower(u: Unicode, c: char) {
    Alphanumeric(u, c) || c == '_'
  }

  /** The punctuation other than the semicolon, and the operators of one, two and three characters. */
  predicate IsMark(c: char) {
    || c in {',', '(', ')', '.', ':', '[', ']'}
    || c in {'=', '<', '>', '!', '+', '-', '*', '/', '%', '|', '&', '^', '~', '@'}
  }

  predicate IsPair(a: char, b: char) {
    || (a == '<' && (b == '=' || b == '>' || b == '<' || b == '@'))
    || (a == '>' && (b == '=' || b == '>'))
    || (a == '=' && b == '>') || (a == '!' && b == '=') || (a == '|' && b == '|') || (a == '-' && b == '>')
    || (a == '&' && b == '&') || (a == '@' && b == '>') || (a == ':' && b == '=')
  }

  predicate IsTriple(a: char, b: char, c: char) {
    (a == '-' && b == '>' && c == '>') || (a == '<' && b == '=' && c == '>')
  }

  predicate GoodExponent(e: Exponent) {
    e.Exponent? ==> (e.mark == 'e' || e.mark == 'E') && (e.sign == "" || e.sign == "+" || e.sign == "-")
                    && AllDigits(e.digits)
  }

  predicate Good(u: Unicode, t: Spelling) {
    match t
    case Word(text) =>
      text != [] && Starter(u, text[0]) && forall i :: 0 < i < |text| ==> Follower(u, text[i]) || text[i] == '$'
    case Name(quote, name) => (quote == '"' || quote == '`') && TextLiteral.NoNul(name)
    case Text(value) => TextLiteral.LexSafe(value) && !TooLong(value)
    case Number(whole, fraction, exponent) =>
      whole != [] && AllDigits(whole) && AllDigits(fraction) && GoodExponent(exponent)
    case Numbered(digits) => digits != [] && AllDigits(digits)
    case Bound(name) =>
      name != [] && (Alphabetic(u, name[0]) || name[0] == '_') && forall i :: 0 <= i < |name| ==> Follower(u, name[i])
    case Mark(c) => IsMark(c)
    case Pair(a, b) => IsPair(a, b)
    case Triple(a, b, c) => IsTriple(a, b, c)
    case _ => true
  }

  /** A number whose exponent has no digits. */
  predicate Malformed(t: Spelling) {
    t.Number? && t.exponent.Exponent? && t.exponent.digits == []
  }

  predicate Quoted(t: Spelling) {
    t.Name? || t.Text?
  }

  /** The end of the text or a space. */
  predicate Boundary(rest: string) {
    rest == [] || rest[0] == ' '
  }

  // ---------------------------------------------------------------- one token of each kind

  lemma {:induction false} DigitsEnd(s: string, t: string)
    requires AllDigits(s) && (t == [] || !Digit(t[0]))
    ensures SkipDigits(s + t) == t
    decreases |s|
  {
    if s == [] {
      assert s + t == t;
    } else {
      assert Digit(s[0]) && (s + t)[1..] == s[1..] + t;
      DigitsEnd(s[1..], t);
    }
  }

  lemma {:induction false} WordEnds(u: Unicode, s: string, t: string, dollar: bool)
    requires (forall i :: 0 <= i < |s| ==> Follower(u, s[i]) || (dollar && s[i] == '$')) && Boundary(t)
    ensures SkipWord(u, s + t, dollar) == t
    decreases |s|
  {
    if s == [] {
      assert s + t == t;
    } else {
      assert (Follower(u, s[0]) || (dollar && s[0] == '$')) && (s + t)[1..] == s[1..] + t;
      WordEnds(u, s[1..], t, dollar);
    }
  }

  lemma AtWord(u: Unicode, s: string, pending: bool)
    requires s != [] && Starter(u, s[0])
    ensures NextToken(u, s, pending) == Lexed(Other, SkipWord(u, s[1..], true), pending)
  {
  }

  lemma WordLexes(u: Unicode, text: string, rest: string, pending: bool)
    requires Good(u, Word(text)) && Boundary(rest)
    ensures NextToken(u, text + rest, pending) == Lexed(Other, rest, pending)
  {
    var s := text + rest;
    assert s[0] == text[0] && s[1..] == text[1..] + rest;
    assert forall i :: 0 <= i < |text[1..]| ==> Follower(u, text[1..][i]) || text[1..][i] == '$';
    WordEnds(u, text[1..], rest, true);
    AtWord(u, s, pending);
  }

  lemma AtName(u: Unicode, s: string, name: string, rest: string, pending: bool)
    requires s != [] && (s[0] == '"' || s[0] == '`') && NameBody(s[0], s[1..]) == Closed(name, rest)
    ensures NextToken(u, s, pending) == Lexed(if pending then Error else Other, rest, false)
  {
  }

  lemma BetweenQuotes(q: char, inside: string, rest: string)
    ensures var s := [q] + (inside + [q]) + rest; s[0] == q && s[1..] == inside + ([q] + rest)
  {
  }

  lemma NameLexes(u: Unicode, quote: char, name: string, rest: string, pending: bool)
    requires Good(u, Name(quote, name)) && Boundary(rest)
    ensures NextToken(u, Spell(Name(quote, name)) + rest, pending) ==
              Lexed(if pending then Error else Other, rest, false)
  {
    var s := Spell(Name(quote, name)) + rest;
    BetweenQuotes(quote, TextLiteral.Doubled(quote, name), rest);
    D.NameBodyCloses(quote, name, rest);
    AtName(u, s, name, rest, pending);
  }

  lemma AtText(u: Unicode, s: string, value: string, rest: string, pending: bool)
    requires s != [] && s[0] == '\'' && StringBody(s[1..]) == Closed(value, rest) && !TooLong(value)
    ensures NextToken(u, s, pending) == Lexed(if pending then Error else Other, rest, false)
  {
  }

  lemma AfterQuote(q: string, inside: string, rest: string)
    requires |q| == 1
    ensures var s := q + inside + q + rest; s[0] == q[0] && s[1..] == inside + q + rest
  {
  }

  lemma TextLexes(u: Unicode, value: string, rest: string, pending: bool)
    requires Good(u, Text(value)) && Boundary(rest)
    ensures NextToken(u, Spell(Text(value)) + rest, pending) == Lexed(if pending then Error else Other, rest, false)
  {
    var s := Spell(Text(value)) + rest;
    AfterQuote("'", TextLiteral.Doubled('\'', value), rest);
    TextLiteral.QuotedTextLexesBack(value, rest);
    AtText(u, s, value, rest, pending);
  }

  /** What follows the mark and the sign of an exponent. */
  function AfterMark(b: string): string
    requires b != []
  {
    if |b| > 1 && (b[1] == '+' || b[1] == '-') then b[2..] else b[1..]
  }

  lemma AfterMarkIs(mark: char, sign: string, more: string)
    requires sign == "" || sign == "+" || sign == "-"
    requires more == [] || (more[0] != '+' && more[0] != '-')
    ensures AfterMark([mark] + (sign + more)) == more
  {
    var b := [mark] + (sign + more);
    if sign == "" {
      assert b[1..] == more;
    } else {
      assert b[1] == sign[0] && b[2..] == more;
    }
  }

  lemma MoreStarts(digits: string, rest: string)
    requires AllDigits(digits) && Boundary(rest)
    ensures var more := digits + rest; more == [] || (more[0] != '+' && more[0] != '-')
    ensures var more := digits + rest; (more == [] || !Digit(more[0])) <==> digits == []
  {
    assert digits != [] ==> Digit(digits[0]) && (digits + rest)[0] == digits[0];
    assert digits == [] ==> digits + rest == rest;
  }

  lemma Regrouped(a: string, b: string, c: string, d: string)
    ensures a + (b + c) + d == a + (b + (c + d))
  {
  }

  lemma ExponentLexes(e: Exponent, rest: string)
    requires e.Exponent? && GoodExponent(e) && Boundary(rest)
    ensures var b := ExponentText(e) + rest; b != [] && b[0] == e.mark && AfterMark(b) == e.digits + rest
    ensures SkipDigits(e.digits + rest) == rest
  {
    MoreStarts(e.digits, rest);
    AfterMarkIs(e.mark, e.sign, e.digits + rest);
    Regrouped([e.mark], e.sign, e.digits, rest);
    DigitsEnd(e.digits, rest);
  }

  lemma NumberLexes(u: Unicode, whole: string, fraction: string, e: Exponent, rest: string, pending: bool)
    requires Good(u, Number(whole, fraction, e)) && Boundary(rest)
    ensures NextToken(u, Spell(Number(whole, fraction, e)) + rest, pending) ==
              Lexed(Other, rest, pending || Malformed(Number(whole, fraction, e)))
  {
    var tail := ExponentText(e) + rest;
    var s := Spell(Number(whole, fraction, e)) + rest;
    assert s == whole + (FractionText(fraction) + tail) && Digit(whole[0]) && s[0] == whole[0];
    NumberIs(whole, fraction, e, rest);
  }

  /** From its first digit on, a number is read up to the exponent, which decides. */
  lemma NumberIs(whole: string, fraction: string, e: Exponent, rest: string)
    requires whole != [] && AllDigits(whole) && AllDigits(fraction) && GoodExponent(e) && Boundary(rest)
    ensures SqlLexer.Number(whole + (FractionText(fraction) + (ExponentText(e) + rest))) ==
              Lexed(Other, rest, e.Exponent? && e.digits == [])
  {
    var tail := ExponentText(e) + rest;
    var a := FractionText(fraction) + tail;
    var s := whole + a;
    assert s[1..] == whole[1..] + a;
    assert tail == [] || (!Digit(tail[0]) && tail[0] != '.');
    DigitsEnd(whole[1..], a);
    FractionIs(fraction, tail);
    AtExponent(e, rest);
    EndOfNumber(s, a, tail);
  }

  /** The part of `SqlLexer.Number` after the digits and the fraction. */
  function ExponentEnd(b: string): Lexed {
    if b != [] && (b[0] == 'e' || b[0] == 'E') then
      var c := AfterMark(b);
      if c == [] || !Digit(c[0]) then Lexed(Other, c, true) else Lexed(Other, SkipDigits(c), false)
    else Lexed(Other, b, false)
  }

  lemma EndOfNumber(s: string, a: string, b: string)
    requires s != [] && SkipDigits(s[1..]) == a
    requires b == if |a| > 1 && a[0] == '.' && Digit(a[1]) then SkipDigits(a[1..]) else a
    ensures SqlLexer.Number(s) == ExponentEnd(b)
  {
  }

  lemma FractionIs(fraction: string, tail: string)
    requires AllDigits(fraction) && (tail == [] || (!Digit(tail[0]) && tail[0] != '.'))
    ensures var a := FractionText(fraction) + tail;
            && (a == [] || !Digit(a[0]))
            && tail == if |a| > 1 && a[0] == '.' && Digit(a[1]) then SkipDigits(a[1..]) else a
  {
    var a := FractionText(fraction) + tail;
    if fraction == [] {
      assert a == tail;
    } else {
      assert a[0] == '.' && a[1..] == fraction + tail && a[1] == fraction[0] && Digit(fraction[0]);
      DigitsEnd(fraction, tail);
    }
  }

  lemma AtExponent(e: Exponent, rest: string)
    requires GoodExponent(e) && Boundary(rest)
    ensures ExponentEnd(ExponentText(e) + rest) == Lexed(Other, rest, e.Exponent? && e.digits == [])
  {
    if e.Exponent? {
      ExponentLexes(e, rest);
      MoreStarts(e.digits, rest);
      assert e.digits == [] ==> e.digits + rest == rest;
    } else {
      assert ExponentText(e) + rest == rest;
    }
  }

  lemma AtNumbered(u: Unicode, s: string, pending: bool)
    requires |s| > 1 && s[0] == '$' && Digit(s[1])
    ensures NextToken(u, s, pending) == Lexed(Other, SkipDigits(s[1..]), pending)
  {
  }

  lemma AtBound(u: Unicode, s: string, pending: bool)
    requires |s| > 1 && s[0] == ':' && (Alphabetic(u, s[1]) || s[1] == '_')
    ensures NextToken(u, s, pending) == Lexed(Other, SkipWord(u, s[1..], false), pending)
  {
  }

  lemma NumberedLexes(u: Unicode, digits: string, rest: string, pending: bool)
    requires Good(u, Numbered(digits)) && Boundary(rest)
    ensures NextToken(u, "$" + digits + rest, pending) == Lexed(Other, rest, pending)
  {
    var s := "$" + digits + rest;
    assert s[1..] == digits + rest && s[1] == digits[0] && Digit(digits[0]);
    AtNumbered(u, s, pending);
    DigitsEnd(digits, rest);
  }

  lemma BoundLexes(u: Unicode, name: string, rest: string, pending: bool)
    requires Good(u, Bound(name)) && Boundary(rest)
    ensures NextToken(u, ":" + name + rest, pending) == Lexed(Other, rest, pending)
  {
    var s := ":" + name + rest;
    assert s[1..] == name + rest && s[1] == name[0];
    AtBound(u, s, pending);
    WordEnds(u, name, rest, false);
  }

  lemma NoOperatorEndsInSpace(s: string)
    requires s != [] && s[|s| - 1] == ' '
    ensures !Operator(s)
  {
  }

  lemma PairIsOperator(a: char, b: char)
    requires IsPair(a, b)
    ensures Operator([a, b]) && OperatorChar(a)
  {
  }

  lemma MarkEnds(c: char, rest: string)
    requires Boundary(rest)
    ensures OperatorEnd([c] + rest) == rest
  {
    var s := [c] + rest;
    if rest == [] {
      assert s[1..] == rest;
    } else {
      assert s[..2] == [c, ' '] && s[1..] == rest;
      NoOperatorEndsInSpace([c, ' ']);
    }
  }

  lemma PairEnds(a: char, b: char, rest: string)
    requires IsPair(a, b) && Boundary(rest)
    ensures OperatorEnd([a, b] + rest) == rest
  {
    var s := [a, b] + rest;
    assert s[..2] == [a, b] && s[2..] == rest;
    PairIsOperator(a, b);
    if rest != [] {
      assert s[..3] == [a, b, ' '];
      NoOperatorEndsInSpace([a, b, ' ']);
    }
  }

  lemma TripleEnds(a: char, b: char, c: char, rest: string)
    requires IsTriple(a, b, c)
    ensures OperatorEnd([a, b, c] + rest) == rest
  {
    var s := [a, b, c] + rest;
    assert s[..2] == [a, b] && s[..3] == [a, b, c] && s[3..] == rest;
    PairIsOperator(a, b);
    assert Operator([a, b, c]) by {
      assert [a, b, c] == "->>" || [a, b, c] == "<=>";
    }
  }

  lemma MarkLexes(u: Unicode, c: char, rest: string, pending: bool)
    requires IsMark(c) && Boundary(rest)
    ensures NextToken(u, [c] + rest, pending) == Lexed(Other, rest, pending)
  {
    MarkEnds(c, rest);
    assert ([c] + rest)[1..] == rest;
  }

  predicate Operates(u: Unicode, c: char) {
    && OperatorChar(c) && !Whitespace(u, c) && !Digit(c) && (c == ':' || !Punctuator(c))
    && c != '\0' && c != '\'' && c != '"' && c != '`' && c != '#' && c != '$' && c != '?' && c != '*' && c != '/'
  }

  lemma FirstOfPair(u: Unicode, a: char, b: char)
    requires IsPair(a, b)
    ensures Operates(u, a) && (a == '-' ==> b != '-') && (a == ':' ==> b == '=')
  {
  }

  lemma AtOperator(u: Unicode, s: string, pending: bool)
    requires |s| > 1 && Operates(u, s[0]) && (s[0] == '-' ==> s[1] != '-') && (s[0] == ':' ==> s[1] == '=')
    ensures NextToken(u, s, pending) == Lexed(Other, OperatorEnd(s), pending)
  {
  }

  lemma PairLexes(u: Unicode, a: char, b: char, rest: string, pending: bool)
    requires IsPair(a, b) && Boundary(rest)
    ensures NextToken(u, [a, b] + rest, pending) == Lexed(Other, rest, pending)
  {
    PairEnds(a, b, rest);
    FirstOfPair(u, a, b);
    AtOperator(u, [a, b] + rest, pending);
  }

  lemma TripleLexes(u: Unicode, a: char, b: char, c: char, rest: string, pending: bool)
    requires IsTriple(a, b, c)
    ensures NextToken(u, [a, b, c] + rest, pending) == Lexed(Other, rest, pending)
  {
    TripleEnds(a, b, c, rest);
    FirstOfPair(u, a, b);
    AtOperator(u, [a, b, c] + rest, pending);
  }

  /** Each token, before a space or the end, is read as one token and nothing of what follows. */
  lemma TokenLexes(u: Unicode, t: Spelling, rest: string, pending: bool)
    requires Good(u, t) && Boundary(rest)
    ensures NextToken(u, Spell(t) + rest, pending) ==
              (if Quoted(t) then Lexed(if pending then Error else Other, rest, false)
               else Lexed(if t.Stop? then Semicolon else Other, rest, pending || Malformed(t)))
  {
    match t {
      case Word(text) => WordLexes(u, text, rest, pending);
      case Name(quote, name) => NameLexes(u, quote, name, rest, pending);
      case Text(value) => TextLexes(u, value, rest, pending);
      case Number(whole, fraction, exponent) => NumberLexes(u, whole, fraction, exponent, rest, pending);
      case Mark(c) => MarkLexes(u, c, rest, pending);
      case Pair(a, b) => PairLexes(u, a, b, rest, pending);
      case Triple(a, b, c) => TripleLexes(u, a, b, c, rest, pending);
      case Stop => assert (";" + rest)[1..] == rest;
      case Numbered(digits) => NumberedLexes(u, digits, rest, pending);
      case Question => assert ("?" + rest)[1..] == rest;
      case Bound(name) => BoundLexes(u, name, rest, pending);
    }
  }

  // ---------------------------------------------------------------- sequences of tokens

  /** The tokens, each after a space, and then `tail`. */
  function Spaced(tokens: seq<Spelling>, tail: string): string {
    if tokens == [] then tail else " " + (Spell(tokens[0]) + Spaced(tokens[1..], tail))
  }

  predicate AllGood(u: Unicode, tokens: seq<Spelling>) {
    forall i :: 0 <= i < |tokens| ==> Good(u, tokens[i])
  }

  /** A malformed number comes before some quoted name or text. */
  ghost predicate QuotedAfterMalformed(tokens: seq<Spelling>) {
    exists i, j :: 0 <= i < j < |tokens| && Malformed(tokens[i]) && Quoted(tokens[j])
  }

  ghost predicate SomeQuoted(tokens: seq<Spelling>) {
    exists j :: 0 <= j < |tokens| && Quoted(tokens[j])
  }

  predicate EndsWithStop(tokens: seq<Spelling>) {
    tokens != [] && tokens[|tokens| - 1].Stop?
  }

  lemma SpacedStarts(tokens: seq<Spelling>, tail: string)
    requires Boundary(tail)
    ensures Boundary(Spaced(tokens, tail))
  {
  }

  lemma SpaceIsSkipped(u: Unicode, s: string, pending: bool)
    ensures NextToken(u, " " + s, pending) == NextToken(u, s, pending)
  {
    assert (" " + s)[1..] == s;
  }

  lemma ScanStep(u: Unicode, s: string, pending: bool, terminal: bool, l: Lexed)
    requires l == NextToken(u, s, pending) && !l.token.Eof?
    ensures Complete(u, s, pending, terminal) ==
              (!l.token.Error? &&
               Complete(u, l.rest, l.pending, if l.token.Comment? then terminal else l.token.Semicolon?))
  {
  }

  /** One step of the scan. */
  lemma OneToken(u: Unicode, t: Spelling, rest: string, pending: bool, terminal: bool)
    requires Good(u, t) && Boundary(rest)
    ensures Complete(u, " " + (Spell(t) + rest), pending, terminal) ==
              if Quoted(t) then !pending && Complete(u, rest, false, false)
              else Complete(u, rest, pending || Malformed(t), t.Stop?)
  {
    SpaceIsSkipped(u, Spell(t) + rest, pending);
    TokenLexes(u, t, rest, pending);
    ScanStep(u, " " + (Spell(t) + rest), pending, terminal, NextToken(u, Spell(t) + rest, pending));
  }

  lemma QuotedInTail(tokens: seq<Spelling>)
    requires tokens != []
    ensures SomeQuoted(tokens) <==> Quoted(tokens[0]) || SomeQuoted(tokens[1..])
    ensures QuotedAfterMalformed(tokens) <==>
            (Malformed(tokens[0]) && SomeQuoted(tokens[1..])) || QuotedAfterMalformed(tokens[1..])
  {
    var tail := tokens[1..];
    assert forall j :: 0 < j < |tokens| ==> tokens[j] == tail[j - 1];
    assert forall j :: 0 <= j < |tail| ==> tail[j] == tokens[j + 1];
  }

  lemma {:induction false} ScanDecides(u: Unicode, tokens: seq<Spelling>, pending: bool, terminal: bool)
    requires AllGood(u, tokens)
    ensures Complete(u, Spaced(tokens, []), pending, terminal) <==>
            && (if tokens == [] then terminal else EndsWithStop(tokens))
            && !QuotedAfterMalformed(tokens) && !(pending && SomeQuoted(tokens))
    decreases |tokens|
  {
    if tokens == [] {
    } else {
      var t, rest := tokens[0], tokens[1..];
      SpacedStarts(rest, []);
      OneToken(u, t, Spaced(rest, []), pending, terminal);
      QuotedInTail(tokens);
      if Quoted(t) {
        ScanDecides(u, rest, false, false);
      } else {
        ScanDecides(u, rest, pending || Malformed(t), t.Stop?);
      }
    }
  }

  /** A statement of any tokens is complete exactly if the last of them is a semicolon and no quoted
      name or text follows a number without the digits of its exponent. */
  lemma TokensDecide(u: Unicode, tokens: seq<Spelling>)
    requires AllGood(u, tokens)
    ensures IsComplete(u, Spaced(tokens, [])) <==> EndsWithStop(tokens) && !QuotedAfterMalformed(tokens)
  {
    ScanDecides(u, tokens, false, false);
  }

  // ---------------------------------------------------------------- characters that start no token

  /** A character that is no blank, no letter, no digit and no sign of SQL; NUL is one. */
  predicate Stray(u: Unicode, c: char) {
    && !Whitespace(u, c) && !Alphabetic(u, c) && !Digit(c)
    && c !in {'_', '\'', '"', '`', '#', '?', ';', ',', '(', ')', '.', ':', '[', ']'}
    && c !in {'=', '<', '>', '!', '+', '-', '*', '/', '%', '|', '&', '^', '~', '@'}
  }

  lemma StrayLexes(u: Unicode, c: char, rest: string, pending: bool)
    requires Stray(u, c) && !(c == '$' && rest != [] && Digit(rest[0]))
    ensures NextToken(u, " " + ([c] + rest), pending).token.Error?
  {
    SpaceIsSkipped(u, [c] + rest, pending);
    assert ([c] + rest)[1..] == rest;
  }

  /** Wherever such a character stands among the tokens, what follows cannot complete the statement. */
  lemma {:induction false} StrayIsIncomplete(u: Unicode, tokens: seq<Spelling>, c: char, rest: string, pending: bool,
                                             terminal: bool)
    requires AllGood(u, tokens) && Stray(u, c) && !(c == '$' && rest != [] && Digit(rest[0]))
    ensures !Complete(u, Spaced(tokens, " " + ([c] + rest)), pending, terminal)
    decreases |tokens|
  {
    var tail := " " + ([c] + rest);
    if tokens == [] {
      StrayLexes(u, c, rest, pending);
    } else {
      var t := tokens[0];
      SpacedStarts(tokens[1..], tail);
      OneToken(u, t, Spaced(tokens[1..], tail), pending, terminal);
      if Quoted(t) {
        StrayIsIncomplete(u, tokens[1..], c, rest, false, false);
      } else {
        StrayIsIncomplete(u, tokens[1..], c, rest, pending || Malformed(t), t.Stop?);
      }
    }
  }
}
