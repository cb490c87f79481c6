/** Lexical shape of the statements an export writes, and why the importer can frame them by line. */
module DumpStatement {
  import opened Common
  import opened SqlLexer
  import opened TextLiteral

  /** The lexical pieces that exported statements are made of. */
  datatype Atom =
    | Word(text: string)
    | Number(whole: string, fraction: string)
    | Minus
    | Mark(c: char)
    | Blank
    | Name(name: string)
    | Text(value: string)

  function Spell(a: Atom): string {
    match a
    case Word(text) => text
    case Number(whole, fraction) => if fraction == [] then whole else whole + "." + fraction
    case Minus => "-"
    case Mark(c) => [c]
    case Blank => " "
    case Name(name) => QuoteIdentifier(name)
    case Text(value) => QuoteText(value)
  }

  function Render(atoms: seq<Atom>): string {
    if atoms == [] then [] else Spell(atoms[0]) + Render(atoms[1..])
  }

  predicate WordChar(c: char) {
    Letter(c) || Digit(c) || c == '_'
  }

  predicate GoodAtom(a: Atom) {
    match a
    case Word(text) => text != [] && (Letter(text[0]) || text[0] == '_')
        && forall i :: 0 <= i < |text| ==> WordChar(text[i])
    case Number(whole, fraction) => whole != [] && AllDigits(whole) && AllDigits(fraction)
    case Mark(c) => c in "(),."
    case Name(name) => NoNul(name)
    case Text(value) => LexSafe(value) && !TooLong(value)
    case _ => true
  }

  /** What may come directly after an atom, by its first character. */
  predicate Separated(a: Atom, next: char) {
    match a
    case Word(_) => Ascii(next) && !WordChar(next) && next != '$'
    case Number(_, _) => Ascii(next) && !WordChar(next) && next != '.'
    case Minus => Digit(next)
    case Name(_) => next != '"'
    case Text(_) => next != '\''
    case _ => true
  }

  predicate Good(atoms: seq<Atom>) {
    atoms == [] ||
    (GoodAtom(atoms[0]) && Good(atoms[1..]) &&
     Separated(atoms[0], if |atoms| == 1 then ';' else First(atoms[1])))
  }

  function First(a: Atom): char {
    match a
    case Word(text) => if text == [] then ' ' else text[0]
    case Number(whole, _) => if whole == [] then ' ' else whole[0]
    case Minus => '-'
    case Mark(c) => c
    case Blank => ' '
    case Name(_) => '"'
    case Text(_) => '\''
  }

  function Statement(atoms: seq<Atom>): string {
    Render(atoms) + ";\n"
  }

  // ---------------------------------------------------------------- lexing past one atom

  lemma {:induction false} SkipDigitsStops(s: string, t: string)
    requires AllDigits(s) && (t == [] || !Digit(t[0]))
    ensures SkipDigits(s + t) == t
    decreases |s|
  {
    if s == [] {
      assert s + t == t;
    } else {
      assert (s + t)[1..] == s[1..] + t;
      SkipDigitsStops(s[1..], t);
    }
  }

  lemma {:induction false} SkipWordStops(u: Unicode, s: string, t: string)
    requires (forall i :: 0 <= i < |s| ==> WordChar(s[i])) && t != [] && Ascii(t[0]) && !WordChar(t[0]) && t[0] != '$'
    ensures SkipWord(u, s + t, true) == t
    decreases |s|
  {
    if s == [] {
      assert s + t == t;
    } else {
      assert (s + t)[1..] == s[1..] + t && WordChar(s[0]);
      SkipWordStops(u, s[1..], t);
    }
  }

  lemma NameOfPair(q: char, tail: string)
    requires q != '\0'
    ensures NameBody(q, [q, q] + tail) == Prepend([q], NameBody(q, tail))
  {
    assert ([q, q] + tail)[2..] == tail;
  }

  lemma NameOfChar(q: char, c: char, tail: string)
    requires c != q && c != '\0'
    ensures NameBody(q, [c] + tail) == Prepend([c], NameBody(q, tail))
  {
    var s := [c] + tail;
    assert s[1..] == tail && s[..1] == [c];
  }

  lemma {:induction false} NameBodyCloses(q: char, name: string, rest: string)
    requires q != '\0' && NoNul(name) && (rest == [] || rest[0] != q)
    ensures NameBody(q, Doubled(q, name) + ([q] + rest)) == Closed(name, rest)
    decreases |name|
  {
    if name == [] {
      assert Doubled(q, name) + ([q] + rest) == [q] + rest && ([q] + rest)[1..] == rest;
    } else {
      var c, tail := name[0], Doubled(q, name[1..]) + ([q] + rest);
      assert c in name;
      assert Doubled(q, name) + ([q] + rest) == (if c == q then [q, q] else [c]) + tail;
      NameBodyCloses(q, name[1..], rest);
      if c == q {
        NameOfPair(q, tail);
      } else {
        NameOfChar(q, c, tail);
      }
      assert name == [c] + name[1..];
    }
  }

  lemma TextToken(u: Unicode, value: string, rest: string)
    requires LexSafe(value) && !TooLong(value) && rest != [] && rest[0] != '\''
    ensures NextToken(u, QuoteText(value) + rest, false) == Lexed(Other, rest, false)
  {
    var s := QuoteText(value) + rest;
    assert s[0] == '\'' && s[1..] == Doubled('\'', value) + "'" + rest;
    QuotedTextLexesBack(value, rest);
  }

  lemma NameToken(u: Unicode, name: string, rest: string)
    requires NoNul(name) && rest != [] && rest[0] != '"'
    ensures NextToken(u, QuoteIdentifier(name) + rest, false) == Lexed(Other, rest, false)
  {
    var s := QuoteIdentifier(name) + rest;
    assert s[0] == '"' && s[1..] == Doubled('"', name) + ("\"" + rest);
    NameBodyCloses('"', name, rest);
  }

  lemma WordToken(u: Unicode, text: string, rest: string)
    requires GoodAtom(Word(text)) && rest != [] && Separated(Word(text), rest[0])
    ensures NextToken(u, text + rest, false) == Lexed(Other, rest, false)
  {
    var s := text + rest;
    assert s[0] == text[0] && s[1..] == text[1..] + rest;
    SkipWordStops(u, text[1..], rest);
  }

  lemma NumberEnds(whole: string, after: string, rest: string)
    requires whole != [] && AllDigits(whole) && rest != [] && Ascii(rest[0]) && !WordChar(rest[0]) && rest[0] != '.'
    requires after == rest
             || (exists fraction :: after == "." + (fraction + rest) && fraction != [] && AllDigits(fraction))
    ensures SqlLexer.Number(whole + after) == Lexed(Other, rest, false)
  {
    assert (whole + after)[1..] == whole[1..] + after;
    SkipDigitsStops(whole[1..], after);
    if after != rest {
      var fraction :| after == "." + (fraction + rest) && fraction != [] && AllDigits(fraction);
      assert after[1..] == fraction + rest && Digit(after[1]);
      SkipDigitsStops(fraction, rest);
    }
  }

  lemma NumberToken(u: Unicode, whole: string, fraction: string, rest: string)
    requires GoodAtom(Number(whole, fraction)) && rest != [] && Separated(Number(whole, fraction), rest[0])
    ensures NextToken(u, Spell(Number(whole, fraction)) + rest, false) == Lexed(Other, rest, false)
  {
    var s := Spell(Number(whole, fraction)) + rest;
    var after := if fraction == [] then rest else "." + (fraction + rest);
    assert s == whole + after;
    assert s[0] == whole[0];
    NumberEnds(whole, after, rest);
  }

  lemma SignToken(u: Unicode, c: char, rest: string)
    requires c in "(),." || (c == '-' && rest != [] && Digit(rest[0]))
    ensures NextToken(u, [c] + rest, false) == Lexed(Other, rest, false)
  {
    var s := [c] + rest;
    assert s[1..] == rest && s[0] == c;
    if c == '-' {
      assert s[..2] == ['-', rest[0]];
      assert OperatorEnd(s) == rest;
    }
  }

  /** Lexing steps over an atom; only a blank leaves the terminal flag as it was. */
  lemma LexAtom(u: Unicode, a: Atom, rest: string, terminal: bool)
    requires GoodAtom(a) && rest != [] && Separated(a, rest[0])
    ensures Complete(u, Spell(a) + rest, false, terminal) == Complete(u, rest, false, a.Blank? && terminal)
  {
    match a {
      case Word(text) => WordToken(u, text, rest);
      case Number(whole, fraction) => NumberToken(u, whole, fraction, rest);
      case Minus => SignToken(u, '-', rest);
      case Mark(c) => SignToken(u, c, rest);
      case Name(name) => NameToken(u, name, rest);
      case Text(value) => TextToken(u, value, rest);
      case Blank =>
        assert (" " + rest)[1..] == rest;
        assert NextToken(u, " " + rest, false) == NextToken(u, rest, false);
    }
  }

  lemma SpellStarts(a: Atom, rest: string)
    requires GoodAtom(a)
    ensures Spell(a) + rest != [] && (Spell(a) + rest)[0] == First(a)
  {
  }

  lemma {:induction false} StatementLexes(u: Unicode, atoms: seq<Atom>, terminal: bool)
    requires Good(atoms)
    ensures Complete(u, Statement(atoms), false, terminal)
    decreases |atoms|
  {
    if atoms == [] {
      assert Statement(atoms) == ";\n" && ";\n"[1..] == "\n" && "\n"[1..] == "";
      assert NextToken(u, ";\n", false) == Lexed(Semicolon, "\n", false);
      assert NextToken(u, "\n", false) == Lexed(Eof, "", false);
    } else {
      var rest := Statement(atoms[1..]);
      assert Statement(atoms) == Spell(atoms[0]) + rest;
      if |atoms| > 1 {
        TailStarts(atoms);
      } else {
        assert Render(atoms[1..]) == [];
      }
      LexAtom(u, atoms[0], rest, terminal);
      StatementLexes(u, atoms[1..], atoms[0].Blank? && terminal);
    }
  }

  /** The text after the first atom starts as the next atom does. */
  lemma TailStarts(atoms: seq<Atom>)
    requires |atoms| > 1 && Good(atoms)
    ensures Render(atoms[1..]) != [] && Render(atoms[1..])[0] == First(atoms[1])
  {
    SpellStarts(atoms[1..][0], Render(atoms[1..][1..]));
  }

  // ---------------------------------------------------------------- cutting inside a quoted value

  lemma {:induction false} CutText(v: string, m: nat)
    requires LexSafe(v) && 0 < m <= |Doubled('\'', v)| && Doubled('\'', v)[m - 1] == '\n'
    ensures StringBody(Doubled('\'', v)[..m]).Broken?
    decreases |v|
  {
    var d := Doubled('\'', v);
    var tail := Doubled('\'', v[1..]);
    if v[0] == '\'' {
      assert d == "''" + tail && d[m - 1] == tail[m - 3];
      CutText(v[1..], m - 2);
      assert d[..m] == "''" + tail[..m - 2];
      BodyOfPair(tail[..m - 2]);
    } else if v[0] == '\\' {
      var tail2 := Doubled('\'', v[2..]);
      assert v[1..][1..] == v[2..] && tail == [v[1]] + tail2;
      assert d == v[..2] + tail2 && d[0] == '\\';
      assert d[..m] == v[..2] + tail2[..m - 2];
      BodyOfEscape(v[..2], tail2[..m - 2]);
      if m > 2 {
        assert d[m - 1] == tail2[m - 3];
        CutText(v[2..], m - 2);
      } else {
        assert tail2[..0] == [];
      }
    } else {
      assert d == [v[0]] + tail && d[..m] == [v[0]] + tail[..m - 1];
      BodyOfChar([v[0]], tail[..m - 1]);
      if m > 1 {
        assert d[m - 1] == tail[m - 2];
        CutText(v[1..], m - 1);
      } else {
        assert tail[..0] == [];
      }
    }
  }

  lemma {:induction false} CutName(name: string, m: nat)
    requires NoNul(name) && 0 < m <= |Doubled('"', name)| && Doubled('"', name)[m - 1] == '\n'
    ensures NameBody('"', Doubled('"', name)[..m]).Broken?
    decreases |name|
  {
    var d := Doubled('"', name);
    var tail := Doubled('"', name[1..]);
    assert name == [name[0]] + name[1..] && name[0] in name;
    if name[0] == '"' {
      assert d == "\"\"" + tail && d[m - 1] == tail[m - 3];
      CutName(name[1..], m - 2);
      assert d[..m][2..] == tail[..m - 2];
    } else {
      assert d == [name[0]] + tail && d[..m][1..] == tail[..m - 1];
      if m > 1 {
        assert d[m - 1] == tail[m - 2];
        CutName(name[1..], m - 1);
      } else {
        assert tail[..0] == [];
      }
    }
  }

  lemma CutTextAtom(u: Unicode, value: string, n: nat)
    requires LexSafe(value) && 0 < n <= |QuoteText(value)| && QuoteText(value)[n - 1] == '\n'
    ensures NextToken(u, QuoteText(value)[..n], false).token.Error?
  {
    var p := QuoteText(value)[..n];
    var d := Doubled('\'', value);
    assert QuoteText(value)[n - 1] == d[n - 2];
    assert p[0] == '\'' && p[1..] == d[..n - 1];
    CutText(value, n - 1);
  }

  lemma CutNameAtom(u: Unicode, name: string, n: nat)
    requires NoNul(name) && 0 < n <= |QuoteIdentifier(name)| && QuoteIdentifier(name)[n - 1] == '\n'
    ensures NextToken(u, QuoteIdentifier(name)[..n], false).token.Error?
  {
    var p := QuoteIdentifier(name)[..n];
    var d := Doubled('"', name);
    assert QuoteIdentifier(name)[n - 1] == d[n - 2];
    assert p[0] == '"' && p[1..] == d[..n - 1];
    CutName(name, n - 1);
  }

  /** Only quoted atoms contain line feeds. */
  lemma LineFeedsAreQuoted(a: Atom, n: nat)
    requires GoodAtom(a) && 0 < n <= |Spell(a)| && Spell(a)[n - 1] == '\n'
    ensures a.Text? || a.Name?
  {
  }

  /** A cut at a line feed inside an atom leaves an unterminated token. */
  lemma CutAtom(u: Unicode, a: Atom, n: nat, terminal: bool)
    requires GoodAtom(a) && 0 < n <= |Spell(a)| && Spell(a)[n - 1] == '\n'
    ensures !Complete(u, Spell(a)[..n], false, terminal)
  {
    LineFeedsAreQuoted(a, n);
    if a.Text? {
      CutTextAtom(u, a.value, n);
    } else {
      CutNameAtom(u, a.name, n);
    }
  }

  lemma {:induction false} CutStatement(u: Unicode, atoms: seq<Atom>, n: nat, terminal: bool)
    requires Good(atoms) && 0 < n <= |Render(atoms)| && Render(atoms)[n - 1] == '\n'
    ensures !Complete(u, Render(atoms)[..n], false, terminal)
    decreases |atoms|
  {
    var a, k := atoms[0], |Spell(atoms[0])|;
    var tail := Render(atoms[1..]);
    assert Render(atoms) == Spell(a) + tail;
    if n <= k {
      assert Render(atoms)[..n] == Spell(a)[..n] && Spell(a)[n - 1] == '\n';
      CutAtom(u, a, n, terminal);
    } else {
      var rest := tail[..n - k];
      assert Render(atoms)[..n] == Spell(a) + rest && Render(atoms)[n - 1] == tail[n - k - 1];
      assert |atoms| > 1;
      TailStarts(atoms);
      LexAtom(u, a, rest, terminal);
      CutStatement(u, atoms[1..], n - k, a.Blank? && terminal);
    }
  }

  // ---------------------------------------------------------------- framing

  const COUNTS_PREFIX: string := "-- radixdb-sql-dump-counts: "
  const FOOTER_PREFIX: string := "-- radixdb-sql-dump-sha256: "

  /** `trim().is_empty()` */
  predicate Empty(u: Unicode, s: string) {
    forall i :: 0 <= i < |s| ==> Whitespace(u, s[i])
  }

  predicate TrailerLike(line: string) {
    COUNTS_PREFIX <= line || FOOTER_PREFIX <= line
  }

  /** A text that line-wise import takes as one statement: complete, but not at an earlier line end,
      not empty there either, and not looking like a trailer at its start. */
  ghost predicate Framed(u: Unicode, statement: string) {
    && statement != [] && statement[|statement| - 1] == '\n'
    && IsComplete(u, statement) && !TrailerLike(statement)
    && forall n :: 0 < n < |statement| && statement[n - 1] == '\n' ==>
         !IsComplete(u, statement[..n]) && !Empty(u, statement[..n])
  }

  /** Every statement made of well-formed atoms is framed: no line feed, semicolon or trailer-like
      text inside a quoted value or name is taken for a boundary. */
  lemma RenderedStatementIsFramed(u: Unicode, atoms: seq<Atom>)
    requires Good(atoms) && atoms != [] && atoms[0].Word?
    ensures Framed(u, Statement(atoms))
  {
    var statement := Statement(atoms);
    StatementLexes(u, atoms, false);
    SpellStarts(atoms[0], Render(atoms[1..]) + ";\n");
    assert statement == Spell(atoms[0]) + (Render(atoms[1..]) + ";\n");
    assert statement[0] == First(atoms[0]);
    assert COUNTS_PREFIX[0] == '-' && FOOTER_PREFIX[0] == '-';
    forall n | 0 < n < |statement| && statement[n - 1] == '\n'
      ensures !IsComplete(u, statement[..n]) && !Empty(u, statement[..n])
    {
      assert n - 1 < |Render(atoms)|;
      assert statement[..n] == Render(atoms)[..n] && statement[..n][0] == statement[0];
      CutStatement(u, atoms, n, false);
    }
  }
}
