/** Reading exported INSERT statements back as values.

The reader splits a statement into lexemes with the lexer's own literals and names and takes their
contents as the SQL parser does (crates/radixdb-sql/src/expressions.rs). It knows nothing of how an
export renders a value.
*/
module DumpReader {
  import opened Common
  import opened SqlLexer
  import opened TextLiteral
  import opened DumpStatement
  import opened DumpRows
  import opened DumpInsert
  import Decimal
  import Schedule

  // ---------------------------------------------------------------- lexemes

  datatype Lexeme =
    | Keyword(text: string)
    | Numeral(whole: string, fraction: string)
    | Dash
    | Sign(c: char)
    | Ident(name: string)
    | Literal(value: string)

  datatype Scanned = Stop | Found(lexeme: Lexeme, rest: string)

  /** How many characters at the front are digits. */
  function DigitRun(s: string): (n: nat)
    ensures n <= |s| && AllDigits(s[..n])
  {
    if s != [] && Digit(s[0]) then
      var n := DigitRun(s[1..]);
      assert s[..n + 1] == [s[0]] + s[1..][..n];
      n + 1
    else 0
  }

  function WordRun(s: string): (n: nat)
    ensures n <= |s|
  {
    if s != [] && WordChar(s[0]) then 1 + WordRun(s[1..]) else 0
  }

  function ScanNumeral(s: string): Scanned {
    var n := DigitRun(s);
    var whole, after := s[..n], s[n..];
    if |after| > 1 && after[0] == '.' && Digit(after[1]) then
      var m := DigitRun(after[1..]);
      Found(Numeral(whole, after[1..][..m]), after[1..][m..])
    else Found(Numeral(whole, []), after)
  }

  /** One lexeme at the start of a text that does not start with a blank. */
  function Scan(s: string): (r: Scanned)
    requires s != []
  {
    var c, more := s[0], s[1..];
    if c == '\'' then
      var b := StringBody(more);
      if b.Closed? && !TooLong(b.content) then Found(Literal(Unescape(b.content)), b.rest) else Stop
    else if c == '"' then
      var b := NameBody('"', more);
      if b.Closed? then Found(Ident(b.content), b.rest) else Stop
    else if Digit(c) then ScanNumeral(s)
    else if WordChar(c) then Found(Keyword(s[..WordRun(s)]), s[WordRun(s)..])
    else if c == '-' then Found(Dash, more)
    else if c in "(),.;" then Found(Sign(c), more)
    else Stop
  }

  lemma ScanAdvances(s: string)
    requires s != [] && Scan(s).Found?
    ensures |Scan(s).rest| < |s|
  {
    if Digit(s[0]) {
      assert DigitRun(s) > 0;
    }
  }

  function ScanAll(s: string): Option<seq<Lexeme>>
    decreases |s|
  {
    if s == [] then Some([])
    else if s[0] == ' ' || s[0] == '\n' then ScanAll(s[1..])
    else
      match Scan(s)
      case Stop => None
      case Found(l, rest) =>
        ScanAdvances(s);
        match ScanAll(rest)
        case None => None
        case Some(more) => Some([l] + more)
  }

  // ---------------------------------------------------------------- the lexemes of rendered atoms

  function LexemeOf(a: Atom): Lexeme {
    match a
    case Word(text) => Keyword(text)
    case Number(whole, fraction) => Numeral(whole, fraction)
    case Minus => Dash
    case Mark(c) => Sign(c)
    case Blank => Sign(' ')
    case Name(name) => Ident(name)
    case Text(value) => Literal(value)
  }

  function Lexemes(atoms: seq<Atom>): seq<Lexeme> {
    if atoms == [] then []
    else if atoms[0].Blank? then Lexemes(atoms[1..])
    else [LexemeOf(atoms[0])] + Lexemes(atoms[1..])
  }

  /** Text that comes back as itself: the exact condition of `TextRoundTrip`. */
  predicate Plain(text: string) {
    NoNul(text) && InertBackslashes(text) && !TooLong(text)
  }

  predicate PlainAtom(a: Atom) {
    a.Text? ==> Plain(a.value)
  }

  predicate AllPlain(atoms: seq<Atom>) {
    forall i :: 0 <= i < |atoms| ==> PlainAtom(atoms[i])
  }

  lemma {:induction false} DigitRunStops(s: string, t: string)
    requires AllDigits(s) && (t == [] || !Digit(t[0]))
    ensures DigitRun(s + t) == |s|
    decreases |s|
  {
    if s == [] {
      assert s + t == t;
    } else {
      assert (s + t)[1..] == s[1..] + t;
      DigitRunStops(s[1..], t);
    }
  }

  lemma {:induction false} WordRunStops(s: string, t: string)
    requires (forall i :: 0 <= i < |s| ==> WordChar(s[i])) && t != [] && !WordChar(t[0])
    ensures WordRun(s + t) == |s|
    decreases |s|
  {
    if s == [] {
      assert s + t == t;
    } else {
      assert (s + t)[1..] == s[1..] + t && WordChar(s[0]);
      WordRunStops(s[1..], t);
    }
  }

  lemma ScanWord(text: string, rest: string)
    requires GoodAtom(Word(text)) && rest != [] && Separated(Word(text), rest[0])
    ensures Scan(text + rest) == Found(Keyword(text), rest)
  {
    var s := text + rest;
    WordRunStops(text, rest);
    assert s[0] == text[0] && WordChar(text[0]) && s[..|text|] == text && s[|text|..] == rest;
  }

  lemma ScanNumber(whole: string, fraction: string, rest: string)
    requires GoodAtom(Number(whole, fraction)) && rest != [] && Separated(Number(whole, fraction), rest[0])
    ensures Scan(Spell(Number(whole, fraction)) + rest) == Found(Numeral(whole, fraction), rest)
  {
    NumeralScans(whole, fraction, rest);
    DigitScans(Spell(Number(whole, fraction)) + rest);
  }

  lemma NumeralScans(whole: string, fraction: string, rest: string)
    requires whole != [] && AllDigits(whole) && AllDigits(fraction)
    requires rest == [] || (!Digit(rest[0]) && rest[0] != '.')
    ensures var s := Spell(Number(whole, fraction)) + rest;
            s != [] && Digit(s[0]) && ScanNumeral(s) == Found(Numeral(whole, fraction), rest)
  {
    if fraction == [] {
      WholeNumeral(whole, rest);
    } else {
      FractionNumeral(whole, fraction, rest);
      FourTexts(whole, ".", fraction, rest);
    }
  }

  lemma FourTexts(a: string, b: string, c: string, d: string)
    ensures a + b + c + d == a + (b + (c + d))
  {
  }

  lemma DigitScans(s: string)
    requires s != [] && Digit(s[0])
    ensures Scan(s) == ScanNumeral(s)
  {
  }

  lemma SplitDigits(s: string, t: string)
    requires AllDigits(s) && (t == [] || !Digit(t[0]))
    ensures DigitRun(s + t) == |s| && (s + t)[..|s|] == s && (s + t)[|s|..] == t
  {
    DigitRunStops(s, t);
  }

  lemma WholeNumeral(whole: string, rest: string)
    requires AllDigits(whole) && (rest == [] || (!Digit(rest[0]) && rest[0] != '.'))
    ensures ScanNumeral(whole + rest) == Found(Numeral(whole, []), rest)
  {
    SplitDigits(whole, rest);
  }

  lemma FractionNumeral(whole: string, fraction: string, rest: string)
    requires AllDigits(whole) && AllDigits(fraction) && fraction != [] && (rest == [] || !Digit(rest[0]))
    ensures ScanNumeral(whole + ("." + (fraction + rest))) == Found(Numeral(whole, fraction), rest)
  {
    var after := "." + (fraction + rest);
    SplitDigits(whole, after);
    assert after[1..] == fraction + rest && after[1] == fraction[0];
    SplitDigits(fraction, rest);
  }

  lemma ScanText(value: string, rest: string)
    requires Plain(value) && rest != [] && rest[0] != '\''
    ensures Scan(QuoteText(value) + rest) == Found(Literal(value), rest)
  {
    var s := QuoteText(value) + rest;
    assert s[0] == '\'' && s[1..] == Doubled('\'', value) + "'" + rest;
    InertIsSafeAndKept(value);
    QuotedTextLexesBack(value, rest);
  }

  lemma ScanName(name: string, rest: string)
    requires NoNul(name) && rest != [] && rest[0] != '"'
    ensures Scan(QuoteIdentifier(name) + rest) == Found(Ident(name), rest)
  {
    var s := QuoteIdentifier(name) + rest;
    assert s[0] == '"' && s[1..] == Doubled('"', name) + ("\"" + rest);
    NameBodyCloses('"', name, rest);
  }

  lemma ScanSign(c: char, rest: string)
    requires c in "(),.;-"
    ensures Scan([c] + rest) == Found(if c == '-' then Dash else Sign(c), rest)
  {
    assert ([c] + rest)[1..] == rest;
  }

  /** Scanning steps over an atom and yields its content. */
  lemma ScanAtom(a: Atom, rest: string)
    requires GoodAtom(a) && PlainAtom(a) && rest != [] && Separated(a, rest[0]) && !a.Blank?
    ensures Scan(Spell(a) + rest) == Found(LexemeOf(a), rest) && (Spell(a) + rest)[0] !in " \n"
  {
    match a {
      case Word(text) => ScanWord(text, rest);
      case Number(whole, fraction) => ScanNumber(whole, fraction, rest);
      case Minus => ScanSign('-', rest);
      case Mark(c) => ScanSign(c, rest);
      case Name(name) => ScanName(name, rest);
      case Text(value) => ScanText(value, rest);
    }
  }

  lemma ScanFirst(s: string, l: Lexeme, rest: string, more: seq<Lexeme>)
    requires s != [] && s[0] !in " \n" && Scan(s) == Found(l, rest) && ScanAll(rest) == Some(more)
    ensures ScanAll(s) == Some([l] + more)
  {
    assert s[0] != ' ' && s[0] != '\n';
  }

  lemma ScanEnd()
    ensures ScanAll(";\n") == Some([Sign(';')])
  {
    ScanSign(';', "\n");
    assert ";" + "\n" == ";\n" && "\n"[1..] == "";
    assert ScanAll("\n") == ScanAll("");
    ScanFirst(";\n", Sign(';'), "\n", []);
    assert [Sign(';')] + [] == [Sign(';')];
  }

  /** The lexemes of a rendered statement are those of its atoms, with their contents. */
  lemma {:induction false} ScanStatement(atoms: seq<Atom>)
    requires Good(atoms) && AllPlain(atoms)
    ensures ScanAll(Statement(atoms)) == Some(Lexemes(atoms) + [Sign(';')])
    decreases |atoms|
  {
    if atoms == [] {
      ScanEnd();
      assert Statement(atoms) == ";\n" && Lexemes(atoms) + [Sign(';')] == [Sign(';')];
    } else {
      var rest := Statement(atoms[1..]);
      assert Statement(atoms) == Spell(atoms[0]) + rest;
      if |atoms| > 1 {
        TailStarts(atoms);
      } else {
        assert Render(atoms[1..]) == [];
      }
      assert AllPlain(atoms[1..]);
      ScanStatement(atoms[1..]);
      if atoms[0].Blank? {
        assert (" " + rest)[1..] == rest;
      } else {
        ScanAtom(atoms[0], rest);
        ScanFirst(Statement(atoms), LexemeOf(atoms[0]), rest, Lexemes(atoms[1..]) + [Sign(';')]);
        assert [LexemeOf(atoms[0])] + (Lexemes(atoms[1..]) + [Sign(';')]) == Lexemes(atoms) + [Sign(';')];
      }
    }
  }

  lemma {:induction false} LexemesConcat(a: seq<Atom>, b: seq<Atom>)
    ensures Lexemes(a + b) == Lexemes(a) + Lexemes(b)
    decreases |a|
  {
    if a == [] {
      assert a + b == b;
    } else {
      assert (a + b)[0] == a[0] && (a + b)[1..] == a[1..] + b;
      LexemesConcat(a[1..], b);
    }
  }

  // ---------------------------------------------------------------- reading values

  /** A value and the lexemes after it. */
  datatype Read<T> = Nothing | Got(value: T, rest: seq<Lexeme>)

  /** A number as the parser takes it (expressions.rs:283-297, 551-580): without a fraction it is an
      integer literal and must fit 64 bits, the most negative one being spelled out; `floating` tells
      whether its column turns it into a floating point number. */
  function ReadNumber(floating: bool, negative: bool, whole: string, fraction: string): Option<Value> {
    if whole == [] || !AllDigits(whole) then None
    else if fraction != [] then if floating then Some(Float(negative, whole, fraction)) else None
    else if Decimal.Value(whole) > Schedule.I64_MAX && !(negative && SpellsLeast(whole)) then None
    else if floating then Some(Float(negative, whole, []))
    else Some(Integer(if negative then 0 - Decimal.Value(whole) else Decimal.Value(whole)))
  }

  /** The digits of 2 to the power 63. */
  predicate SpellsLeast(whole: string) {
    whole == Decimal.Digits(Schedule.I64_MAX + 1)
  }

  function Numbered(v: Option<Value>, rest: seq<Lexeme>): Read<Value> {
    if v.Some? then Got(v.value, rest) else Nothing
  }

  /** `AS type)` or `AS VECTOR(n))` behind a cast literal. */
  function ReadType(text: string, ls: seq<Lexeme>): (r: Read<Value>)
    ensures r.Got? ==> |r.rest| <= |ls|
  {
    if |ls| >= 3 && ls[0] == Keyword("AS") && ls[1].Keyword? && ls[2] == Sign(')') then
      Got(Cast(text, ls[1].text), ls[3..])
    else if |ls| >= 6 && ls[0] == Keyword("AS") && ls[1] == Keyword("VECTOR") && ls[2] == Sign('(') && ls[3].Numeral?
            && AllDigits(ls[3].whole) && ls[3].fraction == [] && ls[4] == Sign(')') && ls[5] == Sign(')') then
      Got(Vector(text, Decimal.Value(ls[3].whole)), ls[6..])
    else Nothing
  }

  /** Names with a sign between them. */
  function ReadNames(sep: char, ls: seq<Lexeme>): (r: Read<seq<string>>)
    ensures r.Got? ==> |r.rest| < |ls|
  {
    if ls == [] || !ls[0].Ident? then Nothing
    else if |ls| > 1 && ls[1] == Sign(sep) then
      match ReadNames(sep, ls[2..])
      case Nothing => Nothing
      case Got(path, rest) => Got([ls[0].name] + path, rest)
    else Got([ls[0].name], ls[1..])
  }

  /** `AS name)` behind `CAST(FROM_HEX('..')`. */
  function ReadExternal(digits: string, ls: seq<Lexeme>): (r: Read<Value>)
    ensures r.Got? ==> |r.rest| <= |ls|
  {
    if ls == [] || ls[0] != Keyword("AS") then Nothing
    else
      match ReadNames('.', ls[1..])
      case Nothing => Nothing
      case Got(path, rest) =>
        if rest != [] && rest[0] == Sign(')') then Got(External(digits, path), rest[1..]) else Nothing
  }

  /** `('literal')` */
  function ReadArgument(ls: seq<Lexeme>): (r: Read<string>)
    ensures r.Got? ==> |r.rest| <= |ls|
  {
    if |ls| >= 3 && ls[0] == Sign('(') && ls[1].Literal? && ls[2] == Sign(')') then Got(ls[1].value, ls[3..])
    else Nothing
  }

  function ReadCast(ls: seq<Lexeme>): (r: Read<Value>)
    ensures r.Got? ==> |r.rest| <= |ls|
  {
    if |ls| < 2 || ls[0] != Sign('(') then Nothing
    else if ls[1].Literal? then ReadType(ls[1].value, ls[2..])
    else if ls[1] == Keyword("FROM_HEX") then
      match ReadArgument(ls[2..])
      case Nothing => Nothing
      case Got(digits, rest) => ReadExternal(digits, rest)
    else Nothing
  }

  function ReadWord(word: string, ls: seq<Lexeme>): (r: Read<Value>)
    ensures r.Got? ==> |r.rest| <= |ls|
  {
    if word == "NULL" then Got(Null, ls)
    else if word == "TRUE" then Got(Boolean(true), ls)
    else if word == "FALSE" then Got(Boolean(false), ls)
    else if word == "CAST" then ReadCast(ls)
    else if word == "FROM_HEX" then
      match ReadArgument(ls)
      case Nothing => Nothing
      case Got(digits, rest) => Got(Hex(digits), rest)
    else Nothing
  }

  function ReadValue(floating: bool, ls: seq<Lexeme>): (r: Read<Value>)
    ensures r.Got? ==> |r.rest| < |ls|
  {
    if ls == [] then Nothing
    else
      match ls[0]
      case Keyword(word) => ReadWord(word, ls[1..])
      case Literal(text) => Got(Chars(text), ls[1..])
      case Numeral(whole, fraction) => Numbered(ReadNumber(floating, false, whole, fraction), ls[1..])
      case Dash =>
        if |ls| > 1 && ls[1].Numeral? then Numbered(ReadNumber(floating, true, ls[1].whole, ls[1].fraction), ls[2..])
        else Nothing
      case _ => Nothing
  }

  // ---------------------------------------------------------------- reading rows and statements

  /** One value for each of the columns, with commas between them. */
  function ReadValues(floats: seq<bool>, ls: seq<Lexeme>): (r: Read<seq<Value>>)
    ensures r.Got? ==> |r.rest| <= |ls|
    decreases |floats|
  {
    if floats == [] then Got([], ls)
    else
      match ReadValue(floats[0], ls)
      case Nothing => Nothing
      case Got(v, rest) =>
        if |floats| == 1 then Got([v], rest)
        else if rest == [] || rest[0] != Sign(',') then Nothing
        else
          match ReadValues(floats[1..], rest[1..])
          case Nothing => Nothing
          case Got(more, after) => Got([v] + more, after)
  }

  function ReadRow(floats: seq<bool>, ls: seq<Lexeme>): (r: Read<seq<Value>>)
    ensures r.Got? ==> |r.rest| < |ls|
  {
    if ls == [] || ls[0] != Sign('(') then Nothing
    else
      match ReadValues(floats, ls[1..])
      case Nothing => Nothing
      case Got(values, rest) => if rest != [] && rest[0] == Sign(')') then Got(values, rest[1..]) else Nothing
  }

  function ReadRows(floats: seq<bool>, ls: seq<Lexeme>): Read<seq<seq<Value>>>
    decreases |ls|
  {
    match ReadRow(floats, ls)
    case Nothing => Nothing
    case Got(row, rest) =>
      if rest != [] && rest[0] == Sign(',') then
        match ReadRows(floats, rest[1..])
        case Nothing => Nothing
        case Got(rows, after) => Got([row] + rows, after)
      else Got([row], rest)
  }

  function ReadColumns(ls: seq<Lexeme>): Read<seq<string>> {
    if |ls| < 2 || ls[0] != Sign('(') then Nothing
    else if ls[1] == Sign(')') then Got([], ls[2..])
    else
      match ReadNames(',', ls[1..])
      case Nothing => Nothing
      case Got(names, rest) => if rest != [] && rest[0] == Sign(')') then Got(names, rest[1..]) else Nothing
  }

  datatype Insert = Insert(table: string, columns: seq<string>, rows: seq<seq<Value>>)

  /** `INSERT INTO "table" ("column", ..) VALUES (..), ..;` with `floats` telling which columns hold
      floating point numbers. */
  function ReadInsert(floats: seq<bool>, ls: seq<Lexeme>): Option<Insert> {
    if |ls| < 3 || ls[0] != Keyword("INSERT") || ls[1] != Keyword("INTO") || !ls[2].Ident? then None
    else
      match ReadColumns(ls[3..])
      case Nothing => None
      case Got(columns, rest) =>
        if rest == [] || rest[0] != Keyword("VALUES") then None
        else
          match ReadRows(floats, rest[1..])
          case Nothing => None
          case Got(rows, end) => if end == [Sign(';')] then Some(Insert(ls[2].name, columns, rows)) else None
  }

  function ReadStatement(floats: seq<bool>, text: string): Option<Insert> {
    match ScanAll(text)
    case None => None
    case Some(ls) => ReadInsert(floats, ls)
  }

  // ---------------------------------------------------------------- what comes back

  /** The number is within what an integer literal can hold, or is written with a fraction. */
  predicate FitsLiteral(negative: bool, whole: string, fraction: string)
    requires AllDigits(whole)
  {
    fraction != [] || Decimal.Value(whole) <= Schedule.I64_MAX || (negative && SpellsLeast(whole))
  }

  /** Values whose exported text comes back as themselves. */
  predicate Readable(floating: bool, v: Value) {
    GoodValue(v) &&
    match v
    case Integer(n) => !floating && Schedule.IsI64(n)
    case Float(negative, whole, fraction) => floating && FitsLiteral(negative, whole, fraction)
    case Chars(text) => Plain(text)
    case Cast(text, _) => Plain(text)
    case Vector(text, _) => Plain(text)
    case Hex(digits) => Plain(digits)
    case External(digits, _) => Plain(digits)
    case _ => true
  }

  lemma Words()
    ensures "NULL" != "TRUE" && "NULL" != "FALSE" && "NULL" != "CAST" && "NULL" != "FROM_HEX"
    ensures "TRUE" != "FALSE" && "TRUE" != "CAST" && "TRUE" != "FROM_HEX"
    ensures "FALSE" != "CAST" && "FALSE" != "FROM_HEX" && "CAST" != "FROM_HEX"
  {
    assert "NULL"[0] == 'N' && "TRUE"[0] == 'T' && "FALSE"[0] == 'F' && "CAST"[0] == 'C';
    assert "FROM_HEX"[0] == 'F' && "FROM_HEX"[1] == 'R' && "FALSE"[1] == 'A';
  }

  lemma NumberReads(floating: bool, negative: bool, whole: string, fraction: string, rest: seq<Lexeme>)
    requires whole != [] && AllDigits(whole)
    ensures ReadValue(floating, Lexemes(SignedAtoms(negative, Number(whole, fraction))) + rest) ==
              Numbered(ReadNumber(floating, negative, whole, fraction), rest)
  {
    var l := Numeral(whole, fraction);
    if negative {
      assert ([Minus] + [Number(whole, fraction)])[1..] == [Number(whole, fraction)];
      assert Lexemes([Number(whole, fraction)]) == [l];
      assert ([Dash, l] + rest)[2..] == rest;
    } else {
      assert ([l] + rest)[1..] == rest;
    }
  }

  lemma IntegerReads(n: int, rest: seq<Lexeme>)
    requires Schedule.IsI64(n)
    ensures ReadValue(false, Lexemes(ValueAtoms(Integer(n))) + rest) == Got(Integer(n), rest)
  {
    var m := if n < 0 then -n else n;
    IntegerLiteral(n, m);
    NumberReads(false, n < 0, Decimal.Digits(m), "", rest);
  }

  lemma IntegerLiteral(n: int, m: nat)
    requires Schedule.IsI64(n) && m == if n < 0 then -n else n
    ensures ReadNumber(false, n < 0, Decimal.Digits(m), "") == Some(Integer(n))
  {
    Decimal.ValueOfDigits(m);
  }

  /** The lexemes of names with a sign between them. */
  function NameLexemes(sep: char, names: seq<string>): seq<Lexeme> {
    if names == [] then []
    else if |names| == 1 then [Ident(names[0])]
    else [Ident(names[0]), Sign(sep)] + NameLexemes(sep, names[1..])
  }

  lemma {:induction false} NameLexemesSnoc(sep: char, names: seq<string>, name: string)
    requires names != []
    ensures NameLexemes(sep, names + [name]) == NameLexemes(sep, names) + [Sign(sep), Ident(name)]
    decreases |names|
  {
    var longer := names + [name];
    if |names| == 1 {
      assert longer[1..] == [name] && NameLexemes(sep, [name]) == [Ident(name)];
    } else {
      assert longer[1..] == names[1..] + [name] && longer[0] == names[0];
      NameLexemesSnoc(sep, names[1..], name);
    }
  }

  lemma {:induction false} PathAtomsLex(path: seq<string>)
    requires path != []
    ensures Lexemes(PathAtoms(path)) == NameLexemes('.', path)
    decreases |path|
  {
    var n := |path| - 1;
    if n == 0 {
      assert [Name(path[0])][1..] == [];
    } else {
      PathAtomsLex(path[..n]);
      var tail := [Mark('.')] + [Name(path[n])];
      LexemesConcat(PathAtoms(path[..n]), tail);
      assert tail == [Mark('.'), Name(path[n])];
      LexTwo(Mark('.'), Name(path[n]));
      NameLexemesSnoc('.', path[..n], path[n]);
      assert path == path[..n] + [path[n]];
    }
  }

  lemma {:induction false} NamesRead(sep: char, names: seq<string>, rest: seq<Lexeme>)
    requires names != [] && (rest == [] || rest[0] != Sign(sep))
    ensures ReadNames(sep, NameLexemes(sep, names) + rest) == Got(names, rest)
    decreases |names|
  {
    if |names| == 1 {
      LastName(sep, names[0], rest);
      assert names == [names[0]];
    } else {
      NamesRead(sep, names[1..], rest);
      NamesStep(sep, names[0], NameLexemes(sep, names[1..]) + rest, names[1..], rest);
      FirstName(sep, names, rest);
      assert names == [names[0]] + names[1..];
    }
  }

  lemma LastName(sep: char, name: string, rest: seq<Lexeme>)
    requires rest == [] || rest[0] != Sign(sep)
    ensures ReadNames(sep, [Ident(name)] + rest) == Got([name], rest)
  {
    assert ([Ident(name)] + rest)[1..] == rest;
  }

  lemma FirstName(sep: char, names: seq<string>, rest: seq<Lexeme>)
    requires |names| > 1
    ensures NameLexemes(sep, names) + rest == [Ident(names[0]), Sign(sep)] + (NameLexemes(sep, names[1..]) + rest)
  {
  }

  lemma NamesStep(sep: char, name: string, tail: seq<Lexeme>, names: seq<string>, rest: seq<Lexeme>)
    requires ReadNames(sep, tail) == Got(names, rest)
    ensures ReadNames(sep, [Ident(name), Sign(sep)] + tail) == Got([name] + names, rest)
  {
    assert ([Ident(name), Sign(sep)] + tail)[2..] == tail;
  }

  lemma CallLex(word: string, text: string)
    ensures Lexemes(CallAtoms(word, text)) == [Keyword(word), Sign('('), Literal(text)]
  {
    assert CallAtoms(word, text) == [Word(word), Mark('('), Text(text)];
    LexThree(Word(word), Mark('('), Text(text));
  }

  lemma LexOne(a: Atom)
    ensures Lexemes([a]) == if a.Blank? then [] else [LexemeOf(a)]
  {
    assert [a][1..] == [];
  }

  lemma LexTwo(a: Atom, b: Atom)
    requires !a.Blank? && !b.Blank?
    ensures Lexemes([a, b]) == [LexemeOf(a), LexemeOf(b)]
  {
    assert [a, b][1..] == [b];
    LexOne(b);
  }

  lemma LexThree(a: Atom, b: Atom, c: Atom)
    requires !a.Blank? && !b.Blank? && !c.Blank?
    ensures Lexemes([a, b, c]) == [LexemeOf(a), LexemeOf(b), LexemeOf(c)]
  {
    assert [a, b, c][1..] == [b, c];
    LexTwo(b, c);
  }

  lemma SpacedLex(word: string)
    ensures Lexemes(SpacedAtoms(word)) == [Keyword(word)]
  {
    assert SpacedAtoms(word) == [Blank] + ([Word(word)] + [Blank]);
    LexemesConcat([Blank], [Word(word)] + [Blank]);
    LexemesConcat([Word(word)], [Blank]);
    LexOne(Blank);
    LexOne(Word(word));
  }

  lemma CastLex(cast: string, asWord: string, text: string, tail: seq<Atom>)
    ensures Lexemes(CallAtoms(cast, text) + (SpacedAtoms(asWord) + tail)) ==
              [Keyword(cast), Sign('('), Literal(text), Keyword(asWord)] + Lexemes(tail)
  {
    LexemesConcat(CallAtoms(cast, text), SpacedAtoms(asWord) + tail);
    LexemesConcat(SpacedAtoms(asWord), tail);
    CallLex(cast, text);
    SpacedLex(asWord);
  }

  lemma VectorLex(word: string, dimension: nat)
    ensures Lexemes(VectorAtoms(word, dimension)) ==
              [Keyword(word), Sign('('), Numeral(Decimal.Digits(dimension), ""), Sign(')'), Sign(')')]
  {
    var number := Number(Decimal.Digits(dimension), "");
    assert VectorAtoms(word, dimension) == [Word(word), Mark('('), number] + [Mark(')'), Mark(')')];
    LexemesConcat([Word(word), Mark('('), number], [Mark(')'), Mark(')')]);
    LexThree(Word(word), Mark('('), number);
    LexTwo(Mark(')'), Mark(')'));
  }

  lemma ExternalLex(cast: string, fromHex: string, asWord: string, digits: string, path: seq<string>)
    requires path != []
    ensures Lexemes(ExternalAtoms(cast, fromHex, asWord, digits, path)) ==
              [Keyword(cast), Sign('('), Keyword(fromHex), Sign('('), Literal(digits), Sign(')'), Keyword(asWord)]
              + (NameLexemes('.', path) + [Sign(')')])
  {
    var call := CallAtoms(fromHex, digits) + [Mark(')')];
    var typed := SpacedAtoms(asWord) + (PathAtoms(path) + [Mark(')')]);
    LexemesConcat([Word(cast)], [Mark('(')] + (call + typed));
    LexemesConcat([Mark('(')], call + typed);
    LexemesConcat(call, typed);
    LexemesConcat(CallAtoms(fromHex, digits), [Mark(')')]);
    LexemesConcat(SpacedAtoms(asWord), PathAtoms(path) + [Mark(')')]);
    LexemesConcat(PathAtoms(path), [Mark(')')]);
    CallLex(fromHex, digits);
    SpacedLex(asWord);
    PathAtomsLex(path);
    LexOne(Word(cast));
    LexOne(Mark('('));
    LexOne(Mark(')'));
  }

  lemma CastReads(text: string, typeName: string, rest: seq<Lexeme>)
    ensures ReadValue(false, Lexemes(ValueAtoms(Cast(text, typeName))) + rest) == Got(Cast(text, typeName), rest)
    ensures ReadValue(true, Lexemes(ValueAtoms(Cast(text, typeName))) + rest) == Got(Cast(text, typeName), rest)
  {
    Words();
    CastLex("CAST", "AS", text, TypeAtoms(typeName));
    assert TypeAtoms(typeName) == [Word(typeName), Mark(')')];
    LexTwo(Word(typeName), Mark(')'));
    CastLexemesRead("CAST", "AS", text, [Keyword(typeName), Sign(')')], rest);
    assert ([Keyword("AS")] + ([Keyword(typeName), Sign(')')] + rest))[3..] == rest;
  }

  /** A cast is read by its type. */
  lemma CastLexemesRead(cast: string, asWord: string, text: string, tail: seq<Lexeme>, rest: seq<Lexeme>)
    requires cast == "CAST"
    ensures forall floating ::
              ReadValue(floating, [Keyword(cast), Sign('('), Literal(text), Keyword(asWord)] + tail + rest) ==
                ReadType(text, [Keyword(asWord)] + (tail + rest))
  {
    Words();
    var ls := [Keyword(cast), Sign('('), Literal(text), Keyword(asWord)] + tail + rest;
    assert ls[1..][2..] == [Keyword(asWord)] + (tail + rest);
  }

  lemma VectorReads(floating: bool, text: string, dimension: nat, rest: seq<Lexeme>)
    ensures ReadValue(floating, Lexemes(ValueAtoms(Vector(text, dimension))) + rest) ==
              Got(Vector(text, dimension), rest)
  {
    var tail := [Keyword("VECTOR"), Sign('('), Numeral(Decimal.Digits(dimension), ""), Sign(')'), Sign(')')];
    CastLex("CAST", "AS", text, VectorAtoms("VECTOR", dimension));
    VectorLex("VECTOR", dimension);
    CastLexemesRead("CAST", "AS", text, tail, rest);
    Decimal.ValueOfDigits(dimension);
    assert ([Keyword("AS")] + (tail + rest))[6..] == rest;
  }

  lemma HexReads(floating: bool, digits: string, rest: seq<Lexeme>)
    ensures ReadValue(floating, Lexemes(ValueAtoms(Hex(digits))) + rest) == Got(Hex(digits), rest)
  {
    Words();
    LexemesConcat(CallAtoms("FROM_HEX", digits), [Mark(')')]);
    CallLex("FROM_HEX", digits);
    LexOne(Mark(')'));
    var ls := [Keyword("FROM_HEX"), Sign('('), Literal(digits), Sign(')')] + rest;
    assert ls[1..][3..] == rest;
  }

  lemma ExternalReads(floating: bool, digits: string, path: seq<string>, rest: seq<Lexeme>)
    requires path != []
    ensures ReadValue(floating, Lexemes(ValueAtoms(External(digits, path))) + rest) == Got(External(digits, path), rest)
  {
    var tail := NameLexemes('.', path) + [Sign(')')];
    ExternalLex("CAST", "FROM_HEX", "AS", digits, path);
    ExternalLexemesRead(floating, "CAST", "FROM_HEX", digits, [Keyword("AS")] + (tail + rest),
                        Lexemes(ValueAtoms(External(digits, path))) + rest);
    TypedReads("AS", digits, path, rest);
  }

  lemma ExternalLexemesRead(floating: bool, cast: string, fromHex: string, digits: string, typed: seq<Lexeme>,
                            ls: seq<Lexeme>)
    requires cast == "CAST" && fromHex == "FROM_HEX"
    requires ls == [Keyword(cast), Sign('('), Keyword(fromHex), Sign('('), Literal(digits), Sign(')')] + typed
    ensures ReadValue(floating, ls) == ReadExternal(digits, typed)
  {
    Words();
    assert ls[1..][2..] == [Sign('('), Literal(digits), Sign(')')] + typed;
    assert ls[1..][2..][3..] == typed;
  }

  lemma TypedReads(asWord: string, digits: string, path: seq<string>, rest: seq<Lexeme>)
    requires path != [] && asWord == "AS"
    ensures ReadExternal(digits, [Keyword(asWord)] + (NameLexemes('.', path) + [Sign(')')] + rest)) ==
              Got(External(digits, path), rest)
  {
    var ls := [Keyword(asWord)] + (NameLexemes('.', path) + [Sign(')')] + rest);
    assert ls[1..] == NameLexemes('.', path) + ([Sign(')')] + rest);
    NamesRead('.', path, [Sign(')')] + rest);
    assert ([Sign(')')] + rest)[1..] == rest;
  }

  lemma WordReads(floating: bool, v: Value, rest: seq<Lexeme>)
    requires v.Null? || v.Boolean?
    ensures ReadValue(floating, Lexemes(ValueAtoms(v)) + rest) == Got(v, rest)
  {
    Words();
    LexOne(ValueAtoms(v)[0]);
    assert ([LexemeOf(ValueAtoms(v)[0])] + rest)[1..] == rest;
  }

  /** What is read from the lexemes of a value is the value. */
  lemma ValueReads(floating: bool, v: Value, rest: seq<Lexeme>)
    requires Readable(floating, v)
    ensures ReadValue(floating, Lexemes(ValueAtoms(v)) + rest) == Got(v, rest)
  {
    match v {
      case Null => WordReads(floating, v, rest);
      case Boolean(_) => WordReads(floating, v, rest);
      case Integer(n) => IntegerReads(n, rest);
      case Float(negative, whole, fraction) => NumberReads(floating, negative, whole, fraction, rest);
      case Chars(text) =>
        LexOne(Text(text));
        assert ([Literal(text)] + rest)[1..] == rest;
      case Cast(text, typeName) => CastReads(text, typeName, rest);
      case Vector(text, dimension) => VectorReads(floating, text, dimension, rest);
      case Hex(digits) => HexReads(floating, digits, rest);
      case External(digits, path) => ExternalReads(floating, digits, path, rest);
    }
  }

  // ---------------------------------------------------------------- lists

  function JoinLexemes(parts: seq<seq<Lexeme>>): seq<Lexeme> {
    if parts == [] then []
    else if |parts| == 1 then parts[0]
    else parts[0] + ([Sign(',')] + JoinLexemes(parts[1..]))
  }

  lemma {:induction false} JoinLexemesSnoc(parts: seq<seq<Lexeme>>, last: seq<Lexeme>)
    requires parts != []
    ensures JoinLexemes(parts + [last]) == JoinLexemes(parts) + ([Sign(',')] + last)
    decreases |parts|
  {
    var longer := parts + [last];
    if |parts| == 1 {
      assert longer[1..] == [last] && JoinLexemes([last]) == last;
    } else {
      assert longer[1..] == parts[1..] + [last] && longer[0] == parts[0];
      JoinLexemesSnoc(parts[1..], last);
    }
  }

  function AllLexemes(parts: seq<seq<Atom>>): seq<seq<Lexeme>> {
    seq(|parts|, i requires 0 <= i < |parts| => Lexemes(parts[i]))
  }

  lemma {:induction false} JoinAtomsLex(parts: seq<seq<Atom>>)
    ensures Lexemes(JoinAtoms(parts)) == JoinLexemes(AllLexemes(parts))
    decreases |parts|
  {
    if |parts| > 1 {
      var n := |parts| - 1;
      JoinAtomsLex(parts[..n]);
      LexemesConcat(JoinAtoms(parts[..n]), ([Mark(',')] + [Blank]) + parts[n]);
      LexemesConcat([Mark(',')] + [Blank], parts[n]);
      LexemesConcat([Mark(',')], [Blank]);
      LexOne(Mark(','));
      LexOne(Blank);
      assert AllLexemes(parts) == AllLexemes(parts[..n]) + [Lexemes(parts[n])];
      JoinLexemesSnoc(AllLexemes(parts[..n]), Lexemes(parts[n]));
    }
  }

  lemma ListLex(parts: seq<seq<Atom>>)
    ensures Lexemes(ListAtoms(parts)) == [Sign('(')] + (JoinLexemes(AllLexemes(parts)) + [Sign(')')])
  {
    LexOne(Mark('('));
    LexOne(Mark(')'));
    if parts == [] {
      LexemesConcat([Mark('(')], [Mark(')')]);
    } else {
      LexemesConcat([Mark('(')], JoinAtoms(parts) + [Mark(')')]);
      LexemesConcat(JoinAtoms(parts), [Mark(')')]);
      JoinAtomsLex(parts);
    }
  }

  /** Every value of the row comes back as itself from its column. */
  predicate ReadableRow(floats: seq<bool>, values: seq<Value>) {
    |values| == |floats| && forall i :: 0 <= i < |values| ==> Readable(floats[i], values[i])
  }

  ghost predicate PartsOf(values: seq<Value>, parts: seq<seq<Lexeme>>) {
    |parts| == |values| && forall i :: 0 <= i < |values| ==> parts[i] == Lexemes(ValueAtoms(values[i]))
  }

  lemma {:induction false} ValuesRead(floats: seq<bool>, values: seq<Value>, parts: seq<seq<Lexeme>>, rest: seq<Lexeme>)
    requires ReadableRow(floats, values) && PartsOf(values, parts)
    ensures ReadValues(floats, JoinLexemes(parts) + rest) == Got(values, rest)
    decreases |values|
  {
    if |values| == 0 {
      assert JoinLexemes(parts) + rest == rest;
    } else if |values| == 1 {
      ValueReads(floats[0], values[0], rest);
      LastValue(floats, parts[0] + rest, values[0], rest);
      assert values == [values[0]];
    } else {
      OtherValues(floats, values, parts);
      ValuesRead(floats[1..], values[1..], parts[1..], rest);
      ValuesCons(floats, values[0], parts[0], values[1..], JoinLexemes(parts[1..]) + rest, rest);
      FirstOfJoined(parts, rest);
      assert values == [values[0]] + values[1..];
    }
  }

  lemma OtherValues(floats: seq<bool>, values: seq<Value>, parts: seq<seq<Lexeme>>)
    requires ReadableRow(floats, values) && PartsOf(values, parts) && values != []
    ensures ReadableRow(floats[1..], values[1..]) && PartsOf(values[1..], parts[1..])
    ensures Readable(floats[0], values[0]) && parts[0] == Lexemes(ValueAtoms(values[0]))
  {
  }

  lemma ValuesCons(floats: seq<bool>, v: Value, part: seq<Lexeme>, more: seq<Value>, tail: seq<Lexeme>,
                   rest: seq<Lexeme>)
    requires |floats| > 1 && Readable(floats[0], v) && part == Lexemes(ValueAtoms(v))
    requires ReadValues(floats[1..], tail) == Got(more, rest)
    ensures ReadValues(floats, part + ([Sign(',')] + tail)) == Got([v] + more, rest)
  {
    ValueReads(floats[0], v, [Sign(',')] + tail);
    ValuesStep(floats, part + ([Sign(',')] + tail), v, tail, more, rest);
  }

  lemma FirstOfJoined(parts: seq<seq<Lexeme>>, rest: seq<Lexeme>)
    requires |parts| > 1
    ensures JoinLexemes(parts) + rest == parts[0] + ([Sign(',')] + (JoinLexemes(parts[1..]) + rest))
  {
  }

  lemma LastValue(floats: seq<bool>, ls: seq<Lexeme>, v: Value, rest: seq<Lexeme>)
    requires |floats| == 1 && ReadValue(floats[0], ls) == Got(v, rest)
    ensures ReadValues(floats, ls) == Got([v], rest)
  {
  }

  lemma ValuesStep(floats: seq<bool>, ls: seq<Lexeme>, v: Value, tail: seq<Lexeme>, more: seq<Value>, rest: seq<Lexeme>)
    requires |floats| > 1 && ReadValue(floats[0], ls) == Got(v, [Sign(',')] + tail)
    requires ReadValues(floats[1..], tail) == Got(more, rest)
    ensures ReadValues(floats, ls) == Got([v] + more, rest)
  {
    assert ([Sign(',')] + tail)[1..] == tail;
  }

  lemma RowReads(floats: seq<bool>, values: seq<Value>, rest: seq<Lexeme>)
    requires ReadableRow(floats, values)
    ensures ReadRow(floats, Lexemes(RowAtoms(values)) + rest) == Got(values, rest)
  {
    var atoms := seq(|values|, i requires 0 <= i < |values| => ValueAtoms(values[i]));
    var parts := AllLexemes(atoms);
    ListLex(atoms);
    ValuesRead(floats, values, parts, [Sign(')')] + rest);
    RowStep(floats, JoinLexemes(parts) + ([Sign(')')] + rest), values, rest);
    Bracketed(JoinLexemes(parts), rest);
  }

  lemma RowStep(floats: seq<bool>, body: seq<Lexeme>, values: seq<Value>, rest: seq<Lexeme>)
    requires ReadValues(floats, body) == Got(values, [Sign(')')] + rest)
    ensures ReadRow(floats, [Sign('(')] + body) == Got(values, rest)
  {
    assert ([Sign('(')] + body)[1..] == body;
    assert ([Sign(')')] + rest)[1..] == rest;
  }

  lemma Bracketed(inner: seq<Lexeme>, rest: seq<Lexeme>)
    ensures [Sign('(')] + (inner + [Sign(')')]) + rest == [Sign('(')] + (inner + ([Sign(')')] + rest))
  {
  }

  ghost predicate RowParts(rows: seq<seq<Value>>, parts: seq<seq<Lexeme>>) {
    |parts| == |rows| && forall i :: 0 <= i < |rows| ==> parts[i] == Lexemes(RowAtoms(rows[i]))
  }

  predicate ReadableRows(floats: seq<bool>, rows: seq<seq<Value>>) {
    forall i :: 0 <= i < |rows| ==> ReadableRow(floats, rows[i])
  }

  lemma {:induction false} RowsRead(floats: seq<bool>, rows: seq<seq<Value>>, parts: seq<seq<Lexeme>>,
                                    rest: seq<Lexeme>)
    requires ReadableRows(floats, rows) && RowParts(rows, parts) && rows != []
    requires rest == [] || rest[0] != Sign(',')
    ensures ReadRows(floats, JoinLexemes(parts) + rest) == Got(rows, rest)
    decreases |rows|
  {
    if |rows| == 1 {
      OnlyRow(floats, rows, parts, rest);
    } else {
      OtherRows(floats, rows, parts);
      RowsRead(floats, rows[1..], parts[1..], rest);
      RowsCons(floats, rows[0], parts[0], rows[1..], JoinLexemes(parts[1..]) + rest, rest);
      FirstOfJoined(parts, rest);
      assert rows == [rows[0]] + rows[1..];
    }
  }

  lemma OnlyRow(floats: seq<bool>, rows: seq<seq<Value>>, parts: seq<seq<Lexeme>>, rest: seq<Lexeme>)
    requires ReadableRows(floats, rows) && RowParts(rows, parts) && |rows| == 1
    requires rest == [] || rest[0] != Sign(',')
    ensures ReadRows(floats, JoinLexemes(parts) + rest) == Got(rows, rest)
  {
    RowReads(floats, rows[0], rest);
    LastRow(floats, parts[0] + rest, rows[0], rest);
    assert rows == [rows[0]];
  }

  lemma OtherRows(floats: seq<bool>, rows: seq<seq<Value>>, parts: seq<seq<Lexeme>>)
    requires ReadableRows(floats, rows) && RowParts(rows, parts) && rows != []
    ensures ReadableRows(floats, rows[1..]) && RowParts(rows[1..], parts[1..])
    ensures ReadableRow(floats, rows[0]) && parts[0] == Lexemes(RowAtoms(rows[0]))
  {
  }

  lemma RowsCons(floats: seq<bool>, row: seq<Value>, part: seq<Lexeme>, more: seq<seq<Value>>, tail: seq<Lexeme>,
                 rest: seq<Lexeme>)
    requires ReadableRow(floats, row) && part == Lexemes(RowAtoms(row)) && ReadRows(floats, tail) == Got(more, rest)
    ensures ReadRows(floats, part + ([Sign(',')] + tail)) == Got([row] + more, rest)
  {
    RowReads(floats, row, [Sign(',')] + tail);
    RowsStep(floats, part + ([Sign(',')] + tail), row, tail, more, rest);
  }

  lemma LastRow(floats: seq<bool>, ls: seq<Lexeme>, row: seq<Value>, rest: seq<Lexeme>)
    requires ReadRow(floats, ls) == Got(row, rest) && (rest == [] || rest[0] != Sign(','))
    ensures ReadRows(floats, ls) == Got([row], rest)
  {
  }

  lemma RowsStep(floats: seq<bool>, ls: seq<Lexeme>, row: seq<Value>, tail: seq<Lexeme>, more: seq<seq<Value>>,
                 rest: seq<Lexeme>)
    requires ReadRow(floats, ls) == Got(row, [Sign(',')] + tail) && ReadRows(floats, tail) == Got(more, rest)
    ensures ReadRows(floats, ls) == Got([row] + more, rest)
  {
    assert ([Sign(',')] + tail)[1..] == tail;
  }

  lemma {:induction false} NamesJoin(names: seq<string>, parts: seq<seq<Lexeme>>)
    requires |parts| == |names| && forall i :: 0 <= i < |names| ==> parts[i] == [Ident(names[i])]
    ensures JoinLexemes(parts) == NameLexemes(',', names)
    decreases |names|
  {
    if |names| > 1 {
      NamesJoin(names[1..], parts[1..]);
    }
  }

  lemma ColumnsRead(columns: seq<string>, rest: seq<Lexeme>)
    ensures ReadColumns(Lexemes(ColumnAtoms(columns)) + rest) == Got(columns, rest)
  {
    var atoms := seq(|columns|, i requires 0 <= i < |columns| => [Name(columns[i])]);
    var parts := AllLexemes(atoms);
    forall i | 0 <= i < |columns| ensures parts[i] == [Ident(columns[i])] {
      LexOne(Name(columns[i]));
    }
    ListLex(atoms);
    NamesJoin(columns, parts);
    var ls := [Sign('(')] + (NameLexemes(',', columns) + [Sign(')')]) + rest;
    var tail := [Sign(')')] + rest;
    assert ls[1..] == NameLexemes(',', columns) + tail && tail[1..] == rest;
    if columns == [] {
      assert ls[1..] == tail && ls[2..] == rest;
    } else {
      NamesRead(',', columns, tail);
    }
  }

  // ---------------------------------------------------------------- whole statements

  lemma {:induction false} PlainConcat(a: seq<Atom>, b: seq<Atom>)
    requires AllPlain(a) && AllPlain(b)
    ensures AllPlain(a + b)
  {
  }

  lemma {:induction false} PlainPath(path: seq<string>)
    ensures AllPlain(PathAtoms(path))
    decreases |path|
  {
    if |path| > 1 {
      PlainPath(path[..|path| - 1]);
    }
  }

  lemma PlainCast(cast: string, asWord: string, text: string, tail: seq<Atom>)
    requires Plain(text) && AllPlain(tail)
    ensures AllPlain(CallAtoms(cast, text) + (SpacedAtoms(asWord) + tail))
  {
    PlainConcat(SpacedAtoms(asWord), tail);
    PlainConcat(CallAtoms(cast, text), SpacedAtoms(asWord) + tail);
  }

  lemma PlainExternal(cast: string, fromHex: string, asWord: string, digits: string, path: seq<string>)
    requires Plain(digits)
    ensures AllPlain(ExternalAtoms(cast, fromHex, asWord, digits, path))
  {
    var call := CallAtoms(fromHex, digits) + [Mark(')')];
    var typed := SpacedAtoms(asWord) + (PathAtoms(path) + [Mark(')')]);
    PlainPath(path);
    PlainConcat(PathAtoms(path), [Mark(')')]);
    PlainConcat(SpacedAtoms(asWord), PathAtoms(path) + [Mark(')')]);
    PlainConcat(CallAtoms(fromHex, digits), [Mark(')')]);
    PlainConcat(call, typed);
    PlainConcat([Mark('(')], call + typed);
    PlainConcat([Word(cast)], [Mark('(')] + (call + typed));
  }

  lemma PlainValue(floating: bool, v: Value)
    requires Readable(floating, v)
    ensures AllPlain(ValueAtoms(v))
  {
    match v {
      case Cast(text, typeName) => PlainCast("CAST", "AS", text, TypeAtoms(typeName));
      case Vector(text, dimension) => PlainCast("CAST", "AS", text, VectorAtoms("VECTOR", dimension));
      case Hex(digits) => PlainConcat(CallAtoms("FROM_HEX", digits), [Mark(')')]);
      case External(digits, path) => PlainExternal("CAST", "FROM_HEX", "AS", digits, path);
      case _ =>
    }
  }

  lemma {:induction false} PlainJoin(parts: seq<seq<Atom>>)
    requires forall i :: 0 <= i < |parts| ==> AllPlain(parts[i])
    ensures AllPlain(JoinAtoms(parts)) && AllPlain(ListAtoms(parts))
    decreases |parts|
  {
    if |parts| > 1 {
      PlainJoin(parts[..|parts| - 1]);
    }
  }

  lemma PlainRow(floats: seq<bool>, values: seq<Value>)
    requires ReadableRow(floats, values)
    ensures AllPlain(RowAtoms(values))
  {
    var parts := seq(|values|, i requires 0 <= i < |values| => ValueAtoms(values[i]));
    forall i | 0 <= i < |parts| ensures AllPlain(parts[i]) {
      PlainValue(floats[i], values[i]);
    }
    PlainJoin(parts);
  }

  lemma PlainPrefix(insert: string, into: string, table: string, columns: seq<string>, values: string)
    ensures AllPlain(PrefixAtoms(insert, into, table, columns, values))
  {
    var parts := seq(|columns|, i requires 0 <= i < |columns| => [Name(columns[i])]);
    PlainJoin(parts);
  }

  lemma PlainInsert(floats: seq<bool>, table: string, columns: seq<string>, rows: seq<seq<Value>>)
    requires ReadableRows(floats, rows)
    ensures AllPlain(InsertAtoms(table, columns, rows))
  {
    var parts := seq(|rows|, i requires 0 <= i < |rows| => RowAtoms(rows[i]));
    forall i | 0 <= i < |parts| ensures AllPlain(parts[i]) {
      PlainRow(floats, rows[i]);
    }
    PlainJoin(parts);
    PlainPrefix("INSERT", "INTO", table, columns, "VALUES");
    PlainConcat(PrefixAtoms("INSERT", "INTO", table, columns, "VALUES"), JoinAtoms(parts));
  }

  lemma PrefixLex(insert: string, into: string, table: string, columns: seq<string>, values: string)
    ensures Lexemes(PrefixAtoms(insert, into, table, columns, values)) ==
              [Keyword(insert), Keyword(into), Ident(table)] + (Lexemes(ColumnAtoms(columns)) + [Keyword(values)])
  {
    var tail := ColumnAtoms(columns) + SpacedAtoms(values);
    LexemesConcat([Word(insert)], SpacedAtoms(into) + ([Name(table)] + ([Blank] + tail)));
    LexemesConcat(SpacedAtoms(into), [Name(table)] + ([Blank] + tail));
    LexemesConcat([Name(table)], [Blank] + tail);
    LexemesConcat([Blank], tail);
    LexemesConcat(ColumnAtoms(columns), SpacedAtoms(values));
    SpacedLex(into);
    SpacedLex(values);
    LexOne(Word(insert));
    LexOne(Name(table));
    LexOne(Blank);
  }

  lemma InsertStep(floats: seq<bool>, insert: string, into: string, values: string, table: string, columns: seq<string>,
                   columnLexemes: seq<Lexeme>, rows: seq<seq<Value>>, rowLexemes: seq<Lexeme>)
    requires insert == "INSERT" && into == "INTO" && values == "VALUES"
    requires ReadColumns(columnLexemes + ([Keyword(values)] + rowLexemes)) ==
               Got(columns, [Keyword(values)] + rowLexemes)
    requires ReadRows(floats, rowLexemes) == Got(rows, [Sign(';')])
    ensures ReadInsert(floats, [Keyword(insert), Keyword(into), Ident(table)]
                               + (columnLexemes + ([Keyword(values)] + rowLexemes))) ==
              Some(Insert(table, columns, rows))
  {
    var tail := columnLexemes + ([Keyword(values)] + rowLexemes);
    assert ([Keyword(insert), Keyword(into), Ident(table)] + tail)[3..] == tail;
    assert ([Keyword(values)] + rowLexemes)[1..] == rowLexemes;
  }

  lemma InsertLexemesRead(floats: seq<bool>, table: string, columns: seq<string>, rows: seq<seq<Value>>)
    requires ReadableRows(floats, rows) && rows != []
    ensures ReadInsert(floats, Lexemes(InsertAtoms(table, columns, rows)) + [Sign(';')]) ==
              Some(Insert(table, columns, rows))
  {
    var atoms := seq(|rows|, i requires 0 <= i < |rows| => RowAtoms(rows[i]));
    var parts := AllLexemes(atoms);
    var rowLexemes := JoinLexemes(parts) + [Sign(';')];
    var prefix := PrefixAtoms("INSERT", "INTO", table, columns, "VALUES");
    LexemesConcat(prefix, JoinAtoms(atoms));
    JoinAtomsLex(atoms);
    PrefixLex("INSERT", "INTO", table, columns, "VALUES");
    RowsRead(floats, rows, parts, [Sign(';')]);
    ColumnsRead(columns, [Keyword("VALUES")] + rowLexemes);
    InsertStep(floats, "INSERT", "INTO", "VALUES", table, columns, Lexemes(ColumnAtoms(columns)), rows, rowLexemes);
    Regrouped([Keyword("INSERT"), Keyword("INTO"), Ident(table)], Lexemes(ColumnAtoms(columns)), [Keyword("VALUES")],
              JoinLexemes(parts), [Sign(';')]);
  }

  lemma Regrouped(a: seq<Lexeme>, b: seq<Lexeme>, c: seq<Lexeme>, d: seq<Lexeme>, e: seq<Lexeme>)
    ensures a + (b + c) + d + e == a + (b + (c + (d + e)))
  {
  }

  /** An exported INSERT reads back as its table, its columns and its rows, value by value. */
  lemma InsertReadsBack(floats: seq<bool>, table: string, columns: seq<string>, rows: seq<seq<Value>>,
                        batch: seq<string>)
    requires GoodNames(table, columns) && rows != [] && Batches(batch, rows) && ReadableRows(floats, rows)
    ensures ReadStatement(floats, InsertText(InsertPrefix(table, columns), batch) + ";\n") ==
              Some(Insert(table, columns, rows))
  {
    forall i | 0 <= i < |rows| ensures GoodRow(rows[i]) {
      assert ReadableRow(floats, rows[i]);
    }
    InsertSpells(table, columns, rows, batch);
    PlainInsert(floats, table, columns, rows);
    ScanStatement(InsertAtoms(table, columns, rows));
    InsertLexemesRead(floats, table, columns, rows);
  }

  // ---------------------------------------------------------------- single values

  /** The value of a text that is one value and nothing else. */
  function ReadOne(floating: bool, text: string): Option<Value> {
    match ScanAll(text + ";\n")
    case None => None
    case Some(ls) =>
      match ReadValue(floating, ls)
      case Nothing => None
      case Got(v, rest) => if rest == [Sign(';')] then Some(v) else None
  }

  /** What an export writes for a value reads back as the value. */
  lemma ValueReadsBack(floating: bool, v: Value)
    requires Readable(floating, v)
    ensures ReadOne(floating, RenderValue(v)) == Some(v)
  {
    ValueSpells(v);
    PlainValue(floating, v);
    ScanStatement(ValueAtoms(v));
    ValueReads(floating, v, [Sign(';')]);
  }

  /** A floating point number is written without an exponent, and without a fraction if it has none; the
      parser then takes it for an integer literal. So it reads back exactly if it has a fraction or fits
      64 bits, and is refused otherwise. */
  lemma FloatReadsExactly(negative: bool, whole: string, fraction: string)
    requires GoodValue(Float(negative, whole, fraction))
    ensures ReadOne(true, RenderValue(Float(negative, whole, fraction))) ==
              if FitsLiteral(negative, whole, fraction) then Some(Float(negative, whole, fraction)) else None
  {
    var v := Float(negative, whole, fraction);
    ValueSpells(v);
    ScanStatement(ValueAtoms(v));
    NumberReads(true, negative, whole, fraction, [Sign(';')]);
  }

  /** Two to the power 63 is such a number. */
  lemma LargeFloatIsRefused()
    ensures var whole := Decimal.Digits(Schedule.I64_MAX + 1);
            && GoodValue(Float(false, whole, "")) && ReadOne(true, RenderValue(Float(false, whole, ""))) == None
  {
    var n: nat := Schedule.I64_MAX + 1;
    FineNumber(n);
    Decimal.ValueOfDigits(n);
    FloatReadsExactly(false, Decimal.Digits(n), "");
  }
}
