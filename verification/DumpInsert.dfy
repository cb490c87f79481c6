/** Exported INSERT statements: their text, their lexical atoms and their framing. */
module DumpInsert {
  import opened Common
  import opened SqlLexer
  import opened TextLiteral
  import opened DumpStatement
  import opened DumpRows
  import Decimal

  /** Column values by the shape `render_value` gives them (src/sql_dump.rs:614-685). */
  datatype Value =
    | Null
    | Integer(n: int)
    | Float(negative: bool, whole: string, fraction: string)
    | Boolean(b: bool)
    | Chars(text: string)
    | Cast(text: string, typeName: string)
    | Vector(text: string, dimension: nat)
    | Hex(digits: string)
    | External(digits: string, typePath: seq<string>)

  function RenderFloat(negative: bool, whole: string, fraction: string): string {
    (if negative then "-" else "") + (if fraction == [] then whole else whole + "." + fraction)
  }

  function RenderValue(v: Value): string {
    match v
    case Null => "NULL"
    case Integer(n) => Decimal.Signed(n)
    case Float(negative, whole, fraction) => RenderFloat(negative, whole, fraction)
    case Boolean(b) => if b then "TRUE" else "FALSE"
    case Chars(text) => QuoteText(text)
    case Cast(text, typeName) => "CAST(" + QuoteText(text) + " AS " + typeName + ")"
    case Vector(text, dimension) => "CAST(" + QuoteText(text) + " AS VECTOR(" + Decimal.Digits(dimension) + "))"
    case Hex(digits) => "FROM_HEX(" + QuoteText(digits) + ")"
    case External(digits, typePath) => "CAST(FROM_HEX(" + QuoteText(digits) + ") AS " + Dotted(typePath) + ")"
  }

  /** `quote_qualified_identifier` once the name is split at its dots. */
  function Dotted(path: seq<string>): string {
    if path == [] then []
    else if |path| == 1 then QuoteIdentifier(path[0])
    else Dotted(path[..|path| - 1]) + "." + QuoteIdentifier(path[|path| - 1])
  }

  function ValueAtoms(v: Value): seq<Atom> {
    match v
    case Null => [Word("NULL")]
    case Integer(n) => SignedAtoms(n < 0, Number(Decimal.Digits(if n < 0 then -n else n), ""))
    case Float(negative, whole, fraction) => SignedAtoms(negative, Number(whole, fraction))
    case Boolean(b) => [Word(if b then "TRUE" else "FALSE")]
    case Chars(text) => [Text(text)]
    case Cast(text, typeName) => CallAtoms("CAST", text) + (SpacedAtoms("AS") + TypeAtoms(typeName))
    case Vector(text, dimension) => CallAtoms("CAST", text) + (SpacedAtoms("AS") + VectorAtoms("VECTOR", dimension))
    case Hex(digits) => CallAtoms("FROM_HEX", digits) + [Mark(')')]
    case External(digits, typePath) => ExternalAtoms("CAST", "FROM_HEX", "AS", digits, typePath)
  }

  function PathAtoms(path: seq<string>): seq<Atom> {
    if path == [] then []
    else if |path| == 1 then [Name(path[0])]
    else PathAtoms(path[..|path| - 1]) + ([Mark('.')] + [Name(path[|path| - 1])])
  }

  function ExternalAtoms(cast: string, fromHex: string, asWord: string, digits: string, path: seq<string>): seq<Atom> {
    [Word(cast)] + ([Mark('(')] + ((CallAtoms(fromHex, digits) + [Mark(')')])
                                   + (SpacedAtoms(asWord) + (PathAtoms(path) + [Mark(')')]))))
  }

  function SignedAtoms(negative: bool, number: Atom): seq<Atom> {
    if negative then [Minus] + [number] else [number]
  }

  function CallAtoms(word: string, text: string): seq<Atom> {
    [Word(word)] + ([Mark('(')] + [Text(text)])
  }

  function SpacedAtoms(word: string): seq<Atom> {
    [Blank] + ([Word(word)] + [Blank])
  }

  function TypeAtoms(typeName: string): seq<Atom> {
    [Word(typeName)] + [Mark(')')]
  }

  function VectorAtoms(word: string, dimension: nat): seq<Atom> {
    [Word(word)] + ([Mark('(')] + ([Number(Decimal.Digits(dimension), "")] + ([Mark(')')] + [Mark(')')])))
  }

  /** Values whose text the lexer reads back: the condition found for text literals. */
  predicate GoodValue(v: Value) {
    match v
    case Float(_, whole, fraction) => GoodAtom(Number(whole, fraction))
    case Chars(text) => GoodAtom(Text(text))
    case Cast(text, typeName) => GoodAtom(Text(text)) && GoodAtom(Word(typeName))
    case Vector(text, _) => GoodAtom(Text(text))
    case Hex(digits) => GoodAtom(Text(digits))
    case External(digits, path) => GoodAtom(Text(digits)) && GoodPath(path)
    case _ => true
  }

  /** A schema-qualified name; a single component would lex as well. */
  predicate GoodPath(path: seq<string>) {
    path != [] && forall i :: 0 <= i < |path| ==> NoNul(path[i])
  }

  // ---------------------------------------------------------------- concatenating atoms

  lemma {:induction false} RenderConcat(a: seq<Atom>, b: seq<Atom>)
    ensures Render(a + b) == Render(a) + Render(b)
    decreases |a|
  {
    if a == [] {
      assert a + b == b;
    } else {
      RenderConcat(a[1..], b);
      FirstOfConcat(a, b);
      RenderFirst(a[0], a[1..], a);
      RenderFirst(a[0], a[1..] + b, a + b);
      Regroup(Spell(a[0]), Render(a[1..]), Render(b));
    }
  }

  lemma FirstOfConcat(a: seq<Atom>, b: seq<Atom>)
    requires a != []
    ensures a == [a[0]] + a[1..] && a + b == [a[0]] + (a[1..] + b)
  {
  }

  lemma Regroup(x: string, y: string, z: string)
    ensures x + (y + z) == x + y + z
  {
  }

  lemma RenderFirst(first: Atom, rest: seq<Atom>, whole: seq<Atom>)
    requires whole == [first] + rest
    ensures Render(whole) == Spell(first) + Render(rest)
  {
    assert whole[1..] == rest;
  }

  lemma {:induction false} GoodConcat(a: seq<Atom>, b: seq<Atom>)
    requires Good(a) && Good(b) && b != [] && (a == [] || Separated(a[|a| - 1], First(b[0])))
    ensures Good(a + b)
    decreases |a|
  {
    if a == [] {
      assert a + b == b;
    } else {
      assert (a + b)[1..] == a[1..] + b && (a + b)[0] == a[0];
      assert |a| > 1 ==> a[1..][|a[1..]| - 1] == a[|a| - 1];
      GoodConcat(a[1..], b);
    }
  }

  /** A list of atoms that is well formed and spells `t`. */
  ghost predicate Fine(a: seq<Atom>, t: string) {
    a != [] && Good(a) && Render(a) == t
  }

  lemma FineAtom(a: Atom)
    requires GoodAtom(a) && !a.Minus?
    ensures Fine([a], Spell(a))
  {
    assert [a][1..] == [];
  }

  lemma FineAppend(a: seq<Atom>, t: string, b: seq<Atom>, r: string)
    requires Fine(a, t) && Fine(b, r) && Separated(a[|a| - 1], First(b[0]))
    ensures Fine(a + b, t + r)
    ensures (a + b)[0] == a[0] && (a + b)[|a + b| - 1] == b[|b| - 1]
  {
    GoodConcat(a, b);
    RenderConcat(a, b);
  }

  /** Whatever may end a statement may also precede a comma, a parenthesis or a blank. */
  lemma {:induction false} FineEnd(a: seq<Atom>)
    requires a != [] && Good(a)
    ensures var last := a[|a| - 1]; Separated(last, ',') && Separated(last, ')') && Separated(last, ' ')
    decreases |a|
  {
    if |a| > 1 {
      FineEnd(a[1..]);
      assert a[1..][|a[1..]| - 1] == a[|a| - 1];
    }
  }

  // ---------------------------------------------------------------- values

  lemma FineNumber(n: nat)
    ensures GoodAtom(Number(Decimal.Digits(n), "")) && Spell(Number(Decimal.Digits(n), "")) == Decimal.Digits(n)
  {
    var d := Decimal.Digits(n);
    forall i | 0 <= i < |d| ensures Digit(d[i]) {
      assert Digit(d[i]);
    }
  }

  lemma FineSigned(negative: bool, number: Atom)
    requires GoodAtom(number) && number.Number?
    ensures Fine(SignedAtoms(negative, number), (if negative then "-" else "") + Spell(number))
  {
    FineAtom(number);
    if negative {
      assert ([Minus] + [number])[1..] == [number];
    }
  }

  lemma FineCall(word: string, text: string)
    requires GoodAtom(Word(word)) && GoodAtom(Text(text))
    ensures Fine(CallAtoms(word, text), word + ("(" + QuoteText(text)))
    ensures CallAtoms(word, text)[|CallAtoms(word, text)| - 1].Text? && CallAtoms(word, text)[0].Word?
  {
    FineAtom(Text(text));
    FineAtom(Mark('('));
    FineAtom(Word(word));
    FineAppend([Mark('(')], "(", [Text(text)], QuoteText(text));
    FineAppend([Word(word)], word, [Mark('(')] + [Text(text)], "(" + QuoteText(text));
  }

  lemma FineSpaced(word: string)
    requires GoodAtom(Word(word))
    ensures Fine(SpacedAtoms(word), " " + (word + " "))
    ensures SpacedAtoms(word)[|SpacedAtoms(word)| - 1].Blank? && SpacedAtoms(word)[0].Blank?
  {
    FineAtom(Blank);
    FineAtom(Word(word));
    FineAppend([Word(word)], word, [Blank], " ");
    FineAppend([Blank], " ", [Word(word)] + [Blank], word + " ");
  }

  lemma FineType(typeName: string)
    requires GoodAtom(Word(typeName))
    ensures Fine(TypeAtoms(typeName), typeName + ")")
  {
    FineAtom(Mark(')'));
    FineAtom(Word(typeName));
    FineAppend([Word(typeName)], typeName, [Mark(')')], ")");
  }

  lemma FineVector(word: string, dimension: nat)
    requires GoodAtom(Word(word))
    ensures Fine(VectorAtoms(word, dimension), word + ("(" + (Decimal.Digits(dimension) + (")" + ")"))))
  {
    var number := Number(Decimal.Digits(dimension), "");
    FineNumber(dimension);
    FineAtom(number);
    FineAtom(Mark(')'));
    FineAtom(Mark('('));
    FineAtom(Word(word));
    var end := [Mark(')')] + [Mark(')')];
    FineAppend([Mark(')')], ")", [Mark(')')], ")");
    FineAppend([number], Decimal.Digits(dimension), end, ")" + ")");
    FineAppend([Mark('(')], "(", [number] + end, Decimal.Digits(dimension) + (")" + ")"));
    FineAppend([Word(word)], word, [Mark('(')] + ([number] + end), "(" + (Decimal.Digits(dimension) + (")" + ")")));
  }

  lemma FineCast(cast: string, asWord: string, text: string, tail: seq<Atom>, tailText: string)
    requires GoodAtom(Word(cast)) && GoodAtom(Word(asWord)) && GoodAtom(Text(text)) && Fine(tail, tailText)
    ensures Fine(CallAtoms(cast, text) + (SpacedAtoms(asWord) + tail),
                 cast + ("(" + QuoteText(text)) + (" " + (asWord + " ") + tailText))
  {
    FineCall(cast, text);
    FineSpaced(asWord);
    FineAppend(SpacedAtoms(asWord), " " + (asWord + " "), tail, tailText);
    FineAppend(CallAtoms(cast, text), cast + ("(" + QuoteText(text)), SpacedAtoms(asWord) + tail,
               " " + (asWord + " ") + tailText);
  }

  lemma FineHex(word: string, digits: string)
    requires GoodAtom(Word(word)) && GoodAtom(Text(digits))
    ensures Fine(CallAtoms(word, digits) + [Mark(')')], word + ("(" + QuoteText(digits)) + ")")
  {
    FineCall(word, digits);
    FineAtom(Mark(')'));
    FineAppend(CallAtoms(word, digits), word + ("(" + QuoteText(digits)), [Mark(')')], ")");
  }

  lemma {:induction false} FinePath(path: seq<string>)
    requires GoodPath(path)
    ensures Fine(PathAtoms(path), Dotted(path))
    ensures PathAtoms(path)[0].Name? && PathAtoms(path)[|PathAtoms(path)| - 1].Name?
    decreases |path|
  {
    var n := |path| - 1;
    FineAtom(Name(path[n]));
    if n > 0 {
      FinePath(path[..n]);
      FineAtom(Mark('.'));
      FineAppend([Mark('.')], ".", [Name(path[n])], QuoteIdentifier(path[n]));
      FineDot(PathAtoms(path[..n]), Dotted(path[..n]), path[n]);
    }
  }

  lemma FineDot(before: seq<Atom>, text: string, name: string)
    requires Fine(before, text) && before[|before| - 1].Name? && NoNul(name)
    requires Fine([Mark('.')] + [Name(name)], "." + QuoteIdentifier(name))
    ensures Fine(before + ([Mark('.')] + [Name(name)]), text + "." + QuoteIdentifier(name))
  {
    FineAppend(before, text, [Mark('.')] + [Name(name)], "." + QuoteIdentifier(name));
    assert text + ("." + QuoteIdentifier(name)) == text + "." + QuoteIdentifier(name);
  }

  /** A typed tail: ` AS `, the name and the closing parenthesis. */
  lemma FineTyped(asWord: string, path: seq<string>)
    requires GoodAtom(Word(asWord)) && GoodPath(path)
    ensures Fine(SpacedAtoms(asWord) + (PathAtoms(path) + [Mark(')')]), " " + (asWord + " ") + (Dotted(path) + ")"))
    ensures (SpacedAtoms(asWord) + (PathAtoms(path) + [Mark(')')]))[0].Blank?
  {
    FinePath(path);
    FineAtom(Mark(')'));
    FineAppend(PathAtoms(path), Dotted(path), [Mark(')')], ")");
    FineSpaced(asWord);
    FineAppend(SpacedAtoms(asWord), " " + (asWord + " "), PathAtoms(path) + [Mark(')')], Dotted(path) + ")");
  }

  lemma FineExternal(cast: string, fromHex: string, asWord: string, digits: string, path: seq<string>)
    requires GoodAtom(Word(cast)) && GoodAtom(Word(fromHex)) && GoodAtom(Word(asWord)) && GoodAtom(Text(digits))
    requires GoodPath(path)
    ensures Fine(ExternalAtoms(cast, fromHex, asWord, digits, path),
                 cast + ("(" + (fromHex + ("(" + QuoteText(digits)) + ")"
                                + (" " + (asWord + " ") + (Dotted(path) + ")")))))
  {
    var call, typed := CallAtoms(fromHex, digits) + [Mark(')')], SpacedAtoms(asWord) + (PathAtoms(path) + [Mark(')')]);
    var callText, typedText := fromHex + ("(" + QuoteText(digits)) + ")", " " + (asWord + " ") + (Dotted(path) + ")");
    FineCall(fromHex, digits);
    FineHex(fromHex, digits);
    FineTyped(asWord, path);
    FineAppend(call, callText, typed, typedText);
    FineAtom(Mark('('));
    FineAtom(Word(cast));
    FineAppend([Mark('(')], "(", call + typed, callText + typedText);
    FineAppend([Word(cast)], cast, [Mark('(')] + (call + typed), "(" + (callText + typedText));
  }

  lemma ExternalText(q: string, p: string)
    ensures "CAST" + ("(" + ("FROM_HEX" + ("(" + q) + ")" + (" " + ("AS" + " ") + (p + ")")))) ==
            "CAST(FROM_HEX(" + q + ") AS " + p + ")"
  {
  }

  lemma Keywords()
    ensures GoodAtom(Word("NULL")) && GoodAtom(Word("TRUE")) && GoodAtom(Word("FALSE")) && GoodAtom(Word("CAST"))
    ensures GoodAtom(Word("AS")) && GoodAtom(Word("VECTOR")) && GoodAtom(Word("FROM_HEX"))
    ensures GoodAtom(Word("INSERT")) && GoodAtom(Word("INTO")) && GoodAtom(Word("VALUES"))
  {
  }

  lemma CastText(q: string, t: string)
    ensures "CAST" + ("(" + q) + (" " + ("AS" + " ") + (t + ")")) == "CAST(" + q + " AS " + t + ")"
  {
  }

  lemma VectorText(q: string, d: string)
    ensures "CAST" + ("(" + q) + (" " + ("AS" + " ") + ("VECTOR" + ("(" + (d + (")" + ")"))))) ==
            "CAST(" + q + " AS VECTOR(" + d + "))"
  {
  }

  lemma HexText(q: string)
    ensures "FROM_HEX" + ("(" + q) + ")" == "FROM_HEX(" + q + ")"
  {
  }

  /** The atoms of a value spell what the exporter writes for it. */
  lemma ValueSpells(v: Value)
    requires GoodValue(v)
    ensures Fine(ValueAtoms(v), RenderValue(v))
  {
    Keywords();
    match v {
      case Null => FineAtom(Word("NULL"));
      case Integer(n) =>
        var m := if n < 0 then -n else n;
        FineNumber(m);
        FineSigned(n < 0, Number(Decimal.Digits(m), ""));
      case Float(negative, whole, fraction) => FineSigned(negative, Number(whole, fraction));
      case Boolean(b) => FineAtom(Word(if b then "TRUE" else "FALSE"));
      case Chars(text) => FineAtom(Text(text));
      case Cast(text, typeName) =>
        FineType(typeName);
        FineCast("CAST", "AS", text, TypeAtoms(typeName), typeName + ")");
        CastText(QuoteText(text), typeName);
      case Vector(text, dimension) =>
        var d := Decimal.Digits(dimension);
        FineVector("VECTOR", dimension);
        FineCast("CAST", "AS", text, VectorAtoms("VECTOR", dimension), "VECTOR" + ("(" + (d + (")" + ")"))));
        VectorText(QuoteText(text), d);
      case Hex(digits) =>
        FineHex("FROM_HEX", digits);
        HexText(QuoteText(digits));
      case External(digits, path) =>
        FineExternal("CAST", "FROM_HEX", "AS", digits, path);
        ExternalText(QuoteText(digits), Dotted(path));
    }
  }

  // ---------------------------------------------------------------- lists of parts

  function JoinAtoms(parts: seq<seq<Atom>>): seq<Atom> {
    if parts == [] then []
    else if |parts| == 1 then parts[0]
    else JoinAtoms(parts[..|parts| - 1]) + (([Mark(',')] + [Blank]) + parts[|parts| - 1])
  }

  ghost predicate Spells(parts: seq<seq<Atom>>, texts: seq<string>) {
    |parts| == |texts| && forall i :: 0 <= i < |parts| ==> Fine(parts[i], texts[i])
  }

  lemma FineComma(part: seq<Atom>, text: string)
    requires Fine(part, text)
    ensures Fine(([Mark(',')] + [Blank]) + part, ", " + text) && (([Mark(',')] + [Blank]) + part)[0] == Mark(',')
  {
    FineAtom(Mark(','));
    FineAtom(Blank);
    FineAppend([Mark(',')], ",", [Blank], " ");
    FineAppend([Mark(',')] + [Blank], "," + " ", part, text);
    assert "," + " " == ", ";
  }

  lemma {:induction false} JoinSpells(parts: seq<seq<Atom>>, texts: seq<string>)
    requires Spells(parts, texts) && parts != []
    ensures Fine(JoinAtoms(parts), Join(texts)) && JoinAtoms(parts)[0] == parts[0][0]
    decreases |parts|
  {
    if |parts| > 1 {
      var n := |parts| - 1;
      JoinSpells(parts[..n], texts[..n]);
      JoinNext(JoinAtoms(parts[..n]), Join(texts[..n]), parts[n], texts[n]);
    }
  }

  lemma JoinNext(before: seq<Atom>, text: string, last: seq<Atom>, lastText: string)
    requires Fine(before, text) && Fine(last, lastText)
    ensures Fine(before + (([Mark(',')] + [Blank]) + last), text + ", " + lastText)
  {
    FineComma(last, lastText);
    FineEnd(before);
    FineAppend(before, text, ([Mark(',')] + [Blank]) + last, ", " + lastText);
    assert text + (", " + lastText) == text + ", " + lastText;
  }

  function ListAtoms(parts: seq<seq<Atom>>): seq<Atom> {
    if parts == [] then [Mark('(')] + [Mark(')')] else [Mark('(')] + (JoinAtoms(parts) + [Mark(')')])
  }

  /** A parenthesised list. */
  lemma ListSpells(parts: seq<seq<Atom>>, texts: seq<string>)
    requires Spells(parts, texts)
    ensures Fine(ListAtoms(parts), "(" + Join(texts) + ")")
    ensures ListAtoms(parts)[0] == Mark('(') && ListAtoms(parts)[|ListAtoms(parts)| - 1] == Mark(')')
  {
    FineAtom(Mark('('));
    FineAtom(Mark(')'));
    if parts == [] {
      FineAppend([Mark('(')], "(", [Mark(')')], ")");
      assert "(" + [] + ")" == "(" + ")";
    } else {
      JoinSpells(parts, texts);
      var inner := JoinAtoms(parts);
      FineEnd(inner);
      FineAppend(inner, Join(texts), [Mark(')')], ")");
      FineAppend([Mark('(')], "(", inner + [Mark(')')], Join(texts) + ")");
      assert "(" + (Join(texts) + ")") == "(" + Join(texts) + ")";
    }
  }

  // ---------------------------------------------------------------- rows and statements

  function RowAtoms(values: seq<Value>): seq<Atom> {
    ListAtoms(seq(|values|, i requires 0 <= i < |values| => ValueAtoms(values[i])))
  }

  function RowText(values: seq<Value>): string {
    "(" + Join(seq(|values|, i requires 0 <= i < |values| => RenderValue(values[i]))) + ")"
  }

  predicate GoodRow(values: seq<Value>) {
    forall i :: 0 <= i < |values| ==> GoodValue(values[i])
  }

  lemma RowSpells(values: seq<Value>)
    requires GoodRow(values)
    ensures Fine(RowAtoms(values), RowText(values)) && RowAtoms(values)[0] == Mark('(')
  {
    var parts := seq(|values|, i requires 0 <= i < |values| => ValueAtoms(values[i]));
    var texts := seq(|values|, i requires 0 <= i < |values| => RenderValue(values[i]));
    forall i | 0 <= i < |parts| ensures Fine(parts[i], texts[i]) {
      ValueSpells(values[i]);
    }
    ListSpells(parts, texts);
  }

  function ColumnText(columns: seq<string>): string {
    "(" + Join(seq(|columns|, i requires 0 <= i < |columns| => QuoteIdentifier(columns[i]))) + ")"
  }

  /** `INSERT INTO "table" ("column", ...) VALUES ` */
  function InsertPrefix(table: string, columns: seq<string>): string {
    "INSERT INTO " + QuoteIdentifier(table) + " " + ColumnText(columns) + " VALUES "
  }

  function ColumnAtoms(columns: seq<string>): seq<Atom> {
    ListAtoms(seq(|columns|, i requires 0 <= i < |columns| => [Name(columns[i])]))
  }

  function PrefixAtoms(insert: string, into: string, table: string, columns: seq<string>, values: string): seq<Atom> {
    [Word(insert)] + (SpacedAtoms(into) + ([Name(table)] + ([Blank] + (ColumnAtoms(columns) + SpacedAtoms(values)))))
  }

  predicate GoodNames(table: string, columns: seq<string>) {
    NoNul(table) && forall i :: 0 <= i < |columns| ==> NoNul(columns[i])
  }

  lemma ColumnsSpell(columns: seq<string>)
    requires forall i :: 0 <= i < |columns| ==> NoNul(columns[i])
    ensures Fine(ColumnAtoms(columns), ColumnText(columns))
    ensures ColumnAtoms(columns)[0] == Mark('(') && ColumnAtoms(columns)[|ColumnAtoms(columns)| - 1] == Mark(')')
  {
    var parts := seq(|columns|, i requires 0 <= i < |columns| => [Name(columns[i])]);
    var texts := seq(|columns|, i requires 0 <= i < |columns| => QuoteIdentifier(columns[i]));
    forall i | 0 <= i < |parts| ensures Fine(parts[i], texts[i]) {
      FineAtom(Name(columns[i]));
    }
    ListSpells(parts, texts);
  }

  lemma FinePrefix(insert: string, into: string, table: string, columns: seq<string>, values: string)
    requires GoodNames(table, columns) && GoodAtom(Word(insert)) && GoodAtom(Word(into)) && GoodAtom(Word(values))
    ensures var atoms := PrefixAtoms(insert, into, table, columns, values);
            && Fine(atoms, insert + (" " + (into + " ") + (QuoteIdentifier(table)
                                     + (" " + (ColumnText(columns) + (" " + (values + " ")))))))
            && atoms[0].Word? && atoms[|atoms| - 1].Blank?
  {
    var q, c, v := QuoteIdentifier(table), ColumnText(columns), " " + (values + " ");
    FineSpaced(values);
    FineSpaced(into);
    ColumnsSpell(columns);
    FineAtom(Blank);
    FineAtom(Name(table));
    FineAtom(Word(insert));
    var a := ColumnAtoms(columns) + SpacedAtoms(values);
    FineAppend(ColumnAtoms(columns), c, SpacedAtoms(values), v);
    FineAppend([Blank], " ", a, c + v);
    FineAppend([Name(table)], q, [Blank] + a, " " + (c + v));
    FineAppend(SpacedAtoms(into), " " + (into + " "), [Name(table)] + ([Blank] + a), q + (" " + (c + v)));
    FineAppend([Word(insert)], insert, SpacedAtoms(into) + ([Name(table)] + ([Blank] + a)),
               " " + (into + " ") + (q + (" " + (c + v))));
  }

  lemma PrefixText(q: string, c: string)
    ensures "INSERT" + (" " + ("INTO" + " ") + (q + (" " + (c + (" " + ("VALUES" + " ")))))) ==
            "INSERT INTO " + q + " " + c + " VALUES "
  {
  }

  ghost predicate Batches(batch: seq<string>, rows: seq<seq<Value>>) {
    |batch| == |rows| && forall i :: 0 <= i < |rows| ==> batch[i] == RowText(rows[i])
  }

  function InsertAtoms(table: string, columns: seq<string>, rows: seq<seq<Value>>): seq<Atom> {
    PrefixAtoms("INSERT", "INTO", table, columns, "VALUES")
    + JoinAtoms(seq(|rows|, i requires 0 <= i < |rows| => RowAtoms(rows[i])))
  }

  lemma InsertSpells(table: string, columns: seq<string>, rows: seq<seq<Value>>, batch: seq<string>)
    requires GoodNames(table, columns) && rows != [] && Batches(batch, rows)
    requires forall i :: 0 <= i < |rows| ==> GoodRow(rows[i])
    ensures Fine(InsertAtoms(table, columns, rows), InsertText(InsertPrefix(table, columns), batch))
    ensures InsertAtoms(table, columns, rows)[0].Word?
  {
    var parts := seq(|rows|, i requires 0 <= i < |rows| => RowAtoms(rows[i]));
    forall i | 0 <= i < |parts| ensures Fine(parts[i], batch[i]) && parts[i][0] == Mark('(') {
      RowSpells(rows[i]);
    }
    JoinSpells(parts, batch);
    Keywords();
    FinePrefix("INSERT", "INTO", table, columns, "VALUES");
    PrefixText(QuoteIdentifier(table), ColumnText(columns));
    FineAppend(PrefixAtoms("INSERT", "INTO", table, columns, "VALUES"), InsertPrefix(table, columns),
               JoinAtoms(parts), Join(batch));
  }

  /** An exported INSERT is a framed statement whatever its values contain, as long as each text
      value is lexically safe and within the literal limit. */
  lemma InsertIsFramed(u: Unicode, table: string, columns: seq<string>, rows: seq<seq<Value>>, batch: seq<string>)
    requires GoodNames(table, columns) && rows != [] && Batches(batch, rows)
    requires forall i :: 0 <= i < |rows| ==> GoodRow(rows[i])
    ensures Framed(u, InsertText(InsertPrefix(table, columns), batch) + ";\n")
  {
    InsertSpells(table, columns, rows, batch);
    RenderedStatementIsFramed(u, InsertAtoms(table, columns, rows));
  }
}
