/** Importing a dump line by line (src/sql_dump.rs:1038-1163).

The parser, the database, SHA-256 and the schema fingerprint are parameters; everything between
the bytes of the stream and the statements handed to the database is modelled.
*/
module DumpImport {
  import opened Common
  import opened SqlLexer
  import opened DumpStatement
  import opened DumpCounts
  import opened Utf8
  import opened DumpStream
  import DumpRows

  const LIMIT: nat := DumpRows.MAX_DUMP_STATEMENT_BYTES
  const FORMAT_TEXT: string := "-- radixdb-sql-dump: 1"
  const FORMAT_LINE: string := FORMAT_TEXT + "\n"
  const ENGINE_PREFIX: string := "-- source-engine-version: "
  const SCHEMA_PREFIX: string := "-- schema-fingerprint: "

  datatype Stats = Stats(tables: nat, rows: nat)

  /** `complete` and `empty` are `statement_complete` and `trim().is_empty()`, `validate` is
      `validate_import_statement`, `accepts` whether executing the next statement succeeds, `digest`
      SHA-256 in 64 hexadecimal digits, `schema` the resulting fingerprint. */
  datatype Engine = Engine(complete: string -> bool, empty: string -> bool, validate: string -> Option<Stats>,
                           accepts: (seq<string>, string) -> bool, digest: seq<Byte> -> string,
                           schema: seq<string> -> string)

  /** The engine lexes as the SQL lexer does. */
  ghost predicate UsesLexer(e: Engine, u: Unicode) {
    && (forall s :: e.complete(s) == IsComplete(u, s))
    && (forall s :: e.empty(s) == Empty(u, s))
  }

  /** `Framed`, in the engine's terms. */
  ghost predicate Frames(e: Engine, statement: string) {
    && statement != [] && statement[|statement| - 1] == '\n'
    && e.complete(statement) && !TrailerLike(statement)
    && forall n :: 0 < n < |statement| && statement[n - 1] == '\n' ==>
         !e.complete(statement[..n]) && !e.empty(statement[..n])
  }

  lemma FramedFrames(e: Engine, u: Unicode, statement: string)
    requires UsesLexer(e, u) && Framed(u, statement)
    ensures Frames(e, statement)
  {
  }

  /** The import loop's variables. */
  datatype State = State(statement: string, executed: seq<string>, tables: nat, rows: nat,
                         counts: Option<Counts>, digested: seq<Byte>)

  datatype Fed = Continue(state: State) | Footer(state: State, digest: string) | Failed

  predicate HexDigit(c: char) {
    Digit(c) || 'a' <= c <= 'f' || 'A' <= c <= 'F'
  }

  predicate HexText(s: string) {
    |s| == 64 && forall i :: 0 <= i < |s| ==> HexDigit(s[i])
  }

  function LowerHex(s: string): string {
    seq(|s|, i requires 0 <= i < |s| => if 'A' <= s[i] <= 'F' then s[i] - 'A' + 'a' else s[i])
  }

  /** The text between a prefix and the final line feed. */
  function Between(prefix: string, line: string): Option<string> {
    if prefix <= line && |line| > |prefix| && line[|line| - 1] == '\n' then Some(line[|prefix|..|line| - 1])
    else None
  }

  function ReadFooter(line: string): Option<string> {
    match Between(FOOTER_PREFIX, line)
    case None => None
    case Some(text) => if HexText(text) then Some(LowerHex(text)) else None
  }

  function Execute(e: Engine, st: State): Fed {
    if st.counts.Some? then Failed
    else
      match e.validate(st.statement)
      case None => Failed
      case Some(stats) =>
        if !e.accepts(st.executed, st.statement) then Failed
        else Continue(st.(statement := [], executed := st.executed + [st.statement],
                          tables := st.tables + stats.tables, rows := st.rows + stats.rows))
  }

  /** One round of the loop: the raw line is hashed, its text is looked at. */
  function Feed(e: Engine, st: State, raw: seq<Byte>, line: string): Fed {
    if ByteLength(line) > LIMIT then Failed
    else if e.empty(st.statement) && COUNTS_PREFIX <= line then
      if st.counts.Some? then Failed
      else match ParseCounts(line)
           case None => Failed
           case Some(c) => Continue(st.(counts := Some(c), digested := st.digested + raw))
    else if e.empty(st.statement) && FOOTER_PREFIX <= line then
      match ReadFooter(line)
      case None => Failed
      case Some(digest) => Footer(st, digest)
    else Append(e, st, raw, line)
  }

  function Append(e: Engine, st: State, raw: seq<Byte>, line: string): Fed {
    var more := st.(statement := st.statement + line, digested := st.digested + raw);
    if ByteLength(more.statement) > LIMIT then Failed
    else if e.complete(more.statement) then Execute(e, more)
    else Continue(more)
  }

  /** The import loop over raw lines; the footer must be the last one. */
  function ByteRounds(f: (State, seq<Byte>, string) -> Fed, st: State, lines: seq<seq<Byte>>): Fed
    decreases |lines|
  {
    if lines == [] then Failed
    else
      match Decode(lines[0])
      case None => Failed
      case Some(text) =>
        match f(st, lines[0], text)
        case Failed => Failed
        case Footer(last, digest) => if lines[1..] == [] then Footer(last, digest) else Failed
        case Continue(next) => ByteRounds(f, next, lines[1..])
  }

  function RawFeeder(e: Engine): (State, seq<Byte>, string) -> Fed {
    (st, raw, line) => Feed(e, st, raw, line)
  }

  /** The same loop over lines given as texts. */
  function Rounds(f: (State, string) -> Fed, st: State, lines: seq<string>): Fed
    decreases |lines|
  {
    if lines == [] then Failed
    else
      match f(st, lines[0])
      case Failed => Failed
      case Footer(last, digest) => if lines[1..] == [] then Footer(last, digest) else Failed
      case Continue(next) => Rounds(f, next, lines[1..])
  }

  function Feeder(e: Engine): (State, string) -> Fed {
    (st, line) => Feed(e, st, Encode(line), line)
  }

  datatype Outcome = Imported(executed: seq<string>, counts: Counts, digest: string) | Rejected

  function Conclude(e: Engine, fed: Fed, schema: string): Outcome {
    match fed
    case Footer(st, digest) =>
      var counts := Counts(st.tables, st.rows, |st.executed|);
      if e.digest(st.digested) == digest && st.counts == Some(counts) && e.schema(st.executed) == schema
      then Imported(st.executed, counts, digest) else Rejected
    case _ => Rejected
  }

  function ReadSchema(line: string): Option<string> {
    match Between(SCHEMA_PREFIX, line)
    case None => None
    case Some(text) => if HexText(LowerHex(text)) then Some(LowerHex(text)) else None
  }

  predicate HeaderLine(line: string) {
    ENGINE_PREFIX <= line && line[|line| - 1] == '\n'
  }

  function Start(header: seq<Byte>): State {
    State([], [], 0, 0, None, header)
  }

  /** The three header lines, if they are well formed; the schema fingerprint if so. */
  function CheckHeader(first: string, second: string, third: string): Option<string> {
    if first == FORMAT_LINE && HeaderLine(second) && ByteLength(second) <= LIMIT && ByteLength(third) <= LIMIT
    then ReadSchema(third) else None
  }

  /** `import_sql_dump` on the bytes of a dump. */
  function ImportBytes(e: Engine, bytes: seq<Byte>): Outcome {
    var lines := Lines(bytes);
    if |lines| < 3 then Rejected
    else
      match (Decode(lines[0]), Decode(lines[1]), Decode(lines[2]))
      case (Some(a), Some(b), Some(c)) =>
        (match CheckHeader(a, b, c)
         case None => Rejected
         case Some(schema) =>
           Conclude(e, ByteRounds(RawFeeder(e), Start(lines[0] + lines[1] + lines[2]), lines[3..]), schema))
      case _ => Rejected
  }

  /** The same on the lines of a dump given as texts. */
  function ImportLines(e: Engine, lines: seq<string>): Outcome {
    if |lines| < 3 || lines[0] != FORMAT_LINE || !HeaderLine(lines[1])
       || ByteLength(lines[1]) > LIMIT || ByteLength(lines[2]) > LIMIT then Rejected
    else
      match ReadSchema(lines[2])
      case None => Rejected
      case Some(schema) =>
        Conclude(e, Rounds(Feeder(e), Start(Encode(lines[0] + lines[1] + lines[2])), lines[3..]), schema)
  }

  // ---------------------------------------------------------------- splitting text into lines

  lemma {:induction false} FirstTextLineOf(a: string, b: string)
    requires a != [] && a[|a| - 1] == '\n'
    ensures FirstTextLine(a + b) == FirstTextLine(a)
    ensures FirstTextLine(a)[|FirstTextLine(a)| - 1] == '\n'
    decreases |a|
  {
    assert (a + b)[0] == a[0] && (a + b)[1..] == a[1..] + b;
    if a[0] != '\n' {
      assert a[1..][|a[1..]| - 1] == '\n';
      FirstTextLineOf(a[1..], b);
    }
  }

  lemma TextLinesStep(s: string, line: string, rest: string)
    requires s != [] && line == FirstTextLine(s) && s == line + rest
    ensures TextLines(s) == [line] + TextLines(rest)
  {
    assert s[|line|..] == rest;
  }

  lemma SplitFirstLine(a: string, b: string) returns (line: string, rest: string)
    requires a != [] && a[|a| - 1] == '\n'
    ensures line == FirstTextLine(a) == FirstTextLine(a + b) && line != []
    ensures a == line + rest && a + b == line + (rest + b) && (rest == [] || rest[|rest| - 1] == '\n')
  {
    FirstTextLineOf(a, b);
    line := FirstTextLine(a);
    rest := a[|line|..];
  }

  lemma {:induction false} LinesConcat(a: string, b: string)
    requires a == [] || a[|a| - 1] == '\n'
    ensures TextLines(a + b) == TextLines(a) + TextLines(b)
    decreases |a|
  {
    if a == [] {
      assert a + b == b;
    } else {
      var line, rest := SplitFirstLine(a, b);
      LinesConcat(rest, b);
      LinesRegroup(a, a + b, line, rest, rest + b, TextLines(b));
    }
  }

  lemma LinesRegroup(s: string, t: string, line: string, rest: string, tail: string, more: seq<string>)
    requires s != [] && t != [] && line == FirstTextLine(s) == FirstTextLine(t) && s == line + rest && t == line + tail
    requires TextLines(tail) == TextLines(rest) + more
    ensures TextLines(t) == TextLines(s) + more
  {
    TextLinesStep(s, line, rest);
    TextLinesStep(t, line, tail);
    Prepend(line, TextLines(rest), more);
  }

  lemma Prepend(line: string, lines: seq<string>, more: seq<string>)
    ensures [line] + (lines + more) == [line] + lines + more
  {
  }

  lemma {:induction false} OneLine(a: string)
    requires a != [] && a[|a| - 1] == '\n' && '\n' !in a[..|a| - 1]
    ensures FirstTextLine(a) == a && TextLines(a) == [a]
    decreases |a|
  {
    if |a| > 1 {
      assert a[0] == a[..|a| - 1][0] && a[0] in a[..|a| - 1];
      assert a[1..][..|a[1..]| - 1] == a[..|a| - 1][1..];
      OneLine(a[1..]);
      assert a == [a[0]] + a[1..];
    }
    assert FirstTextLine(a) == a;
    assert a[|a|..] == [];
  }

  // ---------------------------------------------------------------- one framed statement

  /** The statement is taken, executed and counted. */
  predicate Accepted(e: Engine, st: State, statement: string) {
    && st.counts.None? && ByteLength(statement) <= LIMIT
    && e.validate(statement).Some? && e.accepts(st.executed, statement)
  }

  function After(e: Engine, st: State, statement: string): State
    requires e.validate(statement).Some?
  {
    var stats := e.validate(statement).value;
    st.(statement := [], executed := st.executed + [statement], tables := st.tables + stats.tables,
        rows := st.rows + stats.rows, digested := st.digested + Encode(statement))
  }

  lemma ByteLengthPrefix(s: string, n: nat)
    requires n <= |s|
    ensures ByteLength(s[..n]) <= ByteLength(s)
  {
    assert s == s[..n] + s[n..];
    DumpRows.ByteLengthOfConcat(s[..n], s[n..]);
  }

  /** Where the buffer holds the first `n` characters of a framed statement. */
  function Partway(st: State, statement: string, n: nat): State
    requires n <= |statement|
  {
    st.(statement := statement[..n], digested := st.digested + Encode(statement[..n]))
  }

  /** Characters `n` to `m` are the line that starts at `n`. */
  ghost predicate LineAt(s: string, n: nat, m: nat) {
    n < m <= |s| && (n > 0 ==> s[n - 1] == '\n') && s[n..m] == FirstTextLine(s[n..])
  }

  lemma NextLine(s: string, n: nat) returns (m: nat)
    requires n < |s| && s[|s| - 1] == '\n' && (n > 0 ==> s[n - 1] == '\n')
    ensures LineAt(s, n, m) && s[m - 1] == '\n' && s[n..] == s[n..m] + s[m..]
  {
    var line := FirstTextLine(s[n..]);
    m := n + |line|;
    FirstTextLineOf(s[n..], []);
    assert s[n..] + [] == s[n..];
    assert line == s[n..m] && s[m - 1] == line[|line| - 1];
  }

  lemma LineLength(s: string, n: nat, m: nat)
    requires n <= m <= |s|
    ensures ByteLength(s[..m]) <= ByteLength(s) && ByteLength(s[n..m]) <= ByteLength(s)
  {
    ByteLengthPrefix(s, m);
    assert s[..m] == s[..n] + s[n..m];
    DumpRows.ByteLengthOfConcat(s[..n], s[n..m]);
  }

  /** Each line of the statement is buffered, except that the last one leads to `done`. */
  ghost predicate Absorbs(f: (State, string) -> Fed, st: State, statement: string, done: State) {
    forall n: nat, m: nat :: LineAt(statement, n, m) && statement[m - 1] == '\n' ==>
      f(Partway(st, statement, n), statement[n..m]) ==
        Continue(if m < |statement| then Partway(st, statement, m) else done)
  }

  lemma FirstRound(f: (State, string) -> Fed, st: State, text: string, line: string, rest: string, lines: seq<string>)
    requires text != [] && line == FirstTextLine(text) && text == line + rest && f(st, line).Continue?
    ensures Rounds(f, st, TextLines(text) + lines) == Rounds(f, f(st, line).state, TextLines(rest) + lines)
  {
    TextLinesStep(text, line, rest);
    var all := TextLines(text) + lines;
    assert all[0] == line && all[1..] == TextLines(rest) + lines;
  }

  lemma {:induction false} RoundsOfStatement(f: (State, string) -> Fed, st: State, statement: string, done: State,
                                             n: nat, lines: seq<string>)
    requires statement != [] && statement[|statement| - 1] == '\n' && Absorbs(f, st, statement, done)
    requires n < |statement| && (n > 0 ==> statement[n - 1] == '\n')
    ensures Rounds(f, Partway(st, statement, n), TextLines(statement[n..]) + lines) == Rounds(f, done, lines)
    decreases |statement| - n
  {
    var m := NextLine(statement, n);
    assert f(Partway(st, statement, n), statement[n..m]) ==
             Continue(if m < |statement| then Partway(st, statement, m) else done);
    FirstRound(f, Partway(st, statement, n), statement[n..], statement[n..m], statement[m..], lines);
    if m < |statement| {
      RoundsOfStatement(f, st, statement, done, m, lines);
    } else {
      assert statement[m..] == [] && TextLines([]) + lines == lines;
    }
  }

  lemma NoTrailer(e: Engine, statement: string, n: nat, line: string)
    requires Frames(e, statement) && n < |statement| && (n > 0 ==> statement[n - 1] == '\n')
    requires line <= statement[n..]
    ensures !(e.empty(statement[..n]) && (COUNTS_PREFIX <= line || FOOTER_PREFIX <= line))
  {
    if n == 0 {
      assert statement[n..] == statement;
      assert COUNTS_PREFIX <= line ==> COUNTS_PREFIX <= statement;
      assert FOOTER_PREFIX <= line ==> FOOTER_PREFIX <= statement;
    }
  }

  lemma FeedAppends(e: Engine, st: State, line: string)
    requires !(e.empty(st.statement) && (COUNTS_PREFIX <= line || FOOTER_PREFIX <= line)) && ByteLength(line) <= LIMIT
    ensures Feeder(e)(st, line) == Append(e, st, Encode(line), line)
  {
  }

  /** The buffer and the digest hold `text` so far. */
  function Buffered(st: State, text: string): State {
    st.(statement := text, digested := st.digested + Encode(text))
  }

  lemma AppendInner(e: Engine, st: State, text: string, line: string)
    requires !e.complete(text + line) && ByteLength(text + line) <= LIMIT
    ensures Append(e, Buffered(st, text), Encode(line), line) == Continue(Buffered(st, text + line))
  {
    HashedInTurn(st.digested, text, line);
  }

  lemma AppendLast(e: Engine, st: State, text: string, line: string)
    requires e.complete(text + line) && Accepted(e, st, text + line) && st.statement == []
    ensures Append(e, Buffered(st, text), Encode(line), line) == Continue(After(e, st, text + line))
  {
    HashedInTurn(st.digested, text, line);
  }

  lemma AppendLine(e: Engine, st: State, statement: string, n: nat, m: nat)
    requires Frames(e, statement) && Accepted(e, st, statement) && st.statement == []
    requires n < m <= |statement| && statement[m - 1] == '\n' && ByteLength(statement[..m]) <= LIMIT
    ensures Append(e, Partway(st, statement, n), Encode(statement[n..m]), statement[n..m]) ==
              Continue(if m < |statement| then Partway(st, statement, m) else After(e, st, statement))
  {
    assert statement[..n] + statement[n..m] == statement[..m];
    assert Partway(st, statement, n) == Buffered(st, statement[..n]);
    if m < |statement| {
      AppendInner(e, st, statement[..n], statement[n..m]);
    } else {
      assert statement[..m] == statement;
      AppendLast(e, st, statement[..n], statement[n..m]);
    }
  }

  /** The import loop absorbs a framed statement and executes it after its last line. */
  lemma EngineAbsorbs(e: Engine, st: State, statement: string)
    requires Frames(e, statement) && Accepted(e, st, statement) && st.statement == []
    ensures Absorbs(Feeder(e), st, statement, After(e, st, statement))
  {
    forall n: nat, m: nat | LineAt(statement, n, m) && statement[m - 1] == '\n'
      ensures Feeder(e)(Partway(st, statement, n), statement[n..m]) ==
                Continue(if m < |statement| then Partway(st, statement, m) else After(e, st, statement))
    {
      EngineLine(e, st, statement, n, m);
    }
  }

  lemma EngineLine(e: Engine, st: State, statement: string, n: nat, m: nat)
    requires Frames(e, statement) && Accepted(e, st, statement) && st.statement == []
    requires LineAt(statement, n, m) && statement[m - 1] == '\n'
    ensures Feeder(e)(Partway(st, statement, n), statement[n..m]) ==
              Continue(if m < |statement| then Partway(st, statement, m) else After(e, st, statement))
  {
    assert statement[n..m] <= statement[n..];
    LineLength(statement, n, m);
    NoTrailer(e, statement, n, statement[n..m]);
    FeedAppends(e, Partway(st, statement, n), statement[n..m]);
    AppendLine(e, st, statement, n, m);
  }

  // ---------------------------------------------------------------- all statements

  function Concat(statements: seq<string>): string {
    if statements == [] then [] else statements[0] + Concat(statements[1..])
  }

  /** Every statement in turn is framed, valid and executable. */
  ghost predicate AllAccepted(e: Engine, st: State, statements: seq<string>)
    decreases |statements|
  {
    statements == [] ||
    (Frames(e, statements[0]) && Accepted(e, st, statements[0])
     && AllAccepted(e, After(e, st, statements[0]), statements[1..]))
  }

  ghost function AfterAll(e: Engine, st: State, statements: seq<string>): State
    requires AllAccepted(e, st, statements)
    decreases |statements|
  {
    if statements == [] then st else AfterAll(e, After(e, st, statements[0]), statements[1..])
  }

  lemma HashedInTurn(digested: seq<Byte>, a: string, b: string)
    ensures digested + Encode(a) + Encode(b) == digested + Encode(a + b)
  {
    EncodeConcat(a, b);
  }

  lemma ListedInTurn(executed: seq<string>, statements: seq<string>)
    requires statements != []
    ensures executed + [statements[0]] + statements[1..] == executed + statements
  {
  }

  lemma {:induction false} AfterAllIsExact(e: Engine, st: State, statements: seq<string>)
    requires AllAccepted(e, st, statements) && st.statement == []
    ensures var u := AfterAll(e, st, statements);
            && u.statement == [] && u.executed == st.executed + statements && u.counts == st.counts
            && u.digested == st.digested + Encode(Concat(statements))
    decreases |statements|
  {
    if statements != [] {
      AfterAllIsExact(e, After(e, st, statements[0]), statements[1..]);
      HashedInTurn(st.digested, statements[0], Concat(statements[1..]));
      ListedInTurn(st.executed, statements);
    }
  }

  lemma RoundsOfWhole(e: Engine, st: State, statement: string, lines: seq<string>)
    requires Frames(e, statement) && Accepted(e, st, statement) && st.statement == []
    ensures Rounds(Feeder(e), st, TextLines(statement) + lines) == Rounds(Feeder(e), After(e, st, statement), lines)
  {
    assert statement[0..] == statement && statement[..0] == [];
    assert Partway(st, statement, 0) == st;
    EngineAbsorbs(e, st, statement);
    RoundsOfStatement(Feeder(e), st, statement, After(e, st, statement), 0, lines);
  }

  lemma FirstStatementFirst(statements: seq<string>, lines: seq<string>)
    requires statements != [] && statements[0] != [] && statements[0][|statements[0]| - 1] == '\n'
    ensures TextLines(Concat(statements)) + lines ==
              TextLines(statements[0]) + (TextLines(Concat(statements[1..])) + lines)
  {
    LinesConcat(statements[0], Concat(statements[1..]));
  }

  lemma {:induction false} RoundsOfStatements(e: Engine, st: State, statements: seq<string>, lines: seq<string>)
    requires AllAccepted(e, st, statements) && st.statement == []
    ensures Rounds(Feeder(e), st, TextLines(Concat(statements)) + lines) ==
            Rounds(Feeder(e), AfterAll(e, st, statements), lines)
    decreases |statements|
  {
    if statements == [] {
      assert TextLines(Concat(statements)) + lines == lines;
    } else {
      var s := statements[0];
      var tail := TextLines(Concat(statements[1..])) + lines;
      FirstStatementFirst(statements, lines);
      RoundsOfWhole(e, st, s, tail);
      RoundsOfStatements(e, After(e, st, s), statements[1..], lines);
    }
  }

  // ---------------------------------------------------------------- the statement budget

  /** The database takes the statements one after the other; nothing is said of lines or sizes. */
  ghost predicate Executable(e: Engine, st: State, statements: seq<string>)
    decreases |statements|
  {
    statements == [] ||
    (st.counts.None? && e.validate(statements[0]).Some? && e.accepts(st.executed, statements[0])
     && Executable(e, After(e, st, statements[0]), statements[1..]))
  }

  ghost predicate AllFrame(e: Engine, statements: seq<string>) {
    forall i :: 0 <= i < |statements| ==> Frames(e, statements[i])
  }

  predicate AllFit(statements: seq<string>) {
    forall i :: 0 <= i < |statements| ==> ByteLength(statements[i]) <= LIMIT
  }

  /** What acceptance of framed statements comes to: each fits the budget and the database takes each. */
  lemma {:induction false} AcceptedExactly(e: Engine, st: State, statements: seq<string>)
    requires AllFrame(e, statements)
    ensures AllAccepted(e, st, statements) <==> AllFit(statements) && Executable(e, st, statements)
    decreases |statements|
  {
    if statements != [] && e.validate(statements[0]).Some? {
      AcceptedExactly(e, After(e, st, statements[0]), statements[1..]);
      assert AllFit(statements) <==> ByteLength(statements[0]) <= LIMIT && AllFit(statements[1..]) by {
        assert forall i :: 0 < i < |statements| ==> statements[i] == statements[1..][i - 1];
      }
    }
  }

  /** A statement over the budget fails at the line that crosses it. */
  ghost predicate Overflows(f: (State, string) -> Fed, st: State, statement: string) {
    forall n: nat, m: nat :: LineAt(statement, n, m) && statement[m - 1] == '\n' ==>
      var fed := f(Partway(st, statement, n), statement[n..m]);
      fed.Failed? || (m < |statement| && fed == Continue(Partway(st, statement, m)))
  }

  lemma {:induction false} OverflowFails(f: (State, string) -> Fed, st: State, statement: string, n: nat,
                                         lines: seq<string>)
    requires statement != [] && statement[|statement| - 1] == '\n' && Overflows(f, st, statement)
    requires n < |statement| && (n > 0 ==> statement[n - 1] == '\n')
    ensures Rounds(f, Partway(st, statement, n), TextLines(statement[n..]) + lines).Failed?
    decreases |statement| - n
  {
    var m := NextLine(statement, n);
    var fed := f(Partway(st, statement, n), statement[n..m]);
    if fed.Failed? {
      FirstRoundFails(f, Partway(st, statement, n), statement[n..], statement[n..m], statement[m..], lines);
    } else {
      FirstRound(f, Partway(st, statement, n), statement[n..], statement[n..m], statement[m..], lines);
      OverflowFails(f, st, statement, m, lines);
    }
  }

  lemma FirstRoundFails(f: (State, string) -> Fed, st: State, text: string, line: string, rest: string,
                        lines: seq<string>)
    requires text != [] && line == FirstTextLine(text) && text == line + rest && f(st, line).Failed?
    ensures Rounds(f, st, TextLines(text) + lines).Failed?
  {
    TextLinesStep(text, line, rest);
    assert (TextLines(text) + lines)[0] == line;
  }

  lemma FeedsOrFails(e: Engine, st: State, text: string, line: string)
    requires !(e.empty(text) && (COUNTS_PREFIX <= line || FOOTER_PREFIX <= line))
    requires ByteLength(text + line) <= LIMIT ==> !e.complete(text + line)
    ensures var fed := Feeder(e)(Buffered(st, text), line);
            fed.Failed? || (ByteLength(text + line) <= LIMIT && fed == Continue(Buffered(st, text + line)))
  {
    if ByteLength(line) > LIMIT {
      LongLineFails(e, Buffered(st, text), line);
    } else {
      FeedAppends(e, Buffered(st, text), line);
      if ByteLength(text + line) > LIMIT {
        LongBufferFails(e, Buffered(st, text), line);
      } else {
        AppendInner(e, st, text, line);
      }
    }
  }

  /** `FeedsOrFails` of a loop that asks `e` when a statement is complete or empty. */
  ghost predicate Limited(f: (State, string) -> Fed, e: Engine) {
    forall st: State, text: string, line: string ::
      !(e.empty(text) && (COUNTS_PREFIX <= line || FOOTER_PREFIX <= line))
      && (ByteLength(text + line) <= LIMIT ==> !e.complete(text + line)) ==>
        FailsOrBuffers(f(Buffered(st, text), line), st, text + line)
  }

  predicate FailsOrBuffers(fed: Fed, st: State, text: string) {
    fed.Failed? || (ByteLength(text) <= LIMIT && fed == Continue(Buffered(st, text)))
  }

  lemma EngineIsLimited(e: Engine)
    ensures Limited(Feeder(e), e)
  {
    forall st: State, text: string, line: string |
      !(e.empty(text) && (COUNTS_PREFIX <= line || FOOTER_PREFIX <= line))
      && (ByteLength(text + line) <= LIMIT ==> !e.complete(text + line))
      ensures FailsOrBuffers(Feeder(e)(Buffered(st, text), line), st, text + line)
    {
      FeedsOrFails(e, st, text, line);
    }
  }

  lemma BigLine(f: (State, string) -> Fed, e: Engine, st: State, statement: string, n: nat, m: nat)
    requires Limited(f, e) && Frames(e, statement) && ByteLength(statement) > LIMIT
    requires LineAt(statement, n, m) && statement[m - 1] == '\n'
    ensures var fed := f(Partway(st, statement, n), statement[n..m]);
            fed.Failed? || (m < |statement| && fed == Continue(Partway(st, statement, m)))
  {
    var line := statement[n..m];
    LinePieces(statement, n, m);
    NoTrailer(e, statement, n, line);
    assert FailsOrBuffers(f(Buffered(st, statement[..n]), line), st, statement[..n] + line);
  }

  lemma LongLineFails(e: Engine, st: State, line: string)
    requires ByteLength(line) > LIMIT
    ensures Feeder(e)(st, line).Failed?
  {
  }

  lemma LongBufferFails(e: Engine, st: State, line: string)
    requires ByteLength(st.statement + line) > LIMIT
    ensures Append(e, st, Encode(line), line).Failed?
  {
  }

  lemma BigOverflows(e: Engine, st: State, statement: string)
    requires Frames(e, statement) && ByteLength(statement) > LIMIT && st.statement == []
    ensures Overflows(Feeder(e), st, statement)
  {
    EngineIsLimited(e);
    forall n: nat, m: nat | LineAt(statement, n, m) && statement[m - 1] == '\n'
      ensures var fed := Feeder(e)(Partway(st, statement, n), statement[n..m]);
              fed.Failed? || (m < |statement| && fed == Continue(Partway(st, statement, m)))
    {
      BigLine(Feeder(e), e, st, statement, n, m);
    }
  }

  /** A framed statement within the budget that the database does not take fails at its last line. */
  lemma RefusedLine(e: Engine, st: State, statement: string, n: nat, m: nat)
    requires Frames(e, statement) && ByteLength(statement) <= LIMIT && !Accepted(e, st, statement)
    requires st.statement == [] && LineAt(statement, n, m) && statement[m - 1] == '\n'
    ensures var fed := Feeder(e)(Partway(st, statement, n), statement[n..m]);
            fed.Failed? || (m < |statement| && fed == Continue(Partway(st, statement, m)))
  {
    LinePieces(statement, n, m);
    LineLength(statement, n, m);
    NoTrailer(e, statement, n, statement[n..m]);
    RefusedPiece(e, st, statement, statement[..n], statement[n..m], m == |statement|);
  }

  lemma RefusedPiece(e: Engine, st: State, statement: string, text: string, line: string, last: bool)
    requires !(e.empty(text) && (COUNTS_PREFIX <= line || FOOTER_PREFIX <= line)) && ByteLength(line) <= LIMIT
    requires !Accepted(e, st, statement) && ByteLength(text + line) <= LIMIT
    requires if last then text + line == statement && e.complete(statement) else !e.complete(text + line)
    ensures var fed := Feeder(e)(Buffered(st, text), line);
            if last then fed.Failed? else fed == Continue(Buffered(st, text + line))
  {
    FeedAppends(e, Buffered(st, text), line);
    if last {
      AppendRefused(e, st, text, line);
    } else {
      AppendInner(e, st, text, line);
    }
  }

  lemma LinePieces(s: string, n: nat, m: nat)
    requires n <= m <= |s|
    ensures s[..n] + s[n..m] == s[..m] && s[n..m] <= s[n..] && (m == |s| ==> s[..m] == s)
  {
  }

  lemma AppendRefused(e: Engine, st: State, text: string, line: string)
    requires e.complete(text + line) && ByteLength(text + line) <= LIMIT && !Accepted(e, st, text + line)
    ensures Append(e, Buffered(st, text), Encode(line), line).Failed?
  {
  }

  lemma RefusedOverflows(e: Engine, st: State, statement: string)
    requires Frames(e, statement) && !Accepted(e, st, statement) && st.statement == []
    ensures Overflows(Feeder(e), st, statement)
  {
    if ByteLength(statement) > LIMIT {
      BigOverflows(e, st, statement);
    } else {
      forall n: nat, m: nat | LineAt(statement, n, m) && statement[m - 1] == '\n'
        ensures var fed := Feeder(e)(Partway(st, statement, n), statement[n..m]);
                fed.Failed? || (m < |statement| && fed == Continue(Partway(st, statement, m)))
      {
        RefusedLine(e, st, statement, n, m);
      }
    }
  }

  lemma RefusedStatementFails(e: Engine, st: State, statement: string, lines: seq<string>)
    requires Frames(e, statement) && !Accepted(e, st, statement) && st.statement == []
    ensures Rounds(Feeder(e), st, TextLines(statement) + lines).Failed?
  {
    RefusedOverflows(e, st, statement);
    assert statement[0..] == statement && statement[..0] == [];
    assert Partway(st, statement, 0) == st;
    OverflowFails(Feeder(e), st, statement, 0, lines);
  }

  /** One framed statement anywhere that is over the budget or that the database does not take makes
      the whole import fail, whatever follows. */
  lemma {:induction false} OneRefusedFails(e: Engine, st: State, statements: seq<string>, lines: seq<string>)
    requires AllFrame(e, statements) && !AllAccepted(e, st, statements) && st.statement == []
    ensures Rounds(Feeder(e), st, TextLines(Concat(statements)) + lines).Failed?
    decreases |statements|
  {
    var s := statements[0];
    var tail := TextLines(Concat(statements[1..])) + lines;
    FirstStatementFirst(statements, lines);
    if !Accepted(e, st, s) {
      RefusedStatementFails(e, st, s, tail);
    } else {
      RoundsOfWhole(e, st, s, tail);
      OneRefusedFails(e, After(e, st, s), statements[1..], lines);
    }
  }
}
