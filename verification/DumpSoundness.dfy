/** What a successful import has seen and done, line by line (src/sql_dump.rs:1038-1163). */
module DumpSoundness {
  import opened Common
  import opened SqlLexer
  import opened DumpStatement
  import opened DumpCounts
  import opened Utf8
  import opened DumpStream
  import opened DumpImport
  import DumpRoundTrip

  // ---------------------------------------------------------------- what the loop keeps

  /** Statement `k` was complete, within the budget, valid and accepted after those before it. */
  predicate TakenInTurn(e: Engine, executed: seq<string>, k: nat)
    requires k < |executed|
  {
    && e.complete(executed[k]) && ByteLength(executed[k]) <= LIMIT
    && e.validate(executed[k]).Some? && e.accepts(executed[..k], executed[k])
  }

  ghost predicate AllTaken(e: Engine, executed: seq<string>) {
    forall k :: 0 <= k < |executed| ==> TakenInTurn(e, executed, k)
  }

  /** The tables and rows that the statements report, added up. */
  function Totals(e: Engine, executed: seq<string>): Stats {
    if executed == [] then Stats(0, 0)
    else
      var n := |executed| - 1;
      var before, last := Totals(e, executed[..n]), e.validate(executed[n]);
      if last.None? then before else Stats(before.tables + last.value.tables, before.rows + last.value.rows)
  }

  /** The text so far is the executed statements, what is buffered, and at most one counts line. */
  ghost predicate Consumed(e: Engine, st: State, text: string) {
    && AllTaken(e, st.executed) && Totals(e, st.executed) == Stats(st.tables, st.rows)
    && (st.counts.None? ==> text == Concat(st.executed) + st.statement)
    && (st.counts.Some? ==> exists a, line, b :: Trailed(e, st, text, a, line, b))
  }

  predicate Trailed(e: Engine, st: State, text: string, a: string, line: string, b: string) {
    && text == Concat(st.executed) + a + line + b && st.statement == a + b && e.empty(a)
    && COUNTS_PREFIX <= line && ParseCounts(line) == st.counts
  }

  lemma {:induction false} ConcatSnoc(a: seq<string>, b: string)
    ensures Concat(a + [b]) == Concat(a) + b
    decreases |a|
  {
    if a == [] {
      assert [b][1..] == [] && a + [b] == [b];
    } else {
      assert (a + [b])[1..] == a[1..] + [b];
      ConcatSnoc(a[1..], b);
    }
  }

  lemma TakenMore(e: Engine, executed: seq<string>, s: string)
    requires AllTaken(e, executed) && e.complete(s) && ByteLength(s) <= LIMIT && e.validate(s).Some?
    requires e.accepts(executed, s)
    ensures AllTaken(e, executed + [s])
  {
    forall k | 0 <= k < |executed + [s]| ensures TakenInTurn(e, executed + [s], k) {
      if k < |executed| {
        assert TakenInTurn(e, executed, k) && (executed + [s])[..k] == executed[..k];
      } else {
        assert (executed + [s])[..k] == executed;
      }
    }
  }

  lemma CountsLineKeeps(e: Engine, st: State, line: string, text: string, u: State)
    requires Consumed(e, st, text) && st.counts.None? && e.empty(st.statement) && COUNTS_PREFIX <= line
    requires ParseCounts(line).Some? && u.counts == ParseCounts(line) && u.executed == st.executed
    requires u.statement == st.statement && u.tables == st.tables && u.rows == st.rows
    ensures Consumed(e, u, text + line)
  {
    assert st.statement + [] == st.statement;
    assert text + line == Concat(st.executed) + st.statement + line + [];
    assert Trailed(e, u, text + line, st.statement, line, []);
  }

  lemma BufferKeeps(e: Engine, st: State, line: string, text: string, u: State)
    requires Consumed(e, st, text) && u.statement == st.statement + line
    requires u.executed == st.executed && u.counts == st.counts && u.tables == st.tables && u.rows == st.rows
    ensures Consumed(e, u, text + line)
  {
    if st.counts.Some? {
      var a, c, b :| Trailed(e, st, text, a, c, b);
      Regroup(Concat(st.executed) + a + c, b, line);
      Regroup(a, b, line);
      assert Trailed(e, u, text + line, a, c, b + line);
    } else {
      Regroup(Concat(st.executed), st.statement, line);
    }
  }

  lemma Regroup(a: string, b: string, c: string)
    ensures a + b + c == a + (b + c)
  {
  }

  lemma ExecuteKeeps(e: Engine, st: State, line: string, text: string, u: State)
    requires Consumed(e, st, text) && st.counts.None? && u.counts.None?
    requires var s := st.statement + line;
             && u.statement == [] && u.executed == st.executed + [s] && e.complete(s) && ByteLength(s) <= LIMIT
             && e.validate(s).Some? && e.accepts(st.executed, s)
             && u.tables == st.tables + e.validate(s).value.tables && u.rows == st.rows + e.validate(s).value.rows
    ensures Consumed(e, u, text + line)
  {
    var s := st.statement + line;
    ConcatSnoc(st.executed, s);
    TakenMore(e, st.executed, s);
    assert u.executed[..|st.executed|] == st.executed;
    assert text + line == Concat(st.executed) + s == Concat(u.executed) + u.statement;
  }

  lemma FeedKeeps(e: Engine, st: State, raw: seq<Byte>, line: string, text: string)
    requires Consumed(e, st, text) && Feed(e, st, raw, line).Continue?
    ensures Consumed(e, Feed(e, st, raw, line).state, text + line)
  {
    var u := Feed(e, st, raw, line).state;
    if e.empty(st.statement) && COUNTS_PREFIX <= line {
      CountsLineKeeps(e, st, line, text, u);
    } else if e.complete(st.statement + line) {
      ExecuteKeeps(e, st, line, text, u);
    } else {
      BufferKeeps(e, st, line, text, u);
    }
  }

  // ---------------------------------------------------------------- whole runs of the loop

  predicate Decodes(lines: seq<seq<Byte>>) {
    forall i :: 0 <= i < |lines| ==> Decode(lines[i]).Some?
  }

  /** The text of decodable lines. */
  function TextOf(lines: seq<seq<Byte>>): string
    requires Decodes(lines)
  {
    if lines == [] then [] else Decode(lines[0]).value + TextOf(lines[1..])
  }

  /** A footer line read while only blanks were buffered. */
  predicate IsFooter(e: Engine, buffered: string, line: string, digest: string) {
    e.empty(buffered) && FOOTER_PREFIX <= line && !(COUNTS_PREFIX <= line) && ReadFooter(line) == Some(digest)
  }

  /** What every round keeps of the state and the text so far, and what holds of the last line. */
  ghost predicate Keeps(f: (State, seq<Byte>, string) -> Fed, p: (State, string) -> bool,
                        q: (State, string, string) -> bool)
  {
    && (forall st: State, raw: seq<Byte>, line: string, text: string ::
          p(st, text) && f(st, raw, line).Continue? ==> p(f(st, raw, line).state, text + line))
    && (forall st: State, raw: seq<Byte>, line: string ::
          f(st, raw, line).Footer? ==> f(st, raw, line).state == st && q(st, line, f(st, raw, line).digest))
  }

  ghost function Consumes(e: Engine): (State, string) -> bool {
    (st, text) => Consumed(e, st, text)
  }

  ghost function Foots(e: Engine): (State, string, string) -> bool {
    (st: State, line, digest) => IsFooter(e, st.statement, line, digest)
  }

  lemma EngineKeeps(e: Engine)
    ensures Keeps(RawFeeder(e), Consumes(e), Foots(e))
  {
    forall st: State, raw: seq<Byte>, line: string, text: string |
      Consumes(e)(st, text) && RawFeeder(e)(st, raw, line).Continue?
      ensures Consumes(e)(RawFeeder(e)(st, raw, line).state, text + line)
    {
      FeedKeeps(e, st, raw, line, text);
    }
  }

  lemma TextOfFirst(lines: seq<seq<Byte>>)
    requires |lines| > 1 && Decodes(lines[1..]) && Decode(lines[0]).Some?
    ensures Decodes(lines)
    ensures TextOf(lines[..|lines| - 1]) == Decode(lines[0]).value + TextOf(lines[1..][..|lines| - 2])
  {
    var rest, init := lines[1..], lines[..|lines| - 1];
    assert forall i :: 0 < i < |lines| ==> lines[i] == rest[i - 1];
    assert init[0] == lines[0] && init[1..] == rest[..|rest| - 1];
  }

  lemma {:induction false} RoundsKeep(f: (State, seq<Byte>, string) -> Fed, p: (State, string) -> bool,
                                      q: (State, string, string) -> bool, st: State, lines: seq<seq<Byte>>,
                                      text: string)
    requires Keeps(f, p, q) && p(st, text) && ByteRounds(f, st, lines).Footer?
    ensures lines != [] && Decodes(lines)
    ensures var fed := ByteRounds(f, st, lines);
            && q(fed.state, Decode(lines[|lines| - 1]).value, fed.digest)
            && p(fed.state, text + TextOf(lines[..|lines| - 1]))
    decreases |lines|
  {
    var line := Decode(lines[0]).value;
    var fed := f(st, lines[0], line);
    if fed.Continue? {
      var rest := lines[1..];
      RoundsKeep(f, p, q, fed.state, rest, text + line);
      TextOfFirst(lines);
      Regroup(text, line, TextOf(rest[..|rest| - 1]));
      assert rest[|rest| - 1] == lines[|lines| - 1];
    } else {
      assert lines[..0] == [] && text + [] == text;
    }
  }

  // ---------------------------------------------------------------- headers and hexadecimal

  /** 64 hexadecimal digits in any case, and the same in lower case. */
  predicate HexPair(text: string, lower: string) {
    |text| == 64 == |lower| && forall i :: 0 <= i < 64 ==> HexPairAt(text[i] as int, lower[i] as int)
  }

  predicate HexPairAt(c: int, d: int) {
    (c == d && (48 <= c <= 57 || 97 <= c <= 102)) || (65 <= c <= 70 && d == c + 32)
  }

  lemma HexReads(text: string)
    requires HexText(text)
    ensures HexPair(text, LowerHex(text))
  {
    forall i | 0 <= i < 64 ensures HexPairAt(text[i] as int, LowerHex(text)[i] as int) {
      assert HexDigit(text[i]);
    }
  }

  lemma LowerHexIsHex(text: string)
    requires HexText(LowerHex(text))
    ensures HexText(text)
  {
    var lower := LowerHex(text);
    forall i | 0 <= i < |text| ensures HexDigit(text[i]) {
      assert HexDigit(lower[i]);
    }
  }

  /** A line that is the prefix, 64 hexadecimal digits and a line feed. */
  ghost predicate HexLine(line: string, prefix: string, lower: string) {
    exists text :: line == prefix + text + "\n" && HexPair(text, lower)
  }

  lemma BetweenMeans(prefix: string, line: string)
    requires Between(prefix, line).Some?
    ensures line == prefix + Between(prefix, line).value + "\n"
  {
    var text := Between(prefix, line).value;
    assert line == line[..|prefix|] + line[|prefix|..|line| - 1] + line[|line| - 1..];
  }

  lemma FooterMeans(line: string, digest: string)
    requires ReadFooter(line) == Some(digest)
    ensures HexLine(line, FOOTER_PREFIX, digest)
  {
    BetweenMeans(FOOTER_PREFIX, line);
    HexReads(Between(FOOTER_PREFIX, line).value);
  }

  lemma SchemaMeans(line: string, schema: string)
    requires ReadSchema(line) == Some(schema)
    ensures HexLine(line, SCHEMA_PREFIX, schema)
  {
    BetweenMeans(SCHEMA_PREFIX, line);
    var text := Between(SCHEMA_PREFIX, line).value;
    LowerHexIsHex(text);
    HexReads(text);
  }

  // ---------------------------------------------------------------- the theorem

  /** The lines between header and footer are the executed statements one after the other, then one
      counts line that states what was executed, and nothing else but blanks. */
  ghost predicate BodyIs(e: Engine, body: string, r: Outcome)
    requires r.Imported?
  {
    exists a, line, b ::
      && body == Concat(r.executed) + a + line + b && e.empty(a) && e.empty(a + b)
      && COUNTS_PREFIX <= line && ParseCounts(line) == Some(r.counts)
  }

  lemma StartIsConsumed(e: Engine, header: seq<Byte>)
    ensures Consumed(e, Start(header), [])
  {
  }

  lemma BodyMeans(e: Engine, header: seq<Byte>, lines: seq<seq<Byte>>, schema: string)
    requires Conclude(e, ByteRounds(RawFeeder(e), Start(header), lines), schema).Imported?
    ensures lines != [] && Decodes(lines)
    ensures var r := Conclude(e, ByteRounds(RawFeeder(e), Start(header), lines), schema);
            && BodyIs(e, TextOf(lines[..|lines| - 1]), r) && AllTaken(e, r.executed)
            && r.counts == Counts(Totals(e, r.executed).tables, Totals(e, r.executed).rows, |r.executed|)
            && e.schema(r.executed) == schema
            && HexLine(Decode(lines[|lines| - 1]).value, FOOTER_PREFIX, r.digest)
  {
    var fed := ByteRounds(RawFeeder(e), Start(header), lines);
    StartIsConsumed(e, header);
    EngineKeeps(e);
    RoundsKeep(RawFeeder(e), Consumes(e), Foots(e), Start(header), lines, []);
    var body := TextOf(lines[..|lines| - 1]);
    assert [] + body == body;
    var a, line, b :| Trailed(e, fed.state, body, a, line, b);
    FooterMeans(Decode(lines[|lines| - 1]).value, fed.digest);
  }

  /** The three header lines, and the schema fingerprint in the third. */
  ghost predicate HeaderIs(first: string, second: string, third: string, schema: string) {
    && first == "-- radixdb-sql-dump: 1\n"
    && "-- source-engine-version: " <= second && second[|second| - 1] == '\n'
    && HexLine(third, SCHEMA_PREFIX, schema)
  }

  lemma HeaderMeans(first: string, second: string, third: string)
    requires CheckHeader(first, second, third).Some?
    ensures HeaderIs(first, second, third, CheckHeader(first, second, third).value)
  {
    SchemaMeans(third, CheckHeader(first, second, third).value);
    assert FORMAT_LINE == "-- radixdb-sql-dump: 1\n";
  }

  lemma ImportedHeader(e: Engine, bytes: seq<Byte>) returns (schema: string)
    requires ImportBytes(e, bytes).Imported?
    ensures var lines := Lines(bytes);
            && |lines| >= 3 && Decode(lines[0]).Some? && Decode(lines[1]).Some? && Decode(lines[2]).Some?
            && HeaderIs(Decode(lines[0]).value, Decode(lines[1]).value, Decode(lines[2]).value, schema)
            && ImportBytes(e, bytes) ==
                 Conclude(e, ByteRounds(RawFeeder(e), Start(lines[0] + lines[1] + lines[2]), lines[3..]), schema)
  {
    var lines := Lines(bytes);
    var a, b, c := Decode(lines[0]).value, Decode(lines[1]).value, Decode(lines[2]).value;
    DumpRoundTrip.HeaderRead(e, bytes, lines[3..], a, b, c);
    HeaderMeans(a, b, c);
    schema := CheckHeader(a, b, c).value;
  }

  lemma HeaderAndBody(lines: seq<seq<Byte>>)
    requires |lines| >= 3 && Decode(lines[0]).Some? && Decode(lines[1]).Some? && Decode(lines[2]).Some?
    requires lines[3..] != [] && Decodes(lines[3..])
    ensures |lines| > 3 && Decodes(lines) && lines[3..][|lines| - 4] == lines[|lines| - 1]
    ensures lines[3..][..|lines| - 4] == lines[3..|lines| - 1]
  {
    assert forall i :: 3 <= i < |lines| ==> lines[i] == lines[3..][i - 3];
  }

  /** An import that succeeds had a well-formed dump before it: the three header lines with the schema
      fingerprint that the database ended with, the executed statements, each complete, valid and
      accepted in its turn, one counts line with exactly what they add up to, and a footer. */
  lemma ImportIsSound(e: Engine, bytes: seq<Byte>)
    requires ImportBytes(e, bytes).Imported?
    ensures var r, lines := ImportBytes(e, bytes), Lines(bytes);
            && |lines| > 3 && Decodes(lines)
            && HeaderIs(Decode(lines[0]).value, Decode(lines[1]).value, Decode(lines[2]).value, e.schema(r.executed))
            && BodyIs(e, TextOf(lines[3..|lines| - 1]), r) && AllTaken(e, r.executed)
            && r.counts == Counts(Totals(e, r.executed).tables, Totals(e, r.executed).rows, |r.executed|)
            && HexLine(Decode(lines[|lines| - 1]).value, FOOTER_PREFIX, r.digest)
  {
    var lines := Lines(bytes);
    var schema := ImportedHeader(e, bytes);
    BodyMeans(e, lines[0] + lines[1] + lines[2], lines[3..], schema);
    HeaderAndBody(lines);
  }
}
