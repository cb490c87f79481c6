/** A dump from the bytes an export writes to the statements an import executes. */
module DumpRoundTrip {
  import opened Common
  import opened SqlLexer
  import opened DumpStatement
  import opened DumpCounts
  import opened Utf8
  import opened DumpStream
  import opened DumpImport
  import Decimal

  // ---------------------------------------------------------------- what an export writes

  function EngineLine(version: string): string {
    ENGINE_PREFIX + version + "\n"
  }

  function SchemaLine(schema: string): string {
    SCHEMA_PREFIX + schema + "\n"
  }

  function Header(version: string, schema: string): string {
    FORMAT_LINE + EngineLine(version) + SchemaLine(schema)
  }

  function FooterLine(digest: string): string {
    FOOTER_PREFIX + digest + "\n"
  }

  /** Everything the digest covers. */
  function Covered(version: string, schema: string, statements: seq<string>, counts: Counts): string {
    Header(version, schema) + Concat(statements) + CountsLine(counts)
  }

  function Dump(e: Engine, version: string, schema: string, statements: seq<string>, counts: Counts): string {
    var covered := Covered(version, schema, statements, counts);
    covered + FooterLine(e.digest(Encode(covered)))
  }

  /** Writes one more text through the digest; `before` is what has been written so far. */
  method Put(writer: DigestWriter, ghost before: string, text: string) returns (ok: bool)
    requires writer.Valid() && writer.digested == Encode(before)
    modifies writer, writer.inner
    ensures writer.Valid() && (ok ==> writer.digested == Encode(before + text))
    ensures writer.inner.failed <==> old(writer.inner.failed) || !ok
  {
    EncodeConcat(before, text);
    ok := writer.WriteAll(Encode(text));
  }

  method PutStatements(writer: DigestWriter, before: string, statements: seq<string>) returns (ok: bool)
    requires writer.Valid() && writer.digested == Encode(before)
    modifies writer, writer.inner
    ensures writer.Valid() && (ok ==> writer.digested == Encode(before + Concat(statements)))
    ensures writer.inner.failed <==> old(writer.inner.failed) || !ok
  {
    ok := true;
    ghost var text := before;
    assert before + [] == before;
    for i := 0 to |statements|
      invariant writer.Valid() && ok && writer.digested == Encode(text)
      invariant text == before + Concat(statements[..i]) && writer.inner.failed == old(writer.inner.failed)
    {
      ok := Put(writer, text, statements[i]);
      if !ok {
        return;
      }
      AppendedText(before, statements, i);
      text := text + statements[i];
    }
    assert statements[..|statements|] == statements;
  }

  lemma AppendedText(before: string, statements: seq<string>, i: nat)
    requires i < |statements|
    ensures before + Concat(statements[..i]) + statements[i] == before + Concat(statements[..i + 1])
  {
    ConcatStep(statements, i);
  }

  /** `export_sql_dump` once the statements are rendered: whatever the pattern of short writes, the
      encoded dump is written and flushed, footer over the written bytes included, unless the output fails. */
  method ExportDump(e: Engine, writer: DigestWriter, version: string, schema: string, statements: seq<string>,
                    counts: Counts)
    returns (ok: bool)
    requires writer.Valid() && writer.digested == []
    modifies writer, writer.inner
    ensures ok ==> writer.inner.written == Encode(Dump(e, version, schema, statements, counts))
    ensures ok ==> writer.inner.flushed == writer.inner.written
    ensures writer.inner.failed <==> old(writer.inner.failed) || !ok
  {
    var header := Header(version, schema);
    assert [] + header == header;
    ok := Put(writer, [], header);
    if !ok {
      return;
    }
    ok := PutStatements(writer, header, statements);
    if !ok {
      return;
    }
    ok := Put(writer, header + Concat(statements), CountsLine(counts));
    if !ok {
      return;
    }
    ghost var covered := Covered(version, schema, statements, counts);
    var footer := FooterLine(e.digest(writer.digested));
    EncodeConcat(covered, footer);
    ok := WriteFooter(writer.inner, Encode(footer));
    if ok {
      ok := writer.inner.Flush();
    }
  }

  /** The footer goes past the digest, straight to the output. */
  method WriteFooter(sink: Sink, bytes: seq<Byte>) returns (ok: bool)
    modifies sink
    ensures ok ==> sink.written == old(sink.written) + bytes
    ensures sink.failed <==> old(sink.failed) || !ok
  {
    var done := 0;
    while done < |bytes|
      invariant done <= |bytes| && sink.written == old(sink.written) + bytes[..done] && sink.failed == old(sink.failed)
    {
      var accepted := sink.Write(bytes[done..]);
      if accepted.None? || accepted.value == 0 {
        return false;
      }
      assert bytes[..done] + bytes[done..][..accepted.value] == bytes[..done + accepted.value];
      done := done + accepted.value;
    }
    assert bytes[..done] == bytes;
    ok := true;
  }

  lemma {:induction false} ConcatStep(statements: seq<string>, i: nat)
    requires i < |statements|
    ensures Concat(statements[..i + 1]) == Concat(statements[..i]) + statements[i]
  {
    if i == 0 {
      assert statements[..1] == [statements[0]] && [statements[0]][1..] == [];
    } else {
      ConcatStep(statements[1..], i - 1);
      assert statements[..i + 1][1..] == statements[1..][..i] && statements[..i][1..] == statements[1..][..i - 1];
    }
  }

  // ---------------------------------------------------------------- importing bytes

  /** The text loop does what the byte loop does on the texts' encodings. */
  ghost predicate Agree(f: (State, seq<Byte>, string) -> Fed, g: (State, string) -> Fed) {
    forall st: State, line: string :: g(st, line) == f(st, Encode(line), line)
  }

  lemma {:induction false} ByteRoundsDecode(f: (State, seq<Byte>, string) -> Fed, g: (State, string) -> Fed, st: State,
                                            lines: seq<seq<Byte>>, texts: seq<string>)
    requires Agree(f, g)
    requires |lines| == |texts| && forall i :: 0 <= i < |lines| ==> Decode(lines[i]) == Some(texts[i])
    ensures ByteRounds(f, st, lines) == Rounds(g, st, texts)
    decreases |lines|
  {
    if lines != [] {
      assert Decode(lines[0]) == Some(texts[0]);
      EncodesBack(lines[0]);
      var fed := g(st, texts[0]);
      assert fed == f(st, lines[0], texts[0]);
      if fed.Continue? {
        forall i | 0 <= i < |lines[1..]| ensures Decode(lines[1..][i]) == Some(texts[1..][i]) {
          assert lines[1..][i] == lines[i + 1] && texts[1..][i] == texts[i + 1];
        }
        ByteRoundsDecode(f, g, fed.state, lines[1..], texts[1..]);
      }
    }
  }

  lemma HeaderEncodes(a: seq<Byte>, b: seq<Byte>, c: seq<Byte>, s: string, t: string, u: string)
    requires Decode(a) == Some(s) && Decode(b) == Some(t) && Decode(c) == Some(u)
    ensures Encode(s + t + u) == a + b + c
  {
    EncodesBack(a);
    EncodesBack(b);
    EncodesBack(c);
    EncodeConcat(s + t, u);
    EncodeConcat(s, t);
  }

  lemma ImportDecodes(e: Engine, bytes: seq<Byte>, texts: seq<string>)
    requires |Lines(bytes)| == |texts| && forall i :: 0 <= i < |texts| ==> Decode(Lines(bytes)[i]) == Some(texts[i])
    ensures ImportBytes(e, bytes) == ImportLines(e, texts)
  {
    var lines := Lines(bytes);
    if |lines| >= 3 {
      assert Decode(lines[0]) == Some(texts[0]) && Decode(lines[1]) == Some(texts[1])
             && Decode(lines[2]) == Some(texts[2]);
      HeaderEncodes(lines[0], lines[1], lines[2], texts[0], texts[1], texts[2]);
      forall i | 0 <= i < |lines[3..]| ensures Decode(lines[3..][i]) == Some(texts[3..][i]) {
        assert lines[3..][i] == lines[i + 3] && texts[3..][i] == texts[i + 3];
      }
      ByteRoundsDecode(RawFeeder(e), Feeder(e), Start(lines[0] + lines[1] + lines[2]), lines[3..], texts[3..]);
    }
  }

  // ---------------------------------------------------------------- the two trailers

  lemma {:induction false} BytesPerChar(s: string)
    ensures ByteLength(s) <= 4 * |s|
    decreases |s|
  {
    if s != [] {
      BytesPerChar(s[1..]);
    }
  }

  function Pow10(k: nat): nat {
    if k == 0 then 1 else 10 * Pow10(k - 1)
  }

  lemma {:induction false} DigitCount(n: nat, k: nat)
    requires 0 < k && n < Pow10(k)
    ensures |Decimal.Digits(n)| <= k
    decreases k
  {
    if n >= 10 {
      assert k > 1;
      DigitCount(n / 10, k - 1);
    }
  }

  lemma U64Digits(n: nat)
    requires n <= U64_MAX
    ensures |Decimal.Digits(n)| <= 20
  {
    assert Pow10(5) == 100000;
    assert Pow10(10) == 10000000000 by { assert Pow10(8) == 1000 * Pow10(5); assert Pow10(10) == 100 * Pow10(8); }
    assert Pow10(13) == 1000 * Pow10(10);
    assert Pow10(16) == 1000 * Pow10(13);
    assert Pow10(19) == 1000 * Pow10(16);
    assert Pow10(20) == 10 * Pow10(19);
    DigitCount(n, 20);
  }

  predicate CountsFit(c: Counts) {
    c.tables <= U64_MAX && c.rows <= U64_MAX && c.statements <= U64_MAX
  }

  lemma PayloadLength(a: string, b: string, c: string)
    requires |a| <= 20 && |b| <= 20 && |c| <= 20
    ensures |"tables=" + a + (" " + ("rows=" + b + (" " + ("statements=" + c))))| <= 90
  {
  }

  lemma CountsLineFits(c: Counts)
    requires CountsFit(c)
    ensures ByteLength(CountsLine(c)) <= LIMIT
  {
    U64Digits(c.tables);
    U64Digits(c.rows);
    U64Digits(c.statements);
    PayloadLength(Decimal.Digits(c.tables), Decimal.Digits(c.rows), Decimal.Digits(c.statements));
    assert |COUNTS_PREFIX| == 28;
    assert |CountsLine(c)| <= 28 + 90 + 1;
    BytesPerChar(CountsLine(c));
  }

  lemma PrefixStarts(prefix: string, text: string)
    ensures prefix <= prefix + text + "\n"
  {
  }

  lemma FeedCounts(e: Engine, st: State, c: Counts)
    requires CountsFit(c) && st.statement == [] && e.empty([]) && st.counts.None?
    ensures Feeder(e)(st, CountsLine(c)) ==
              Continue(st.(counts := Some(c), digested := st.digested + Encode(CountsLine(c))))
  {
    CountsLineFits(c);
    CountsRoundTrip(c);
    PrefixStarts(COUNTS_PREFIX, CountsPayload(c));
  }

  /** A digest text as `hex` writes it: 64 lower-case hexadecimal digits. */
  predicate LowerHexText(d: string) {
    HexText(d) && LowerHex(d) == d
  }

  lemma FeedFooter(e: Engine, st: State, d: string)
    requires LowerHexText(d) && st.statement == [] && e.empty([])
    ensures Feeder(e)(st, FooterLine(d)) == Footer(st, d)
  {
    var line := FooterLine(d);
    BytesPerChar(line);
    assert |FOOTER_PREFIX| == 28 && |line| == 93;
    PrefixStarts(FOOTER_PREFIX, d);
    assert line[|FOOTER_PREFIX|..|line| - 1] == d;
    NotCounts(line);
  }

  lemma NotCounts(line: string)
    requires FOOTER_PREFIX <= line
    ensures !(COUNTS_PREFIX <= line)
  {
    assert line[20] == FOOTER_PREFIX[20] == 's' && COUNTS_PREFIX[20] == 'c';
  }

  // ---------------------------------------------------------------- the lines of a dump

  predicate NoLf(s: string) {
    forall i :: 0 <= i < |s| ==> s[i] != '\n'
  }

  lemma LineOf(a: string)
    requires NoLf(a)
    ensures TextLines(a + "\n") == [a + "\n"]
  {
    var line := a + "\n";
    assert line[..|line| - 1] == a;
    OneLine(line);
  }

  lemma SingleLine(a: string, b: string)
    requires NoLf(a) && NoLf(b)
    ensures TextLines(a + b + "\n") == [a + b + "\n"]
  {
    LineOf(a + b);
  }

  lemma PrefixesNoLf()
    ensures NoLf(COUNTS_PREFIX) && NoLf(FOOTER_PREFIX)
  {
  }

  lemma HeadersNoLf()
    ensures NoLf(ENGINE_PREFIX) && NoLf(SCHEMA_PREFIX) && NoLf(FORMAT_TEXT)
  {
  }

  lemma NamesNoLf()
    ensures NoLf("tables=") && NoLf("rows=") && NoLf("statements=") && NoLf(" ")
  {
  }

  lemma ConcatNoLf(a: string, b: string)
    requires NoLf(a) && NoLf(b)
    ensures NoLf(a + b)
  {
  }

  lemma DigitsNoLf(n: nat)
    ensures NoLf(Decimal.Digits(n))
  {
    var d := Decimal.Digits(n);
    forall i | 0 <= i < |d| ensures d[i] != '\n' {
      assert Digit(d[i]);
    }
  }

  lemma FieldsNoLf(x: string, a: string, y: string, b: string, z: string, c: string, blank: string)
    requires NoLf(x) && NoLf(a) && NoLf(y) && NoLf(b) && NoLf(z) && NoLf(c) && NoLf(blank)
    ensures NoLf(x + a + (blank + (y + b + (blank + (z + c)))))
  {
    ConcatNoLf(z, c);
    ConcatNoLf(blank, z + c);
    ConcatNoLf(y, b);
    ConcatNoLf(y + b, blank + (z + c));
    ConcatNoLf(blank, y + b + (blank + (z + c)));
    ConcatNoLf(x, a);
    ConcatNoLf(x + a, blank + (y + b + (blank + (z + c))));
  }

  lemma PayloadNoLf(c: Counts)
    ensures NoLf(CountsPayload(c))
  {
    NamesNoLf();
    DigitsNoLf(c.tables);
    DigitsNoLf(c.rows);
    DigitsNoLf(c.statements);
    FieldsNoLf("tables=", Decimal.Digits(c.tables), "rows=", Decimal.Digits(c.rows), "statements=",
               Decimal.Digits(c.statements), " ");
  }

  lemma HexNoLf(d: string)
    requires HexText(d)
    ensures NoLf(d)
  {
    forall i | 0 <= i < |d| ensures d[i] != '\n' {
      assert HexDigit(d[i]);
    }
  }

  /** A text that is one line. */
  ghost predicate IsLine(a: string) {
    a != [] && a[|a| - 1] == '\n' && TextLines(a) == [a]
  }

  lemma TwoLines(a: string, b: string, rest: string)
    requires IsLine(a) && IsLine(b)
    ensures TextLines(a + b + rest) == [a, b] + TextLines(rest)
  {
    LinesConcat(a, b);
    LinesConcat(a + b, rest);
  }

  lemma ThreeLines(a: string, b: string, c: string, rest: string)
    requires IsLine(a) && IsLine(b) && IsLine(c)
    ensures TextLines(a + b + c + rest) == [a, b, c] + TextLines(rest)
  {
    TwoLines(a, b, c);
    LinesConcat(a + b + c, rest);
  }

  lemma TrailerLines(c: Counts, digest: string)
    requires HexText(digest)
    ensures TextLines(CountsLine(c) + FooterLine(digest)) == [CountsLine(c), FooterLine(digest)]
  {
    PrefixesNoLf();
    PayloadNoLf(c);
    SingleLine(COUNTS_PREFIX, CountsPayload(c));
    HexNoLf(digest);
    SingleLine(FOOTER_PREFIX, digest);
    var a, b := CountsLine(c), FooterLine(digest);
    assert a + b + [] == a + b;
    TwoLines(a, b, []);
  }

  lemma HeaderLines(version: string, schema: string, rest: string)
    requires NoLf(version) && HexText(schema)
    ensures TextLines(Header(version, schema) + rest) ==
            [FORMAT_LINE, EngineLine(version), SchemaLine(schema)] + TextLines(rest)
  {
    HeadersNoLf();
    HexNoLf(schema);
    LineOf(FORMAT_TEXT);
    SingleLine(ENGINE_PREFIX, version);
    SingleLine(SCHEMA_PREFIX, schema);
    ThreeLines(FORMAT_LINE, EngineLine(version), SchemaLine(schema), rest);
  }

  predicate EndsLine(s: string) {
    s != [] && s[|s| - 1] == '\n'
  }

  lemma {:induction false} ConcatEnds(statements: seq<string>)
    requires forall i :: 0 <= i < |statements| ==> EndsLine(statements[i])
    ensures Concat(statements) == [] || EndsLine(Concat(statements))
    decreases |statements|
  {
    if statements != [] {
      ConcatEnds(statements[1..]);
    }
  }

  // ---------------------------------------------------------------- the theorem

  /** The digest that an export writes. */
  function Checksum(e: Engine, version: string, schema: string, statements: seq<string>, counts: Counts): string {
    e.digest(Encode(Covered(version, schema, statements, counts)))
  }

  /** A dump in the form an export writes: one-line headers and trailers, a digest and a fingerprint in
      lower-case hexadecimal, 64-bit counts, statements that end with a line. */
  ghost predicate Presentable(e: Engine, version: string, schema: string, statements: seq<string>, counts: Counts) {
    && e.empty([]) && NoLf(version) && ByteLength(EngineLine(version)) <= LIMIT
    && LowerHexText(schema) && LowerHexText(Checksum(e, version, schema, statements, counts)) && CountsFit(counts)
    && forall i :: 0 <= i < |statements| ==> EndsLine(statements[i])
  }

  /** The schema and the counts are those of a database that has run the statements. */
  ghost predicate Counted(e: Engine, schema: string, start: State, statements: seq<string>, counts: Counts)
    requires Executable(e, start, statements)
  {
    var u := AfterRunning(e, start, statements);
    e.schema(statements) == schema && counts == Counts(u.tables, u.rows, |statements|)
  }

  ghost function AfterRunning(e: Engine, st: State, statements: seq<string>): State
    requires Executable(e, st, statements)
    decreases |statements|
  {
    if statements == [] then st else AfterRunning(e, After(e, st, statements[0]), statements[1..])
  }

  /** An export the importer's engine can replay: framed, valid, executable statements with counts
      in range, and a digest and fingerprint written in lower-case hexadecimal. */
  ghost predicate Replayable(e: Engine, version: string, schema: string, statements: seq<string>, counts: Counts) {
    && Presentable(e, version, schema, statements, counts)
    && AllAccepted(e, Start(Encode(Header(version, schema))), statements)
    && (var u := AfterAll(e, Start(Encode(Header(version, schema))), statements);
        e.schema(statements) == schema && counts == Counts(u.tables, u.rows, |statements|))
  }

  lemma RoundsOfDump(e: Engine, version: string, schema: string, statements: seq<string>, counts: Counts)
    requires Presentable(e, version, schema, statements, counts)
    requires AllAccepted(e, Start(Encode(Header(version, schema))), statements)
    ensures var digest := Checksum(e, version, schema, statements, counts);
            var start := Start(Encode(Header(version, schema)));
            var covered := Encode(Covered(version, schema, statements, counts));
            var last := AfterAll(e, start, statements).(counts := Some(counts), digested := covered);
            Rounds(Feeder(e), start, TextLines(Concat(statements)) + [CountsLine(counts), FooterLine(digest)])
              == Footer(last, digest)
  {
    var start := Start(Encode(Header(version, schema)));
    var digest := Checksum(e, version, schema, statements, counts);
    var u := AfterAll(e, start, statements);
    AfterAllIsExact(e, start, statements);
    RoundsOfStatements(e, start, statements, [CountsLine(counts), FooterLine(digest)]);
    FeedCounts(e, u, counts);
    var v := u.(counts := Some(counts), digested := u.digested + Encode(CountsLine(counts)));
    EncodeConcat(Header(version, schema) + Concat(statements), CountsLine(counts));
    EncodeConcat(Header(version, schema), Concat(statements));
    FeedFooter(e, v, digest);
    TwoRounds(Feeder(e), u, CountsLine(counts), v, FooterLine(digest), digest);
  }

  lemma TwoRounds(f: (State, string) -> Fed, u: State, a: string, v: State, b: string, digest: string)
    requires f(u, a) == Continue(v) && f(v, b) == Footer(v, digest)
    ensures Rounds(f, u, [a, b]) == Footer(v, digest)
  {
    assert [a, b][1..] == [b] && [b][1..] == [];
  }

  lemma AssembleLines(header: string, body: string, counts: string, footer: string, dump: string, head: seq<string>)
    requires dump == header + body + counts + footer && (body == [] || body[|body| - 1] == '\n')
    requires TextLines(header + (body + (counts + footer))) == head + TextLines(body + (counts + footer))
    requires TextLines(counts + footer) == [counts, footer]
    ensures TextLines(dump) == head + (TextLines(body) + [counts, footer])
  {
    Regroup(header, body, counts, footer);
    LinesConcat(body, counts + footer);
  }

  lemma Regroup(a: string, b: string, c: string, d: string)
    ensures a + b + c + d == a + (b + (c + d))
  {
  }

  lemma DumpLines(e: Engine, version: string, schema: string, statements: seq<string>, counts: Counts)
    requires Presentable(e, version, schema, statements, counts)
    ensures TextLines(Dump(e, version, schema, statements, counts)) ==
              [FORMAT_LINE, EngineLine(version), SchemaLine(schema)]
              + (TextLines(Concat(statements))
                 + [CountsLine(counts), FooterLine(Checksum(e, version, schema, statements, counts))])
  {
    var digest := Checksum(e, version, schema, statements, counts);
    var body, trailer := Concat(statements), CountsLine(counts) + FooterLine(digest);
    HeaderLines(version, schema, body + trailer);
    ConcatEnds(statements);
    TrailerLines(counts, digest);
    AssembleLines(Header(version, schema), body, CountsLine(counts), FooterLine(digest),
                  Dump(e, version, schema, statements, counts), [FORMAT_LINE, EngineLine(version), SchemaLine(schema)]);
  }

  lemma SchemaReads(schema: string)
    requires LowerHexText(schema)
    ensures ReadSchema(SchemaLine(schema)) == Some(schema) && ByteLength(SchemaLine(schema)) <= LIMIT
  {
    var line := SchemaLine(schema);
    PrefixStarts(SCHEMA_PREFIX, schema);
    assert |SCHEMA_PREFIX| == 23;
    assert line[|SCHEMA_PREFIX|..|line| - 1] == schema;
    BytesPerChar(line);
  }

  lemma HeaderChecks(e: Engine, version: string, schema: string, rest: seq<string>)
    requires LowerHexText(schema) && ByteLength(EngineLine(version)) <= LIMIT
    ensures var lines := [FORMAT_LINE, EngineLine(version), SchemaLine(schema)] + rest;
            ImportLines(e, lines) == Conclude(e, Rounds(Feeder(e), Start(Encode(Header(version, schema))), rest),
                                              schema)
  {
    var lines := [FORMAT_LINE, EngineLine(version), SchemaLine(schema)] + rest;
    assert lines[0] == FORMAT_LINE && lines[1] == EngineLine(version) && lines[2] == SchemaLine(schema)
           && lines[3..] == rest;
    PrefixStarts(ENGINE_PREFIX, version);
    SchemaReads(schema);
  }

  /** Importing a presentable dump is running the import loop over its statements' lines. */
  lemma ImportOfDump(e: Engine, version: string, schema: string, statements: seq<string>, counts: Counts)
    requires Presentable(e, version, schema, statements, counts)
    ensures var digest := Checksum(e, version, schema, statements, counts);
            var rest := TextLines(Concat(statements)) + [CountsLine(counts), FooterLine(digest)];
            ImportBytes(e, Encode(Dump(e, version, schema, statements, counts))) ==
              Conclude(e, Rounds(Feeder(e), Start(Encode(Header(version, schema))), rest), schema)
  {
    var dump := Dump(e, version, schema, statements, counts);
    LinesDecode(dump);
    ImportDecodes(e, Encode(dump), TextLines(dump));
    DumpLines(e, version, schema, statements, counts);
    HeaderChecks(e, version, schema, TextLines(Concat(statements))
                 + [CountsLine(counts), FooterLine(Checksum(e, version, schema, statements, counts))]);
  }

  /** If every statement is accepted, the import succeeds exactly if counts and fingerprint match. */
  lemma AcceptedDump(e: Engine, version: string, schema: string, statements: seq<string>, counts: Counts)
    requires Presentable(e, version, schema, statements, counts)
    requires AllAccepted(e, Start(Encode(Header(version, schema))), statements)
    ensures ImportBytes(e, Encode(Dump(e, version, schema, statements, counts))) ==
              if Replayable(e, version, schema, statements, counts)
              then Imported(statements, counts, Checksum(e, version, schema, statements, counts)) else Rejected
  {
    ImportOfDump(e, version, schema, statements, counts);
    RoundsOfDump(e, version, schema, statements, counts);
    AfterAllIsExact(e, Start(Encode(Header(version, schema))), statements);
    assert [] + statements == statements;
  }

  /** Export then import: every replayable list of statements comes back exactly, in order, with
      matching counts, digest and fingerprint, from the bytes the export wrote. */
  lemma ExportImportRoundTrip(e: Engine, version: string, schema: string, statements: seq<string>, counts: Counts)
    requires Replayable(e, version, schema, statements, counts)
    ensures ImportBytes(e, Encode(Dump(e, version, schema, statements, counts))) ==
              Imported(statements, counts, Checksum(e, version, schema, statements, counts))
  {
    AcceptedDump(e, version, schema, statements, counts);
  }

  lemma {:induction false} RunningIsAccepting(e: Engine, st: State, statements: seq<string>)
    requires Executable(e, st, statements) && AllAccepted(e, st, statements)
    ensures AfterRunning(e, st, statements) == AfterAll(e, st, statements)
    decreases |statements|
  {
    if statements != [] {
      RunningIsAccepting(e, After(e, st, statements[0]), statements[1..]);
    }
  }

  /** A dump of framed statements is imported exactly if each fits the import budget, the database takes
      each in turn and ends with the counts and the fingerprint that the dump states; otherwise it is
      rejected. */
  lemma ImportDecides(e: Engine, version: string, schema: string, statements: seq<string>, counts: Counts)
    requires Presentable(e, version, schema, statements, counts) && AllFrame(e, statements)
    ensures var start := Start(Encode(Header(version, schema)));
            ImportBytes(e, Encode(Dump(e, version, schema, statements, counts))) ==
              if AllFit(statements) && Executable(e, start, statements)
                 && Counted(e, schema, start, statements, counts)
              then Imported(statements, counts, Checksum(e, version, schema, statements, counts))
              else Rejected
  {
    var start := Start(Encode(Header(version, schema)));
    AcceptedExactly(e, start, statements);
    if AllAccepted(e, start, statements) {
      RunningIsAccepting(e, start, statements);
      AcceptedDump(e, version, schema, statements, counts);
    } else {
      ImportOfDump(e, version, schema, statements, counts);
      OneRefusedFails(e, start, statements,
                      [CountsLine(counts), FooterLine(Checksum(e, version, schema, statements, counts))]);
    }
  }

  // ---------------------------------------------------------------- what a successful import has seen

  /** Each round hashes its raw line, except that a footer ends the loop. */
  ghost predicate Digests(f: (State, seq<Byte>, string) -> Fed, footer: string -> Option<string>) {
    forall st: State, raw: seq<Byte>, line: string ::
      && (f(st, raw, line).Continue? ==> f(st, raw, line).state.digested == st.digested + raw)
      && (f(st, raw, line).Footer? ==> f(st, raw, line).state == st && footer(line) == Some(f(st, raw, line).digest))
  }

  lemma EngineDigests(e: Engine)
    ensures Digests(RawFeeder(e), ReadFooter)
  {
  }

  function Flat(lines: seq<seq<Byte>>): seq<Byte> {
    if lines == [] then [] else lines[0] + Flat(lines[1..])
  }

  lemma FlatCons(line: seq<Byte>, lines: seq<seq<Byte>>)
    ensures Flat([line] + lines) == line + Flat(lines)
  {
    assert ([line] + lines)[1..] == lines;
  }

  lemma {:induction false} LinesAreTheBytes(bytes: seq<Byte>)
    ensures Flat(Lines(bytes)) == bytes
    decreases |bytes|
  {
    if bytes != [] {
      var first := FirstLine(bytes);
      LinesAreTheBytes(bytes[|first|..]);
      FlatCons(first, Lines(bytes[|first|..]));
      assert first + bytes[|first|..] == bytes;
    }
  }

  /** All lines but the last. */
  function Init(lines: seq<seq<Byte>>): seq<seq<Byte>>
    requires lines != []
  {
    lines[..|lines| - 1]
  }

  lemma FlatFirst(lines: seq<seq<Byte>>)
    requires |lines| > 1
    ensures Flat(Init(lines)) == lines[0] + Flat(Init(lines[1..]))
  {
    assert Init(lines)[0] == lines[0] && Init(lines)[1..] == Init(lines[1..]);
  }

  lemma {:induction false} FlatLast(lines: seq<seq<Byte>>)
    requires lines != []
    ensures Flat(lines) == Flat(Init(lines)) + lines[|lines| - 1]
    decreases |lines|
  {
    if |lines| == 1 {
      assert lines[1..] == [] && Init(lines) == [];
    } else {
      FlatLast(lines[1..]);
      FlatFirst(lines);
    }
  }

  /** The digest covers every raw line before the footer, and the footer is the last line. */
  lemma {:induction false} RoundsDigest(f: (State, seq<Byte>, string) -> Fed, footer: string -> Option<string>,
                                        st: State, lines: seq<seq<Byte>>)
    requires Digests(f, footer) && ByteRounds(f, st, lines).Footer?
    ensures lines != [] && Decode(lines[|lines| - 1]).Some?
    ensures var fed := ByteRounds(f, st, lines);
            && fed.state.digested == st.digested + Flat(Init(lines))
            && footer(Decode(lines[|lines| - 1]).value) == Some(fed.digest)
    decreases |lines|
  {
    var fed := f(st, lines[0], Decode(lines[0]).value);
    if fed.Continue? {
      RoundsDigest(f, footer, fed.state, lines[1..]);
      FlatFirst(lines);
      assert st.digested + lines[0] + Flat(Init(lines[1..])) == st.digested + (lines[0] + Flat(Init(lines[1..])));
    } else {
      assert Init(lines) == [];
    }
  }

  /** An import that succeeds has hashed exactly the bytes before the last line, that line is the
      footer, and the footer holds that hash: no altered byte goes unnoticed unless hashes collide. */
  lemma ImportCoversEveryByte(e: Engine, bytes: seq<Byte>)
    requires ImportBytes(e, bytes).Imported?
    ensures var r, lines := ImportBytes(e, bytes), Lines(bytes);
            && |lines| > 3 && Flat(Init(lines)) + lines[|lines| - 1] == bytes
            && e.digest(Flat(Init(lines))) == r.digest
            && Decode(lines[|lines| - 1]).Some? && ReadFooter(Decode(lines[|lines| - 1]).value) == Some(r.digest)
            && r.counts.statements == |r.executed|
  {
    var lines := Lines(bytes);
    var rest := lines[3..];
    EngineDigests(e);
    RoundsDigest(RawFeeder(e), ReadFooter, Start(lines[0] + lines[1] + lines[2]), rest);
    assert rest[|rest| - 1] == lines[|lines| - 1];
    HeaderFirst(lines);
    LinesAreTheBytes(bytes);
    FlatLast(lines);
  }

  lemma HeaderFirst(lines: seq<seq<Byte>>)
    requires |lines| > 3
    ensures Flat(Init(lines)) == lines[0] + lines[1] + lines[2] + Flat(Init(lines[3..]))
  {
    FlatFirst(lines);
    FlatFirst(lines[1..]);
    FlatFirst(lines[2..]);
    assert lines[1..][1..] == lines[2..] && lines[2..][1..] == lines[3..];
  }

  // ---------------------------------------------------------------- the import routine itself

  lemma {:induction false} DecodedLength(b: seq<Byte>)
    requires Decode(b).Some?
    ensures ByteLength(Decode(b).value) == |b|
    decreases |b|
  {
    if b != [] {
      var d := DecodeChar(b);
      DecodedLength(b[d.size..]);
      var s := Decode(b).value;
      assert s[1..] == Decode(b[d.size..]).value && s[0] == d.c;
      DecodedSize(b);
    }
  }

  lemma DecodedSize(b: seq<Byte>)
    requires DecodeChar(b).Good?
    ensures DecodeChar(b).size == Utf8Size(DecodeChar(b).c)
  {
  }

  datatype Input = Text(raw: seq<Byte>, text: string) | End | Malformed | Unreadable

  /** The next line is missing from the input's lines, undecodable or too long. */
  ghost predicate BadLine(line: seq<Byte>) {
    Decode(line).Some? ==> |line| > LIMIT
  }

  method NextText(source: Source) returns (t: Input)
    modifies source
    ensures t.Text? ==>
              && old(source.rest) != [] && t.raw == FirstLine(old(source.rest))
              && Lines(old(source.rest)) == [t.raw] + Lines(source.rest)
              && Decode(t.raw) == Some(t.text) && ByteLength(t.text) <= LIMIT
    ensures t.Text? ==> |source.rest| < |old(source.rest)|
    ensures t.End? ==> old(source.rest) == []
    ensures t.Malformed? ==> old(source.rest) != [] && BadLine(FirstLine(old(source.rest)))
    ensures source.failed <==> old(source.failed) || t.Unreadable?
  {
    var r := ReadLine(source, LIMIT);
    match r {
      case ReadFailed => t := Unreadable;
      case TooLong => t := Malformed;
      case Line(bytes) =>
        if bytes == [] {
          return End;
        }
        var text := Decode(bytes);
        if text.None? {
          return Malformed;
        }
        DecodedLength(bytes);
        t := Input.Text(bytes, text.value);
    }
  }

  lemma BadLineFails(e: Engine, st: State, lines: seq<seq<Byte>>)
    requires lines != [] && BadLine(lines[0])
    ensures ByteRounds(RawFeeder(e), st, lines).Failed?
  {
    if Decode(lines[0]).Some? {
      DecodedLength(lines[0]);
    }
  }

  lemma BadHeaderFails(e: Engine, bytes: seq<Byte>, k: nat)
    requires k < 3 && (|Lines(bytes)| <= k || BadLine(Lines(bytes)[k]))
    ensures ImportBytes(e, bytes).Rejected?
  {
    var lines := Lines(bytes);
    if |lines| >= 3 && Decode(lines[0]).Some? && Decode(lines[1]).Some? && Decode(lines[2]).Some? {
      DecodedLength(lines[k]);
      LongHeaderFails(Decode(lines[0]).value, Decode(lines[1]).value, Decode(lines[2]).value, k);
    }
  }

  lemma LongHeaderFails(first: string, second: string, third: string, k: nat)
    requires k < 3 && ByteLength(if k == 0 then first else if k == 1 then second else third) > LIMIT
    ensures CheckHeader(first, second, third).None?
  {
    BytesPerChar(FORMAT_LINE);
    assert |FORMAT_LINE| == 23;
  }

  lemma RoundOfText(f: (State, seq<Byte>, string) -> Fed, st: State, lines: seq<seq<Byte>>, text: string,
                    rest: seq<seq<Byte>>)
    requires lines != [] && Decode(lines[0]) == Some(text) && lines[1..] == rest
    ensures var fed := f(st, lines[0], text);
            && (fed.Failed? ==> ByteRounds(f, st, lines).Failed?)
            && (fed.Footer? ==> ByteRounds(f, st, lines) == if rest == [] then fed else Failed)
            && (fed.Continue? ==> ByteRounds(f, st, lines) == ByteRounds(f, fed.state, rest))
  {
  }

  /** The loop over statements, up to and including the footer and the check that nothing follows. */
  method ImportBody(e: Engine, source: Source, start: State, schema: string) returns (r: Option<Outcome>)
    modifies source
    ensures r.Some? ==> r.value == Conclude(e, ByteRounds(RawFeeder(e), start, Lines(old(source.rest))), schema)
    ensures source.failed <==> old(source.failed) || r.None?
  {
    var st := start;
    ghost var goal := ByteRounds(RawFeeder(e), start, Lines(source.rest));
    while true
      invariant ByteRounds(RawFeeder(e), st, Lines(source.rest)) == goal && source.failed == old(source.failed)
      decreases |source.rest|
    {
      ghost var lines := Lines(source.rest);
      var t := NextText(source);
      match t {
        case Unreadable => return None;
        case End => return Some(Rejected);
        case Malformed =>
          BadLineFails(e, st, lines);
          return Some(Rejected);
        case Text(raw, text) =>
          RoundOfText(RawFeeder(e), st, lines, text, Lines(source.rest));
          var fed := Feed(e, st, raw, text);
          match fed {
            case Failed => return Some(Rejected);
            case Continue(next) => st := next;
            case Footer(last, digest) =>
              var trailing := ReadLine(source, LIMIT);
              if trailing.ReadFailed? {
                return None;
              }
              if trailing != Line([]) {
                return Some(Rejected);
              }
              return Some(Conclude(e, fed, schema));
          }
      }
    }
  }

  /** Three lines decoded from the front of the input lead to the loop over the rest. */
  lemma HeaderRead(e: Engine, bytes: seq<Byte>, lines: seq<seq<Byte>>, a: string, b: string, c: string)
    requires |Lines(bytes)| >= 3 && Lines(bytes)[3..] == lines
    requires Decode(Lines(bytes)[0]) == Some(a) && Decode(Lines(bytes)[1]) == Some(b)
             && Decode(Lines(bytes)[2]) == Some(c)
    ensures CheckHeader(a, b, c).None? ==> ImportBytes(e, bytes).Rejected?
    ensures CheckHeader(a, b, c).Some? ==>
              ImportBytes(e, bytes) ==
                Conclude(e, ByteRounds(RawFeeder(e), Start(Lines(bytes)[0] + Lines(bytes)[1] + Lines(bytes)[2]), lines),
                         CheckHeader(a, b, c).value)
  {
  }

  /** One header line: its text, or the reason to stop. */
  method HeaderText(e: Engine, source: Source, ghost bytes: seq<Byte>, ghost k: nat) returns (t: Input)
    requires k < 3 && k <= |Lines(bytes)| && Lines(bytes)[k..] == Lines(source.rest)
    modifies source
    ensures t.Text? ==> k < |Lines(bytes)| && t.raw == Lines(bytes)[k] && Decode(t.raw) == Some(t.text)
                        && Lines(bytes)[k + 1..] == Lines(source.rest)
    ensures t.End? || t.Malformed? ==> ImportBytes(e, bytes).Rejected?
    ensures source.failed <==> old(source.failed) || t.Unreadable?
  {
    ghost var lines := Lines(bytes);
    ghost var rest := Lines(source.rest);
    t := NextText(source);
    assert rest != [] ==> k < |lines| && lines[k] == rest[0] && lines[k + 1..] == rest[1..];
    if t.End? || t.Malformed? {
      BadHeaderFails(e, bytes, k);
    }
  }

  /** `import_sql_dump`: unless reading fails, the outcome is the one the bytes determine, however
      the input is buffered. */
  method ImportDump(e: Engine, source: Source) returns (r: Option<Outcome>)
    modifies source
    ensures r.Some? ==> r.value == ImportBytes(e, old(source.rest))
    ensures source.failed <==> old(source.failed) || r.None?
  {
    ghost var bytes := source.rest;
    assert Lines(bytes)[0..] == Lines(bytes);
    var a := HeaderText(e, source, bytes, 0);
    if !a.Text? {
      return if a.Unreadable? then None else Some(Rejected);
    }
    var b := HeaderText(e, source, bytes, 1);
    if !b.Text? {
      return if b.Unreadable? then None else Some(Rejected);
    }
    var c := HeaderText(e, source, bytes, 2);
    if !c.Text? {
      return if c.Unreadable? then None else Some(Rejected);
    }
    HeaderRead(e, bytes, Lines(source.rest), a.text, b.text, c.text);
    var schema := CheckHeader(a.text, b.text, c.text);
    if schema.None? {
      return Some(Rejected);
    }
    r := ImportBody(e, source, Start(a.raw + b.raw + c.raw), schema.value);
  }
}
