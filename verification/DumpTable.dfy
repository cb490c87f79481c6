/** From a table's rows to framed statements: rendering, batching and lexing put together. */
module DumpTable {
  import opened Common
  import opened SqlLexer
  import opened TextLiteral
  import opened DumpStatement
  import opened DumpRows
  import opened DumpInsert
  import opened DumpReader
  import opened DumpCounts
  import opened DumpImport
  import opened DumpRoundTrip
  import opened Utf8

  function RowTexts(rows: seq<seq<Value>>): seq<string> {
    seq(|rows|, i requires 0 <= i < |rows| => RowText(rows[i]))
  }

  /** The statements a list of batches is written as. */
  function Statements(prefix: string, batches: seq<seq<string>>): seq<string> {
    seq(|batches|, i requires 0 <= i < |batches| => InsertText(prefix, batches[i]) + ";\n")
  }

  /** Batch `k` holds consecutive rows. */
  lemma {:induction false} BatchIsSlice(batches: seq<seq<string>>, k: nat)
    requires k < |batches|
    ensures exists i, j :: 0 <= i <= j <= |Flatten(batches)| && batches[k] == Flatten(batches)[i..j]
    decreases |batches|
  {
    var n := |batches| - 1;
    var before := Flatten(batches[..n]);
    if k == n {
      var i, j := |before|, |Flatten(batches)|;
      assert 0 <= i <= j <= |Flatten(batches)| && batches[k] == Flatten(batches)[i..j];
    } else {
      BatchIsSlice(batches[..n], k);
      var i, j :| 0 <= i <= j <= |before| && batches[..n][k] == before[i..j];
      assert batches[k] == Flatten(batches)[i..j];
    }
  }

  lemma {:induction false} ConcatSnoc(a: seq<string>, b: string)
    ensures Concat(a + [b]) == Concat(a) + b
    decreases |a|
  {
    if a == [] {
      assert [b][1..] == [] && a + [b] == [b];
    } else {
      assert (a + [b])[1..] == a[1..] + [b];
      ConcatSnoc(a[1..], b);
    }
  }

  lemma {:induction false} EmittedIsConcat(prefix: string, batches: seq<seq<string>>)
    ensures Emitted(prefix, batches) == Concat(Statements(prefix, batches))
    decreases |batches|
  {
    if batches != [] {
      var n := |batches| - 1;
      EmittedIsConcat(prefix, batches[..n]);
      ConcatSnoc(Statements(prefix, batches[..n]), InsertText(prefix, batches[n]) + ";\n");
      assert Statements(prefix, batches) == Statements(prefix, batches[..n]) + [InsertText(prefix, batches[n]) + ";\n"];
    }
  }

  lemma BatchFrames(u: Unicode, table: string, columns: seq<string>, rows: seq<seq<Value>>, batch: seq<string>, i: nat,
                    j: nat)
    requires GoodNames(table, columns) && (forall r :: 0 <= r < |rows| ==> GoodRow(rows[r]))
    requires i <= j <= |rows| && batch == RowTexts(rows)[i..j] && batch != []
    ensures Framed(u, InsertText(InsertPrefix(table, columns), batch) + ";\n")
  {
    var part := rows[i..j];
    assert Batches(batch, part);
    InsertIsFramed(u, table, columns, part, batch);
  }

  /** Whatever a table's values contain, as long as their text is lexically safe, the exporter's
      batches are statements that the importer frames one by one, and nothing else is written. */
  lemma ExportedTableFrames(e: Engine, u: Unicode, table: string, columns: seq<string>, rows: seq<seq<Value>>,
                            batches: seq<seq<string>>)
    requires UsesLexer(e, u) && GoodNames(table, columns) && (forall r :: 0 <= r < |rows| ==> GoodRow(rows[r]))
    requires Batching(InsertPrefix(table, columns), RowTexts(rows), batches)
    ensures var statements := Statements(InsertPrefix(table, columns), batches);
            && Emitted(InsertPrefix(table, columns), batches) == Concat(statements)
            && forall k :: 0 <= k < |statements| ==> Frames(e, statements[k])
  {
    var prefix := InsertPrefix(table, columns);
    EmittedIsConcat(prefix, batches);
    forall k | 0 <= k < |batches| ensures Frames(e, InsertText(prefix, batches[k]) + ";\n") {
      assert GoodBatch(prefix, batches[k]);
      BatchIsSlice(batches, k);
      var i, j :| 0 <= i <= j <= |Flatten(batches)| && batches[k] == Flatten(batches)[i..j];
      BatchFrames(u, table, columns, rows, batches[k], i, j);
      FramedFrames(e, u, InsertText(prefix, batches[k]) + ";\n");
    }
  }

  // ---------------------------------------------------------------- the rows that the statements hold

  /** The rows that a list of INSERT statements adds to the table, in order. */
  function ReadTable(floats: seq<bool>, table: string, columns: seq<string>, statements: seq<string>):
      Option<seq<seq<Value>>>
  {
    if statements == [] then Some([])
    else
      match (ReadTable(floats, table, columns, statements[..|statements| - 1]),
             ReadStatement(floats, statements[|statements| - 1]))
      case (Some(rows), Some(Insert(t, c, more))) => if t == table && c == columns then Some(rows + more) else None
      case _ => None
  }

  lemma {:induction false} BatchesReadBack(floats: seq<bool>, table: string, columns: seq<string>,
                                           rows: seq<seq<Value>>, batches: seq<seq<string>>)
    requires GoodNames(table, columns) && ReadableRows(floats, rows) && Flatten(batches) == RowTexts(rows)
    requires forall k :: 0 <= k < |batches| ==> batches[k] != []
    ensures ReadTable(floats, table, columns, Statements(InsertPrefix(table, columns), batches)) == Some(rows)
    decreases |batches|
  {
    var prefix := InsertPrefix(table, columns);
    if batches == [] {
      assert |RowTexts(rows)| == 0;
    } else {
      var n := |batches| - 1;
      var i := LastBatch(rows, batches);
      SomeRows(floats, rows, i);
      BatchesReadBack(floats, table, columns, rows[..i], batches[..n]);
      LastStatements(prefix, batches);
      LastBatchReads(floats, table, columns, Statements(prefix, batches[..n]), batches[n], rows[..i], rows[i..]);
      assert rows == rows[..i] + rows[i..];
    }
  }

  lemma LastStatements(prefix: string, batches: seq<seq<string>>)
    requires batches != []
    ensures var n := |batches| - 1;
            Statements(prefix, batches) == Statements(prefix, batches[..n]) + [InsertText(prefix, batches[n]) + ";\n"]
  {
  }

  lemma LastBatch(rows: seq<seq<Value>>, batches: seq<seq<string>>) returns (i: nat)
    requires batches != [] && Flatten(batches) == RowTexts(rows) && batches[|batches| - 1] != []
    ensures i < |rows| && Flatten(batches[..|batches| - 1]) == RowTexts(rows[..i])
    ensures Batches(batches[|batches| - 1], rows[i..])
  {
    var n := |batches| - 1;
    i := |Flatten(batches[..n])|;
    assert |rows| == |RowTexts(rows)| == i + |batches[n]|;
    assert RowTexts(rows)[..i] == Flatten(batches[..n]) && RowTexts(rows)[i..] == batches[n];
    assert RowTexts(rows[..i]) == RowTexts(rows)[..i] && RowTexts(rows[i..]) == RowTexts(rows)[i..];
  }

  lemma LastBatchReads(floats: seq<bool>, table: string, columns: seq<string>, statements: seq<string>,
                       batch: seq<string>, rows: seq<seq<Value>>, more: seq<seq<Value>>)
    requires GoodNames(table, columns) && ReadableRows(floats, more) && more != [] && Batches(batch, more)
    requires ReadTable(floats, table, columns, statements) == Some(rows)
    ensures ReadTable(floats, table, columns,
                      statements + [InsertText(InsertPrefix(table, columns), batch) + ";\n"]) == Some(rows + more)
  {
    InsertReadsBack(floats, table, columns, more, batch);
    LastStatement(floats, table, columns, statements, InsertText(InsertPrefix(table, columns), batch) + ";\n", rows,
                  more);
  }

  lemma SomeRows(floats: seq<bool>, rows: seq<seq<Value>>, i: nat)
    requires ReadableRows(floats, rows) && i <= |rows|
    ensures ReadableRows(floats, rows[..i]) && ReadableRows(floats, rows[i..])
  {
  }

  lemma LastStatement(floats: seq<bool>, table: string, columns: seq<string>, statements: seq<string>, last: string,
                      rows: seq<seq<Value>>, more: seq<seq<Value>>)
    requires ReadTable(floats, table, columns, statements) == Some(rows)
    requires ReadStatement(floats, last) == Some(Insert(table, columns, more))
    ensures ReadTable(floats, table, columns, statements + [last]) == Some(rows + more)
  {
    assert (statements + [last])[..|statements|] == statements;
  }

  /** Whatever way the exporter cuts a table's rows into statements, the statements hold exactly those
      rows, in order, value by value. */
  lemma ExportedRowsReadBack(floats: seq<bool>, table: string, columns: seq<string>, rows: seq<seq<Value>>,
                             batches: seq<seq<string>>)
    requires GoodNames(table, columns) && ReadableRows(floats, rows)
    requires Batching(InsertPrefix(table, columns), RowTexts(rows), batches)
    ensures ReadTable(floats, table, columns, Statements(InsertPrefix(table, columns), batches)) == Some(rows)
  {
    forall k | 0 <= k < |batches| ensures batches[k] != [] {
      assert GoodBatch(InsertPrefix(table, columns), batches[k]);
    }
    BatchesReadBack(floats, table, columns, rows, batches);
  }

  // ---------------------------------------------------------------- from rows to the imported database

  /** The exporter checks the budget before it appends the terminator, the importer after. */
  lemma TerminatorAddsTwo(prefix: string, batch: seq<string>)
    ensures ByteLength(InsertText(prefix, batch) + ";\n") == ByteLength(InsertText(prefix, batch)) + 2
  {
    ByteLengthOfConcat(InsertText(prefix, batch), ";\n");
    assert ";\n"[1..] == "\n" && "\n"[1..] == "";
  }

  /** Every batch leaves room in the budget for its terminator. */
  predicate FitsImport(prefix: string, batches: seq<seq<string>>) {
    forall k :: 0 <= k < |batches| ==> ByteLength(InsertText(prefix, batches[k])) + 2 <= MAX_DUMP_STATEMENT_BYTES
  }

  lemma FitsExactly(prefix: string, batches: seq<seq<string>>)
    ensures AllFit(Statements(prefix, batches)) <==> FitsImport(prefix, batches)
  {
    forall k | 0 <= k < |batches|
      ensures ByteLength(Statements(prefix, batches)[k]) == ByteLength(InsertText(prefix, batches[k])) + 2
    {
      TerminatorAddsTwo(prefix, batches[k]);
    }
  }

  /** A dump with one table's rows among other framed statements. */
  function TableDump(before: seq<string>, prefix: string, batches: seq<seq<string>>, after: seq<string>): seq<string> {
    before + Statements(prefix, batches) + after
  }

  lemma DumpParts(e: Engine, before: seq<string>, middle: seq<string>, after: seq<string>)
    requires AllFrame(e, before) && AllFrame(e, middle) && AllFrame(e, after)
    ensures AllFrame(e, before + middle + after)
    ensures AllFit(before + middle + after) <==> AllFit(before) && AllFit(middle) && AllFit(after)
  {
    PartsFit(before, middle);
    PartsFit(before + middle, after);
    forall i | 0 <= i < |before + middle + after| ensures Frames(e, (before + middle + after)[i]) {
      if i < |before| {
        assert (before + middle + after)[i] == before[i];
      } else if i < |before| + |middle| {
        assert (before + middle + after)[i] == middle[i - |before|];
      } else {
        assert (before + middle + after)[i] == after[i - |before| - |middle|];
      }
    }
  }

  lemma PartsFit(a: seq<string>, b: seq<string>)
    ensures AllFit(a + b) <==> AllFit(a) && AllFit(b)
  {
    assert forall i :: 0 <= i < |a| ==> (a + b)[i] == a[i];
    assert forall i :: 0 <= i < |b| ==> (a + b)[|a| + i] == b[i];
  }

  /** A dump of one table's rows among other framed statements, in the form an export writes. */
  ghost predicate Exported(e: Engine, u: Unicode, version: string, schema: string, before: seq<string>, prefix: string,
                           batches: seq<seq<string>>, after: seq<string>, counts: Counts)
  {
    && UsesLexer(e, u) && AllFrame(e, before) && AllFrame(e, after)
    && Presentable(e, version, schema, TableDump(before, prefix, batches, after), counts)
  }

  /** From a table's rows to the imported database: whatever the values contain, as long as their
      text is lexically safe, the dump that holds the exported batches imports back exactly if every
      batch leaves room in the budget for its terminator, the other statements fit, and the database
      takes all of them and ends with the stated counts and fingerprint. Otherwise it is rejected. */
  lemma TableRoundTrip(e: Engine, u: Unicode, version: string, schema: string, before: seq<string>, table: string,
                       columns: seq<string>, rows: seq<seq<Value>>, batches: seq<seq<string>>, after: seq<string>,
                       counts: Counts)
    requires GoodNames(table, columns) && (forall r :: 0 <= r < |rows| ==> GoodRow(rows[r]))
    requires Batching(InsertPrefix(table, columns), RowTexts(rows), batches)
    requires Exported(e, u, version, schema, before, InsertPrefix(table, columns), batches, after, counts)
    ensures var prefix := InsertPrefix(table, columns);
            var statements := TableDump(before, prefix, batches, after);
            var start := Start(Encode(Header(version, schema)));
            ImportBytes(e, Encode(Dump(e, version, schema, statements, counts))) ==
              if FitsImport(prefix, batches) && AllFit(before) && AllFit(after)
                 && Executable(e, start, statements) && Counted(e, schema, start, statements, counts)
              then Imported(statements, counts, Checksum(e, version, schema, statements, counts))
              else Rejected
  {
    var prefix := InsertPrefix(table, columns);
    var middle := Statements(prefix, batches);
    ExportedTableFrames(e, u, table, columns, rows, batches);
    assert AllFrame(e, middle);
    DumpParts(e, before, middle, after);
    FitsExactly(prefix, batches);
    ImportDecides(e, version, schema, TableDump(before, prefix, batches, after), counts);
  }

  // ---------------------------------------------------------------- a row that exports and does not import

  function Letters(n: nat): string {
    if n == 0 then [] else "a" + Letters(n - 1)
  }

  lemma {:induction false} LettersAreSafe(n: nat)
    ensures LexSafe(Letters(n)) && ByteLength(Letters(n)) == n && Doubled('\'', Letters(n)) == Letters(n)
  {
    if n > 0 {
      LettersAreSafe(n - 1);
      assert Letters(n)[1..] == Letters(n - 1);
    }
  }

  lemma QuotedLetters(n: nat)
    ensures ByteLength(QuoteText(Letters(n))) == n + 2
    ensures n + 2 <= MAX_LITERAL_BYTES ==> GoodValue(Chars(Letters(n)))
  {
    LettersAreSafe(n);
    ByteLengthOfConcat("'" + Letters(n), "'");
    ByteLengthOfConcat("'", Letters(n));
    assert "'"[1..] == "";
  }

  function Copies(n: nat, v: Value): seq<Value> {
    if n == 0 then [] else Copies(n - 1, v) + [v]
  }

  function Rendered(values: seq<Value>): seq<string> {
    seq(|values|, i requires 0 <= i < |values| => RenderValue(values[i]))
  }

  /** The bytes of a row before its closing parenthesis. */
  function RowBytes(values: seq<Value>): nat {
    ByteLength(InsertText("(", Rendered(values)))
  }

  lemma OneMoreValue(values: seq<Value>, v: Value)
    ensures RowBytes(values + [v]) == (if values == [] then 1 else RowBytes(values) + 2) + ByteLength(RenderValue(v))
  {
    JoinStep("(", Rendered(values), RenderValue(v));
    SeparatorLength();
    assert Rendered(values + [v]) == Rendered(values) + [RenderValue(v)];
  }

  lemma {:induction false} CopiesMeasure(n: nat, v: Value, size: nat)
    requires n > 0 && GoodValue(v) && ByteLength(RenderValue(v)) == size
    ensures |Copies(n, v)| == n && GoodRow(Copies(n, v))
    ensures RowBytes(Copies(n, v)) == n * (size + 2) - 1
    decreases n
  {
    OneMoreValue(Copies(n - 1, v), v);
    if n > 1 {
      CopiesMeasure(n - 1, v, size);
      OneMoreTime(n, size + 2);
    }
  }

  lemma OneMoreTime(n: int, k: int)
    ensures n * k == (n - 1) * k + k
  {
  }

  lemma RowTextMeasure(values: seq<Value>)
    ensures ByteLength(RowText(values)) == RowBytes(values) + 1
  {
    ByteLengthOfConcat("(" + Join(Rendered(values)), ")");
    assert ")"[1..] == "";
  }

  /** Texts of `m` letters and one of `last` letters; none is too long for the lexer. */
  lemma WideRow(prefix: string, n: nat, m: nat, last: nat) returns (row: seq<Value>)
    requires n > 0 && m + 2 <= MAX_LITERAL_BYTES && last + 2 <= MAX_LITERAL_BYTES
    ensures |row| == n + 1 && GoodRow(row)
    ensures ByteLength(InsertText(prefix, [RowText(row)])) == ByteLength(prefix) + n * (m + 4) + last + 4
  {
    var wide, filler := Chars(Letters(m)), Chars(Letters(last));
    QuotedLetters(m);
    QuotedLetters(last);
    CopiesMeasure(n, wide, m + 2);
    row := Copies(n, wide) + [filler];
    OneMoreValue(Copies(n, wide), filler);
    RowTextMeasure(row);
    JoinStep(prefix, [], RowText(row));
    assert [] + [RowText(row)] == [RowText(row)];
  }

  lemma TightRow(prefix: string) returns (row: seq<Value>)
    requires ByteLength(prefix) <= 6_000_000
    ensures |row| == 33 && GoodRow(row)
    ensures ByteLength(InsertText(prefix, [RowText(row)])) == MAX_DUMP_STATEMENT_BYTES - 1
    ensures Batching(prefix, [RowText(row)], [[RowText(row)]]) && !FitsImport(prefix, [[RowText(row)]])
  {
    row := WideRow(prefix, 32, 8_200_000, MAX_DUMP_STATEMENT_BYTES - 1 - 32 * 8_200_004 - 4 - ByteLength(prefix));
    OneBatch(prefix, RowText(row));
  }

  lemma OneBatch(prefix: string, text: string)
    requires MAX_DUMP_STATEMENT_BYTES - 2 < ByteLength(InsertText(prefix, [text])) <= MAX_DUMP_STATEMENT_BYTES
    ensures Batching(prefix, [text], [[text]]) && !FitsImport(prefix, [[text]])
  {
    JoinStep(prefix, [], text);
    assert [] + [text] == [text] && [] + [[text]] == [[text]];
    FirstRow(prefix, text);
    assert ByteLength(InsertText(prefix, [[text]][0])) + 2 > MAX_DUMP_STATEMENT_BYTES;
  }

  /** Whatever the engine and the rest of the dump, an import of these batches is rejected. */
  ghost predicate Refused(prefix: string, batches: seq<seq<string>>) {
    forall e: Engine, u: Unicode, version: string, schema: string, before: seq<string>, after: seq<string>,
           counts: Counts ::
      Exported(e, u, version, schema, before, prefix, batches, after, counts) ==>
        ImportBytes(e, Encode(Dump(e, version, schema, TableDump(before, prefix, batches, after), counts))).Rejected?
  }

  lemma OversizedIsRefused(table: string, columns: seq<string>, rows: seq<seq<Value>>, batches: seq<seq<string>>)
    requires GoodNames(table, columns) && (forall r :: 0 <= r < |rows| ==> GoodRow(rows[r]))
    requires Batching(InsertPrefix(table, columns), RowTexts(rows), batches)
    requires !FitsImport(InsertPrefix(table, columns), batches)
    ensures Refused(InsertPrefix(table, columns), batches)
  {
    var prefix := InsertPrefix(table, columns);
    forall e: Engine, u: Unicode, version: string, schema: string, before: seq<string>, after: seq<string>,
           counts: Counts | Exported(e, u, version, schema, before, prefix, batches, after, counts)
      ensures ImportBytes(e, Encode(Dump(e, version, schema, TableDump(before, prefix, batches, after),
                                         counts))).Rejected?
    {
      TableRoundTrip(e, u, version, schema, before, table, columns, rows, batches, after, counts);
    }
  }

  /** For every table of 33 columns there is a row that the exporter writes, one byte short of its
      budget, and that every importer refuses, whatever its database. */
  lemma ExportedButNotImportable(table: string, columns: seq<string>) returns (row: seq<Value>)
    requires |columns| == 33 && ByteLength(InsertPrefix(table, columns)) <= 6_000_000
    ensures |row| == 33 && GoodRow(row)
    ensures var prefix := InsertPrefix(table, columns);
            && ByteLength(InsertText(prefix, [RowText(row)])) == MAX_DUMP_STATEMENT_BYTES - 1
            && Batching(prefix, RowTexts([row]), [[RowText(row)]])
            && (GoodNames(table, columns) ==> Refused(prefix, [[RowText(row)]]))
  {
    row := TightRow(InsertPrefix(table, columns));
    assert RowTexts([row]) == [RowText(row)];
    if GoodNames(table, columns) {
      OversizedIsRefused(table, columns, [row], [[RowText(row)]]);
    }
  }
}
