/** Row rendering and INSERT batching of an export (src/sql_dump.rs:687-773). */
module DumpRows {
  import opened Common
  import opened SqlLexer

  const MAX_DUMP_STATEMENT_BYTES: nat := 256 * 1024 * 1024
  const TARGET_INSERT_BYTES: nat := 4 * 1024 * 1024
  const TARGET_INSERT_ROWS: nat := 256

  function Join(parts: seq<string>): string {
    if parts == [] then []
    else if |parts| == 1 then parts[0]
    else Join(parts[..|parts| - 1]) + ", " + parts[|parts| - 1]
  }

  /** An INSERT before its terminator. */
  function InsertText(prefix: string, batch: seq<string>): string {
    prefix + Join(batch)
  }

  function Emitted(prefix: string, batches: seq<seq<string>>): string {
    if batches == [] then []
    else Emitted(prefix, batches[..|batches| - 1]) + (InsertText(prefix, batches[|batches| - 1]) + ";\n")
  }

  function Flatten(batches: seq<seq<string>>): seq<string> {
    if batches == [] then [] else Flatten(batches[..|batches| - 1]) + batches[|batches| - 1]
  }

  lemma {:induction false} ByteLengthOfConcat(a: string, b: string)
    ensures ByteLength(a + b) == ByteLength(a) + ByteLength(b)
    decreases |a|
  {
    if a == [] {
      assert a + b == b;
    } else {
      assert (a + b)[1..] == a[1..] + b;
      ByteLengthOfConcat(a[1..], b);
    }
  }

  lemma SeparatorLength()
    ensures ByteLength(", ") == 2 && ByteLength("(") == 1
  {
    assert ", "[1..] == " " && " "[1..] == "" && "("[1..] == "";
  }

  lemma JoinStep(prefix: string, batch: seq<string>, row: string)
    ensures InsertText(prefix, batch + [row]) ==
              if batch == [] then prefix + row else InsertText(prefix, batch) + ", " + row
    ensures ByteLength(InsertText(prefix, batch + [row])) ==
              (if batch == [] then ByteLength(prefix) else ByteLength(InsertText(prefix, batch)) + 2) + ByteLength(row)
  {
    var longer := batch + [row];
    SeparatorLength();
    if batch == [] {
      ByteLengthOfConcat(prefix, row);
    } else {
      assert longer[..|longer| - 1] == batch && longer[|longer| - 1] == row;
      var text := InsertText(prefix, batch);
      assert InsertText(prefix, longer) == text + ", " + row;
      ByteLengthOfConcat(text, ", ");
      ByteLengthOfConcat(text + ", ", row);
    }
  }

  // ---------------------------------------------------------------- one row

  /** Every value of the row could be rendered. */
  predicate AllRendered(values: seq<Option<string>>) {
    forall i :: 0 <= i < |values| ==> values[i].Some?
  }

  function Texts(values: seq<Option<string>>): seq<string>
    requires AllRendered(values)
  {
    seq(|values|, i requires 0 <= i < |values| => values[i].value)
  }

  /** The row's values alone fit the statement budget. */
  predicate RowFits(values: seq<Option<string>>)
    requires AllRendered(values)
  {
    values != [] ==> ByteLength(InsertText("(", Texts(values))) <= 268_435_456
  }

  /** `append_row`, where a value that cannot be rendered is None: it fails exactly when the row's
      width is not the descriptor's, a value cannot be rendered or the values exceed the budget. */
  method AppendRow(values: seq<Option<string>>, width: nat) returns (r: Result<string>)
    ensures r.Ok? <==> |values| == width && AllRendered(values) && RowFits(values)
    ensures r.Ok? ==> r.value == InsertText("(", Texts(values)) + ")"
  {
    if |values| != width {
      return Err;
    }
    var row := "(";
    for i := 0 to |values|
      invariant AllRendered(values[..i]) && row == InsertText("(", Texts(values[..i]))
      invariant i > 0 ==> ByteLength(row) <= MAX_DUMP_STATEMENT_BYTES
    {
      if values[i].None? {
        return Err;
      }
      AppendStep(values, i);
      row := (if i > 0 then row + ", " else row) + values[i].value;
      if ByteLength(row) > MAX_DUMP_STATEMENT_BYTES {
        TooBigAlready(values, i + 1);
        return Err;
      }
    }
    assert values[..|values|] == values;
    return Ok(row + ")");
  }

  lemma AppendStep(values: seq<Option<string>>, i: nat)
    requires i < |values| && AllRendered(values[..i]) && values[i].Some?
    ensures AllRendered(values[..i + 1])
    ensures InsertText("(", Texts(values[..i + 1])) ==
              (if i > 0 then InsertText("(", Texts(values[..i])) + ", " else InsertText("(", Texts(values[..i])))
              + values[i].value
  {
    assert values[..i + 1] == values[..i] + [values[i]];
    JoinStep("(", Texts(values[..i]), values[i].value);
    assert Texts(values[..i + 1]) == Texts(values[..i]) + [values[i].value];
  }

  lemma TooBigAlready(values: seq<Option<string>>, k: nat)
    requires 0 < k <= |values| && AllRendered(values[..k])
    requires ByteLength(InsertText("(", Texts(values[..k]))) > MAX_DUMP_STATEMENT_BYTES
    ensures AllRendered(values) ==> !RowFits(values)
  {
    if AllRendered(values) {
      PrefixIsShorter("(", Texts(values), k);
      assert Texts(values)[..k] == Texts(values[..k]);
    }
  }

  lemma {:induction false} PrefixIsShorter(prefix: string, values: seq<string>, k: nat)
    requires k <= |values|
    ensures ByteLength(InsertText(prefix, values[..k])) <= ByteLength(InsertText(prefix, values))
    decreases |values| - k
  {
    if k == |values| {
      assert values[..k] == values;
    } else {
      JoinStep(prefix, values[..k], values[k]);
      assert values[..k + 1] == values[..k] + [values[k]];
      assert k == 0 ==> InsertText(prefix, values[..k]) == prefix;
      PrefixIsShorter(prefix, values, k + 1);
    }
  }

  // ---------------------------------------------------------------- batches

  /** A batch the exporter may emit: at most 256 rows, and within the byte target unless a single row. */
  predicate GoodBatch(prefix: string, batch: seq<string>) {
    && 0 < |batch| <= 256
    && (|batch| > 1 ==> ByteLength(InsertText(prefix, batch)) <= 4_194_304)
    && ByteLength(InsertText(prefix, batch)) <= 268_435_456
  }

  /** Ending the batch before `next` was forced by one of the two limits. */
  predicate ForcedSplit(prefix: string, batch: seq<string>, next: string) {
    |batch| >= 256 || ByteLength(InsertText(prefix, batch + [next])) > 4_194_304
  }

  predicate TooBig(prefix: string, row: string) {
    ByteLength(prefix) + ByteLength(row) > 268_435_456
  }

  /** Batches that keep all rows in order, each as full as the limits allow. */
  ghost predicate Batching(prefix: string, rows: seq<string>, batches: seq<seq<string>>) {
    && Flatten(batches) == rows
    && (forall k :: 0 <= k < |batches| ==> GoodBatch(prefix, batches[k]))
    && (forall k :: SplitIsForced(prefix, batches, k))
  }

  predicate SplitIsForced(prefix: string, batches: seq<seq<string>>, k: int) {
    0 <= k < |batches| - 1 ==> batches[k + 1] != [] && ForcedSplit(prefix, batches[k], batches[k + 1][0])
  }

  /** Rows put into one more batch after a forced split. */
  lemma SplitStep(prefix: string, rows: seq<string>, batches: seq<seq<string>>, current: seq<string>, row: string)
    requires Batching(prefix, rows, batches + [current]) && current != [] && ForcedSplit(prefix, current, row)
    requires !TooBig(prefix, row)
    ensures Batching(prefix, rows + [row], batches + [current] + [[row]])
  {
    JoinStep(prefix, [], row);
    var more := batches + [current] + [[row]];
    assert more[..|more| - 1] == batches + [current];
    forall k ensures SplitIsForced(prefix, more, k) {
      assert SplitIsForced(prefix, batches + [current], k);
    }
  }

  lemma GrowStep(prefix: string, rows: seq<string>, batches: seq<seq<string>>, current: seq<string>, row: string)
    requires Batching(prefix, rows, batches + [current]) && current != [] && !ForcedSplit(prefix, current, row)
    ensures Batching(prefix, rows + [row], batches + [current + [row]])
  {
    var before, after := batches + [current], batches + [current + [row]];
    assert before[..|before| - 1] == batches && after[..|after| - 1] == batches;
    assert before[|batches|] == current;
    forall k | 0 <= k < |after| ensures GoodBatch(prefix, after[k]) {
      if k < |batches| {
        assert after[k] == before[k];
      }
    }
    forall k ensures SplitIsForced(prefix, after, k) {
      assert SplitIsForced(prefix, before, k);
    }
  }

  lemma FirstRow(prefix: string, row: string)
    requires !TooBig(prefix, row)
    ensures Batching(prefix, [row], [] + [[row]])
  {
    JoinStep(prefix, [], row);
    var one := [] + [[row]];
    assert [] + [row] == [row];
    assert Flatten(one) == [row] by {
      assert one[..|one| - 1] == [] && one[|one| - 1] == [row];
    }
    assert GoodBatch(prefix, [row]);
  }

  /** What the exporter has written and what it still holds, after `rows`. */
  ghost predicate Exporting(prefix: string, rows: seq<string>, batches: seq<seq<string>>, current: seq<string>,
                            out: string, statement: string) {
    && out == Emitted(prefix, batches)
    && (if current == [] then rows == [] && batches == [] && statement == []
        else Batching(prefix, rows, batches + [current]) && statement == InsertText(prefix, current))
  }

  predicate Flushes(current: seq<string>, statement: string, row: string) {
    current != [] && (|current| >= TARGET_INSERT_ROWS
                      || ByteLength(statement) + 2 + ByteLength(row) > TARGET_INSERT_BYTES)
  }

  /** One visited row: flush if forced, then start or extend the statement. */
  lemma VisitRow(prefix: string, rows: seq<string>, batches: seq<seq<string>>, current: seq<string>,
                 out: string, statement: string, row: string)
    requires Exporting(prefix, rows, batches, current, out, statement)
    ensures var flush := Flushes(current, statement, row);
            var next := (if flush || current == [] then prefix else statement + ", ") + row;
            && (ByteLength(next) > MAX_DUMP_STATEMENT_BYTES <==> TooBig(prefix, row))
            && (!TooBig(prefix, row) ==>
                  Exporting(prefix, rows + [row], if flush then batches + [current] else batches,
                            (if flush then [] else current) + [row],
                            if flush then out + (statement + ";\n") else out, next))
  {
    JoinStep(prefix, current, row);
    JoinStep(prefix, [], row);
    assert [] + [row] == [row];
    if Flushes(current, statement, row) {
      var more := batches + [current];
      assert more[..|more| - 1] == batches && more[|more| - 1] == current;
      if !TooBig(prefix, row) {
        SplitStep(prefix, rows, batches, current, row);
      }
    } else if current != [] {
      ByteLengthOfConcat(prefix, Join(current));
      GrowStep(prefix, rows, batches, current, row);
      var grown := batches + [current + [row]];
      assert grown[|batches|] == current + [row] && GoodBatch(prefix, grown[|batches|]);
    } else if !TooBig(prefix, row) {
      FirstRow(prefix, row);
    }
  }

  lemma LastFlush(prefix: string, rows: seq<string>, batches: seq<seq<string>>, current: seq<string>, out: string,
                  statement: string)
    requires Exporting(prefix, rows, batches, current, out, statement)
    ensures current != [] ==> Batching(prefix, rows, batches + [current])
                              && out + (statement + ";\n") == Emitted(prefix, batches + [current])
    ensures current == [] ==> Batching(prefix, rows, batches) && out == Emitted(prefix, batches)
  {
    var more := batches + [current];
    assert more[..|more| - 1] == batches && more[|more| - 1] == current;
  }

  /** `write_table_rows`: on success the rows are all written, in order, in greedily filled batches,
      and the statement and row counts are exact; it fails exactly on a row too big for a statement. */
  method WriteTableRows(prefix: string, rows: seq<string>)
    returns (ok: bool, out: string, statements: nat, count: nat, ghost batches: seq<seq<string>>)
    ensures ok <==> forall i :: 0 <= i < |rows| ==> !TooBig(prefix, rows[i])
    ensures ok ==> Batching(prefix, rows, batches) && out == Emitted(prefix, batches)
    ensures ok ==> statements == |batches| && count == |rows|
  {
    ok, out, statements, count, batches := true, [], 0, 0, [];
    var statement, batchRows := "", 0;
    ghost var current: seq<string> := [];
    for i := 0 to |rows|
      invariant forall j :: 0 <= j < i ==> !TooBig(prefix, rows[j])
      invariant Exporting(prefix, rows[..i], batches, current, out, statement)
      invariant batchRows == |current| && statements == |batches| && count == i && ok
    {
      var row := rows[i];
      VisitRow(prefix, rows[..i], batches, current, out, statement, row);
      assert rows[..i + 1] == rows[..i] + [row];
      if batchRows > 0 && (batchRows >= TARGET_INSERT_ROWS
                           || ByteLength(statement) + 2 + ByteLength(row) > TARGET_INSERT_BYTES) {
        out, statements := out + (statement + ";\n"), statements + 1;
        statement, batchRows := "", 0;
        batches, current := batches + [current], [];
      }
      statement := (if batchRows == 0 then prefix else statement + ", ") + row;
      if ByteLength(statement) > MAX_DUMP_STATEMENT_BYTES {
        ok := false;
        return;
      }
      batchRows, count := batchRows + 1, count + 1;
      current := current + [row];
    }
    assert rows[..|rows|] == rows;
    LastFlush(prefix, rows, batches, current, out, statement);
    if batchRows != 0 {
      out, statements := out + (statement + ";\n"), statements + 1;
      batches := batches + [current];
    }
  }
}
