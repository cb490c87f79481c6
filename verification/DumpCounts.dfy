/** The logical counts trailer of a dump (src/sql_dump.rs:848-854, 979-1017). */
module DumpCounts {
  import opened Common
  import opened DumpStatement
  import Decimal

  datatype Counts = Counts(tables: nat, rows: nat, statements: nat)

  function CountsPayload(c: Counts): string {
    "tables=" + Decimal.Digits(c.tables) + (" " + ("rows=" + Decimal.Digits(c.rows)
      + (" " + ("statements=" + Decimal.Digits(c.statements)))))
  }

  function CountsLine(c: Counts): string {
    COUNTS_PREFIX + CountsPayload(c) + "\n"
  }

  // ---------------------------------------------------------------- parsing

  predicate AsciiBlank(c: char) {
    c == ' ' || c == '\t' || c == '\n' || c == '\r' || c as int == 12
  }

  /** `split_ascii_whitespace`, one field at a time. */
  function FieldEnd(s: string): (n: nat)
    ensures n <= |s|
  {
    if s == [] || AsciiBlank(s[0]) then 0 else 1 + FieldEnd(s[1..])
  }

  function Fields(s: string): seq<string>
    decreases |s|
  {
    if s == [] then []
    else if AsciiBlank(s[0]) then Fields(s[1..])
    else
      var n := FieldEnd(s);
      [s[..n]] + Fields(s[n..])
  }

  function Find(s: string, c: char): Option<nat> {
    if s == [] then None
    else if s[0] == c then Some(0)
    else match Find(s[1..], c) case None => None case Some(i) => Some(i + 1)
  }

  /** `parse::<u64>`: an optional plus sign, digits, in range. */
  function ParseU64(s: string): Option<nat> {
    var d := if s != [] && s[0] == '+' then s[1..] else s;
    if d != [] && AllDigits(d) && Decimal.Value(d) <= U64_MAX then Some(Decimal.Value(d)) else None
  }

  /** One `name=value` field added to those read so far; a duplicate or a malformed field fails. */
  function AddField(values: map<string, nat>, field: string): Option<map<string, nat>> {
    match Find(field, '=')
    case None => None
    case Some(i) =>
      if i >= |field| then None
      else
        match ParseU64(field[i + 1..])
        case None => None
        case Some(n) => if field[..i] in values then None else Some(values[field[..i] := n])
  }

  function AddFields(values: map<string, nat>, fields: seq<string>): Option<map<string, nat>>
    decreases |fields|
  {
    if fields == [] then Some(values)
    else match AddField(values, fields[0])
         case None => None
         case Some(more) => AddFields(more, fields[1..])
  }

  function StripCounts(line: string): Option<string> {
    if COUNTS_PREFIX <= line && line != COUNTS_PREFIX && line[|line| - 1] == '\n'
    then Some(line[|COUNTS_PREFIX|..|line| - 1]) else None
  }

  function Named(values: map<string, nat>): Option<Counts> {
    if |values| == 3 && "tables" in values && "rows" in values && "statements" in values
    then Some(Counts(values["tables"], values["rows"], values["statements"])) else None
  }

  function ParseCounts(line: string): Option<Counts> {
    match StripCounts(line)
    case None => None
    case Some(payload) =>
      match AddFields(map[], Fields(payload))
      case None => None
      case Some(values) => Named(values)
  }

  /** `parse_expected_counts` with its loop over the fields. */
  method ParseExpectedCounts(line: string) returns (r: Option<Counts>)
    ensures r == ParseCounts(line)
  {
    var payload := StripCounts(line);
    if payload.None? {
      return None;
    }
    var fields, values := Fields(payload.value), map[];
    for i := 0 to |fields|
      invariant AddFields(values, fields[i..]) == AddFields(map[], fields)
    {
      assert fields[i..][1..] == fields[i + 1..];
      var more := AddField(values, fields[i]);
      if more.None? {
        return None;
      }
      values := more.value;
    }
    r := Named(values);
  }

  // ---------------------------------------------------------------- round trip

  predicate NoBlank(s: string) {
    forall i :: 0 <= i < |s| ==> !AsciiBlank(s[i])
  }

  lemma {:induction false} FieldEnds(a: string, b: string)
    requires NoBlank(a) && (b == [] || AsciiBlank(b[0]))
    ensures FieldEnd(a + b) == |a|
    decreases |a|
  {
    if a == [] {
      assert a + b == b;
    } else {
      assert (a + b)[1..] == a[1..] + b && !AsciiBlank(a[0]);
      FieldEnds(a[1..], b);
    }
  }

  lemma FirstField(a: string, b: string)
    requires NoBlank(a) && a != []
    ensures Fields(a + (" " + b)) == [a] + Fields(b)
    ensures Fields(a) == [a]
  {
    FieldEnds(a, " " + b);
    assert !AsciiBlank(a[0]);
    var s := a + (" " + b);
    assert s[..|a|] == a && s[|a|..] == " " + b && (" " + b)[1..] == b;
    FieldEnds(a, []);
    assert a + [] == a && a[..|a|] == a && a[|a|..] == [];
  }

  lemma {:induction false} FindSkips(a: string, c: char, b: string)
    requires c !in a
    ensures Find(a + ([c] + b), c) == Some(|a|)
    decreases |a|
  {
    var s := a + ([c] + b);
    if a == [] {
      assert s == [c] + b;
    } else {
      assert s[1..] == a[1..] + ([c] + b) && s[0] == a[0] && a[0] in a && a == [a[0]] + a[1..];
      FindSkips(a[1..], c, b);
    }
  }

  lemma ParseDigits(n: nat)
    requires n <= U64_MAX
    ensures ParseU64(Decimal.Digits(n)) == Some(n) && NoBlank(Decimal.Digits(n))
  {
    var d := Decimal.Digits(n);
    Decimal.ValueOfDigits(n);
    assert Digit(d[0]);
    forall i | 0 <= i < |d| ensures !AsciiBlank(d[i]) {
      assert Digit(d[i]);
    }
  }

  lemma AddOne(values: map<string, nat>, name: string, n: nat)
    requires n <= U64_MAX && '=' !in name && NoBlank(name) && name !in values
    ensures var field := name + ("=" + Decimal.Digits(n));
            NoBlank(field) && AddField(values, field) == Some(values[name := n])
  {
    ParseDigits(n);
    AddText(values, name, Decimal.Digits(n), n);
  }

  lemma AddText(values: map<string, nat>, name: string, d: string, n: nat)
    requires '=' !in name && NoBlank(name) && name !in values && ParseU64(d) == Some(n) && NoBlank(d)
    ensures var field := name + ("=" + d);
            NoBlank(field) && AddField(values, field) == Some(values[name := n])
  {
    var field := name + ("=" + d);
    FindSkips(name, '=', d);
    assert field[..|name|] == name && field[|name| + 1..] == d;
  }

  lemma ThreeFields(a: string, b: string, c: string)
    requires NoBlank(a) && NoBlank(b) && NoBlank(c) && a != [] && b != [] && c != []
    ensures Fields(a + (" " + (b + (" " + c)))) == [a, b, c]
  {
    FirstField(a, b + (" " + c));
    FirstField(b, c);
    FirstField(c, "");
  }

  lemma AddThree(x: string, y: string, z: string, c: Counts)
    requires c.tables <= U64_MAX && c.rows <= U64_MAX && c.statements <= U64_MAX
    requires '=' !in x && '=' !in y && '=' !in z && NoBlank(x) && NoBlank(y) && NoBlank(z) && x != y && y != z && x != z
    ensures var a, b, d := x + ("=" + Decimal.Digits(c.tables)), y + ("=" + Decimal.Digits(c.rows)),
            z + ("=" + Decimal.Digits(c.statements));
            && Fields(a + (" " + (b + (" " + d)))) == [a, b, d]
            && AddFields(map[], [a, b, d]) == Some(map[x := c.tables, y := c.rows, z := c.statements])
  {
    var a, b, d := x + ("=" + Decimal.Digits(c.tables)), y + ("=" + Decimal.Digits(c.rows)),
        z + ("=" + Decimal.Digits(c.statements));
    var v1 := map[x := c.tables];
    var v2 := v1[y := c.rows];
    AddOne(map[], x, c.tables);
    AddOne(v1, y, c.rows);
    AddOne(v2, z, c.statements);
    ThreeFields(a, b, d);
    assert [a, b, d][1..] == [b, d] && [b, d][1..] == [d] && [d][1..] == [];
    assert AddFields(v2[z := c.statements], []) == Some(v2[z := c.statements]);
    assert AddFields(v2, [d]) == Some(v2[z := c.statements]);
    assert AddFields(v1, [b, d]) == AddFields(v2, [d]);
  }

  lemma CountNames()
    ensures '=' !in "tables" && '=' !in "rows" && '=' !in "statements"
    ensures NoBlank("tables") && NoBlank("rows") && NoBlank("statements")
    ensures "tables" != "rows" && "rows" != "statements" && "tables" != "statements"
  {
    assert |"tables"| == 6 && |"rows"| == 4 && |"statements"| == 10;
  }

  lemma PayloadText(t: string, r: string, s: string)
    ensures "tables" + ("=" + t) + (" " + ("rows" + ("=" + r) + (" " + ("statements" + ("=" + s))))) ==
            "tables=" + t + (" " + ("rows=" + r + (" " + ("statements=" + s))))
  {
  }

  /** The counts an export writes are the counts an import reads. */
  lemma CountsRoundTrip(c: Counts)
    requires c.tables <= U64_MAX && c.rows <= U64_MAX && c.statements <= U64_MAX
    ensures ParseCounts(CountsLine(c)) == Some(c)
  {
    CountNames();
    AddThree("tables", "rows", "statements", c);
    PayloadText(Decimal.Digits(c.tables), Decimal.Digits(c.rows), Decimal.Digits(c.statements));
    var line := CountsLine(c);
    assert line[|COUNTS_PREFIX|..|line| - 1] == CountsPayload(c);
    var values := map["tables" := c.tables, "rows" := c.rows, "statements" := c.statements];
    assert values.Keys == {"tables", "rows", "statements"};
    assert |values.Keys| == 3;
  }

  // ---------------------------------------------------------------- exactly which lines are counts

  /** Digits, perhaps after a plus sign, that denote `n` within 64 bits. */
  predicate Denotes(s: string, n: nat) {
    n <= 0xffff_ffff_ffff_ffff &&
    ((s != [] && AllDigits(s) && Decimal.Value(s) == n)
     || (|s| > 1 && s[0] == '+' && AllDigits(s[1..]) && Decimal.Value(s[1..]) == n))
  }

  lemma ParseU64Exactly(s: string, n: nat)
    ensures ParseU64(s) == Some(n) <==> Denotes(s, n)
  {
    assert s != [] && s[0] == '+' ==> !AllDigits(s) by {
      assert s != [] && AllDigits(s) ==> Digit(s[0]);
    }
  }

  /** The text is `name=number`. */
  predicate FieldIs(field: string, name: string, n: nat) {
    && '=' !in name && |field| > |name| && field[..|name|] == name && field[|name|] == '='
    && Denotes(field[|name| + 1..], n)
  }

  lemma {:induction false} FindFirst(s: string, c: char)
    ensures match Find(s, c)
            case None => c !in s
            case Some(i) => i < |s| && s[i] == c && c !in s[..i]
    decreases |s|
  {
    if s != [] && s[0] != c {
      FindFirst(s[1..], c);
      assert s == [s[0]] + s[1..];
      if Find(s[1..], c).Some? {
        var i := Find(s[1..], c).value;
        assert s[..i + 1] == [s[0]] + s[1..][..i];
      }
    }
  }

  lemma AddFieldAdds(values: map<string, nat>, field: string, name: string, n: nat)
    requires FieldIs(field, name, n) && name !in values
    ensures AddField(values, field) == Some(values[name := n])
  {
    NameEnds(field, name, n);
    ParseU64Exactly(field[|name| + 1..], n);
  }

  lemma NameEnds(field: string, name: string, n: nat)
    requires FieldIs(field, name, n)
    ensures Find(field, '=') == Some(|name|)
  {
    FindSkips(name, '=', field[|name| + 1..]);
    assert field == name + (['='] + field[|name| + 1..]);
  }

  /** A field that is added is a new name and its number. */
  lemma AddFieldMeans(values: map<string, nat>, field: string) returns (name: string, n: nat)
    requires AddField(values, field).Some?
    ensures FieldIs(field, name, n) && name !in values && AddField(values, field) == Some(values[name := n])
  {
    FindFirst(field, '=');
    var i := Find(field, '=').value;
    name, n := field[..i], ParseU64(field[i + 1..]).value;
    ParseU64Exactly(field[i + 1..], n);
  }

  /** Every field names another value; those of `values` are kept. */
  ghost predicate Adds(values: map<string, nat>, fields: seq<string>, result: map<string, nat>) {
    && |result| == |values| + |fields|
    && (forall name :: name in values ==> name in result && result[name] == values[name])
    && (forall name :: name in result && name !in values ==>
          exists i :: 0 <= i < |fields| && FieldIs(fields[i], name, result[name]))
  }

  lemma {:induction false} AddFieldsMeans(values: map<string, nat>, fields: seq<string>)
    requires AddFields(values, fields).Some?
    ensures Adds(values, fields, AddFields(values, fields).value)
    decreases |fields|
  {
    if fields != [] {
      var name, n := AddFieldMeans(values, fields[0]);
      var more := values[name := n];
      assert more.Keys == values.Keys + {name} && |more| == |values| + 1;
      AddFieldsMeans(more, fields[1..]);
      var result := AddFields(values, fields).value;
      forall x | x in result && x !in values ensures exists i :: 0 <= i < |fields| && FieldIs(fields[i], x, result[x]) {
        if x == name {
          assert FieldIs(fields[0], x, result[x]);
        } else {
          var i :| 0 <= i < |fields[1..]| && FieldIs(fields[1..][i], x, result[x]);
          assert FieldIs(fields[i + 1], x, result[x]);
        }
      }
    }
  }

  lemma ThreeAdded(a: string, x: nat, b: string, y: nat, c: string, z: nat, fields: seq<string>)
    requires |fields| == 3 && FieldIs(fields[0], a, x) && FieldIs(fields[1], b, y) && FieldIs(fields[2], c, z)
    requires a != b && b != c && a != c
    ensures AddFields(map[], fields) == Some(map[a := x, b := y, c := z])
  {
    AddFieldAdds(map[], fields[0], a, x);
    AddFieldAdds(map[a := x], fields[1], b, y);
    AddFieldAdds(map[a := x, b := y], fields[2], c, z);
    assert fields[1..][0] == fields[1] && fields[1..][1..] == fields[2..] && fields[2..][0] == fields[2];
    assert fields[2..][1..] == [];
    assert AddFields(map[a := x, b := y, c := z], []) == Some(map[a := x, b := y, c := z]);
    assert AddFields(map[a := x, b := y], fields[2..]) == Some(map[a := x, b := y, c := z]);
  }

  /** Three fields, each of the three counts among them. */
  ghost predicate FieldsState(fields: seq<string>, c: Counts) {
    && |fields| == 3
    && (exists i :: 0 <= i < 3 && FieldIs(fields[i], "tables", c.tables))
    && (exists i :: 0 <= i < 3 && FieldIs(fields[i], "rows", c.rows))
    && (exists i :: 0 <= i < 3 && FieldIs(fields[i], "statements", c.statements))
  }

  lemma OtherPlace(fields: seq<string>, i: nat, a: string, x: nat, j: nat, b: string, y: nat)
    requires i < |fields| && j < |fields| && FieldIs(fields[i], a, x) && FieldIs(fields[j], b, y) && a != b
    ensures i != j
  {
    NameEnds(fields[i], a, x);
    NameEnds(fields[j], b, y);
  }

  lemma NamedExactly(fields: seq<string>, c: Counts)
    requires FieldsState(fields, c)
    ensures AddFields(map[], fields).Some? && Named(AddFields(map[], fields).value) == Some(c)
  {
    CountNames();
    var i :| 0 <= i < 3 && FieldIs(fields[i], "tables", c.tables);
    var j :| 0 <= j < 3 && FieldIs(fields[j], "rows", c.rows);
    var k :| 0 <= k < 3 && FieldIs(fields[k], "statements", c.statements);
    OtherPlace(fields, i, "tables", c.tables, j, "rows", c.rows);
    OtherPlace(fields, j, "rows", c.rows, k, "statements", c.statements);
    OtherPlace(fields, i, "tables", c.tables, k, "statements", c.statements);
    ThreeInAnyOrder(fields, i, "tables", c.tables, j, "rows", c.rows, k, "statements", c.statements);
    var values := map["tables" := c.tables, "rows" := c.rows, "statements" := c.statements];
    assert values.Keys == {"tables", "rows", "statements"} && |values.Keys| == 3;
  }

  lemma Reordered(a: string, x: nat, b: string, y: nat, c: string, z: nat)
    requires a != b && b != c && a != c
    ensures map[a := x, c := z, b := y] == map[a := x, b := y, c := z]
    ensures map[b := y, a := x, c := z] == map[a := x, b := y, c := z]
  {
  }

  lemma ThreeInAnyOrder(fields: seq<string>, i: nat, a: string, x: nat, j: nat, b: string, y: nat, k: nat, c: string,
                        z: nat)
    requires |fields| == 3 && i < 3 && j < 3 && k < 3 && i != j && j != k && i != k
    requires FieldIs(fields[i], a, x) && FieldIs(fields[j], b, y) && FieldIs(fields[k], c, z)
    requires a != b && b != c && a != c
    ensures AddFields(map[], fields) == Some(map[a := x, b := y, c := z])
    decreases 2 * i + j
  {
    if i > j {
      ThreeInAnyOrder(fields, j, b, y, i, a, x, k, c, z);
      Reordered(a, x, b, y, c, z);
    } else if j > k {
      ThreeInAnyOrder(fields, i, a, x, k, c, z, j, b, y);
      Reordered(a, x, b, y, c, z);
    } else {
      ThreeAdded(a, x, b, y, c, z, fields);
    }
  }

  lemma NamedMeans(fields: seq<string>, c: Counts)
    requires AddFields(map[], fields).Some? && Named(AddFields(map[], fields).value) == Some(c)
    ensures FieldsState(fields, c)
  {
    AddFieldsMeans(map[], fields);
    var values := AddFields(map[], fields).value;
    assert "tables" in values && "rows" in values && "statements" in values;
  }

  /** A line states the counts exactly if it is the prefix, a payload whose three fields are the three
      counts in any order, and a line feed: no field is missing, repeated, unknown or malformed. */
  lemma CountsAreExact(line: string, c: Counts)
    ensures ParseCounts(line) == Some(c) <==>
            var n := |COUNTS_PREFIX|;
            |line| > n && line[..n] == "-- radixdb-sql-dump-counts: " && line[|line| - 1] == '\n'
            && FieldsState(Fields(line[n..|line| - 1]), c)
  {
    var n := |COUNTS_PREFIX|;
    if |line| > n && line[..n] == COUNTS_PREFIX && line[|line| - 1] == '\n' {
      var payload := line[n..|line| - 1];
      assert StripCounts(line) == Some(payload);
      if FieldsState(Fields(payload), c) {
        NamedExactly(Fields(payload), c);
      }
      if ParseCounts(line) == Some(c) {
        NamedMeans(Fields(payload), c);
      }
    }
  }

  // ---------------------------------------------------------------- what the fields of a text are

  /** Space, tab, line feed, form feed and carriage return. */
  predicate BlankCode(n: int) {
    n == 32 || n == 9 || n == 10 || n == 12 || n == 13
  }

  /** A blank anywhere separates the fields before it from those after it. */
  lemma {:induction false} FieldsSplit(a: string, c: char, b: string)
    requires BlankCode(c as int)
    ensures Fields(a + ([c] + b)) == Fields(a) + Fields(b)
    decreases |a|
  {
    var s := a + ([c] + b);
    if a == [] {
      assert s == [c] + b && s[1..] == b;
    } else if AsciiBlank(a[0]) {
      assert s[1..] == a[1..] + ([c] + b);
      FieldsSplit(a[1..], c, b);
    } else {
      var n := FieldEnd(a);
      FieldRun(a, [c] + b);
      assert s[..n] == a[..n] && s[n..] == a[n..] + ([c] + b);
      FieldsSplit(a[n..], c, b);
      assert [a[..n]] + (Fields(a[n..]) + Fields(b)) == [a[..n]] + Fields(a[n..]) + Fields(b);
    }
  }

  lemma {:induction false} FieldRun(a: string, b: string)
    requires b != [] && AsciiBlank(b[0])
    ensures FieldEnd(a + b) == FieldEnd(a) && (a != [] && !AsciiBlank(a[0]) ==> FieldEnd(a) > 0)
    decreases |a|
  {
    if a == [] {
      assert a + b == b;
    } else {
      assert (a + b)[1..] == a[1..] + b;
      FieldRun(a[1..], b);
    }
  }

  /** A text without blanks is one field, and the empty text has none. */
  lemma FieldsOfRun(a: string)
    requires forall i :: 0 <= i < |a| ==> !BlankCode(a[i] as int)
    ensures Fields(a) == if a == [] then [] else [a]
  {
    if a != [] {
      FirstField(a, "");
    }
  }
}
