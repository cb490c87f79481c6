/** The streaming head/tail window over query rows and its JSON description (src/cli/mod.rs). */
module ResultWindow {
  import opened Common

  const MAX_CLI_UNLIMITED_ROWS: nat := 100_000

  datatype Collected<T> = Collected(rows: seq<T>, count: nat)

  /** What a counter that cannot overflow shows after `n` rows. */
  function Saturated(n: nat): nat {
    Min(n, USIZE_MAX)
  }

  /** All rows when they fit, else the first half of the limit and the last rows up to the limit. */
  function Window<T>(rows: seq<T>, limit: nat): seq<T> {
    if |rows| <= limit then rows else rows[..limit / 2] + rows[|rows| - (limit - limit / 2)..]
  }

  /** The rows of a stream that has not failed. */
  predicate AllRead<T>(stream: seq<Option<T>>) {
    forall i :: 0 <= i < |stream| ==> stream[i].Some?
  }

  function Rows<T>(stream: seq<Option<T>>): seq<T>
    requires AllRead(stream)
  {
    seq(|stream|, i requires 0 <= i < |stream| => stream[i].value)
  }

  /** What head and tail hold after some rows have been seen. */
  ghost predicate Holds<T>(rows: seq<T>, head: seq<T>, tail: seq<T>, headLimit: nat, tailLimit: nat) {
    var h := Min(|rows|, headLimit);
    && head == rows[..h]
    && tail == rows[|rows| - Min(|rows| - h, tailLimit)..]
  }

  lemma HoldsWindow<T>(rows: seq<T>, head: seq<T>, tail: seq<T>, limit: nat)
    requires Holds(rows, head, tail, limit / 2, limit - limit / 2)
    ensures head + tail == Window(rows, limit)
  {
  }

  lemma PushKeepsHolds<T>(rows: seq<T>, row: T, head: seq<T>, tail: seq<T>, headLimit: nat, tailLimit: nat)
    requires Holds(rows, head, tail, headLimit, tailLimit)
    ensures |head| < headLimit ==> Holds(rows + [row], head + [row], tail, headLimit, tailLimit)
    ensures |head| >= headLimit && 0 < |tail| == tailLimit ==>
            Holds(rows + [row], head, tail[1..] + [row], headLimit, tailLimit)
    ensures |head| >= headLimit && |tail| != tailLimit ==> Holds(rows + [row], head, tail + [row], headLimit, tailLimit)
  {
    var more := rows + [row];
    assert |head| < headLimit ==> head == rows;
    assert more[..|head|] == rows[..|head|];
    assert forall k :: 0 <= k <= |rows| ==> more[k..] == rows[k..] + [row];
  }

  /** `Holds` for the first rows of a stream. */
  ghost predicate Seen<T>(stream: seq<Option<T>>, i: nat, head: seq<T>, tail: seq<T>, headLimit: nat, tailLimit: nat) {
    i <= |stream| && AllRead(stream[..i]) && Holds(Rows(stream[..i]), head, tail, headLimit, tailLimit)
  }

  lemma SeeNext<T>(stream: seq<Option<T>>, i: nat, head: seq<T>, tail: seq<T>, headLimit: nat, tailLimit: nat)
    requires Seen(stream, i, head, tail, headLimit, tailLimit) && i < |stream| && stream[i].Some?
    ensures |head| < headLimit ==> Seen(stream, i + 1, head + [stream[i].value], tail, headLimit, tailLimit)
    ensures |head| >= headLimit && 0 < |tail| == tailLimit ==>
              Seen(stream, i + 1, head, tail[1..] + [stream[i].value], headLimit, tailLimit)
    ensures |head| >= headLimit && |tail| != tailLimit ==>
              Seen(stream, i + 1, head, tail + [stream[i].value], headLimit, tailLimit)
  {
    assert stream[..i + 1] == stream[..i] + [stream[i]];
    assert Rows(stream[..i + 1]) == Rows(stream[..i]) + [stream[i].value];
    PushKeepsHolds(Rows(stream[..i]), stream[i].value, head, tail, headLimit, tailLimit);
  }

  lemma SeenHead<T>(stream: seq<Option<T>>, i: nat, head: seq<T>, tail: seq<T>, headLimit: nat, tailLimit: nat)
    requires Seen(stream, i, head, tail, headLimit, tailLimit)
    ensures |head| == Min(i, headLimit)
  {
  }

  /** One row goes to the head while that has room, then to the tail, which forgets its oldest row. */
  method Push<T>(stream: seq<Option<T>>, i: nat, front: seq<T>, back: seq<T>, headLimit: nat, tailLimit: nat)
      returns (head: seq<T>, tail: seq<T>)
    requires Seen(stream, i, front, back, headLimit, tailLimit) && i < |stream| && stream[i].Some?
    requires |front| < headLimit || tailLimit > 0
    ensures Seen(stream, i + 1, head, tail, headLimit, tailLimit)
  {
    SeeNext(stream, i, front, back, headLimit, tailLimit);
    head, tail := front, back;
    if |head| < headLimit {
      head := head + [stream[i].value];
    } else {
      if |tail| == tailLimit {
        tail := tail[1..];
      }
      tail := tail + [stream[i].value];
    }
  }

  /** A limit of 0 asks for every row, up to the safety budget. */
  predicate Within(rows: nat, limit: nat) {
    limit == 0 ==> rows <= 100_000
  }

  function HeadLimit(limit: nat): nat {
    if limit == 0 then MAX_CLI_UNLIMITED_ROWS else limit / 2
  }

  function TailLimit(limit: nat): nat {
    if limit == 0 then 0 else limit - limit / 2
  }

  lemma SeenAll<T>(stream: seq<Option<T>>, head: seq<T>, tail: seq<T>, limit: nat)
    requires Seen(stream, |stream|, head, tail, HeadLimit(limit), TailLimit(limit)) && Within(|stream|, limit)
    ensures AllRead(stream)
    ensures head + tail == if limit == 0 then Rows(stream) else Window(Rows(stream), limit)
  {
    assert stream[..|stream|] == stream;
    if limit > 0 {
      HoldsWindow(Rows(stream), head, tail, limit);
    }
  }

  /** The loop over the rows, which has room for all of them if the tail can forget its oldest. */
  method Gather<T>(stream: seq<Option<T>>, headLimit: nat, tailLimit: nat)
      returns (r: Option<Collected<T>>, head: seq<T>, tail: seq<T>)
    ensures r.Some? <==> AllRead(stream) && (tailLimit > 0 || |stream| <= headLimit)
    ensures r.Some? ==> Seen(stream, |stream|, head, tail, headLimit, tailLimit)
    ensures r.Some? ==> r.value == Collected(head + tail, Saturated(|stream|))
  {
    var count: nat := 0;
    head, tail := [], [];
    for i := 0 to |stream|
      invariant Seen(stream, i, head, tail, headLimit, tailLimit) && count == Saturated(i)
      invariant tailLimit > 0 || i <= headLimit
    {
      if stream[i].None? {
        return None, head, tail;
      }
      count := Saturated(count + 1);
      SeenHead(stream, i, head, tail, headLimit, tailLimit);
      if |head| >= headLimit && tailLimit == 0 {
        return None, head, tail;
      }
      head, tail := Push(stream, i, head, tail, headLimit, tailLimit);
    }
    assert stream[..|stream|] == stream;
    r := Some(Collected(head + tail, count));
  }

  /** `collect_cli_rows`: exactly the window, or every row when no limit is given; it fails exactly
      when a row cannot be read or the safety budget is exceeded. */
  method CollectRows<T>(stream: seq<Option<T>>, limit: nat) returns (r: Option<Collected<T>>)
    ensures r.Some? <==> AllRead(stream) && Within(|stream|, limit)
    ensures r.Some? ==> r.value.rows == (if limit == 0 then Rows(stream) else Window(Rows(stream), limit))
    ensures r.Some? ==> r.value.count == Saturated(|stream|)
  {
    var head, tail;
    r, head, tail := Gather(stream, HeadLimit(limit), TailLimit(limit));
    if r.Some? {
      SeenAll(stream, head, tail, limit);
    }
  }

  // ---------------------------------------------------------------- the JSON description

  datatype Description = Description(truncated: bool, headCount: nat, tailCount: nat, omitted: nat)

  /** `json_query_result`, which sees only how many rows were kept and counted. */
  function Describe(retained: nat, count: nat): Description {
    var truncated := retained < count;
    var headCount := if truncated then retained / 2 else retained;
    Description(truncated, headCount, retained - headCount, if count > retained then count - retained else 0)
  }

  /** The description is true of the rows behind it: the kept rows are the first `headCount` and the
      last `tailCount`, `omitted` rows lie between them, and `truncated` says whether any do. */
  lemma DescriptionIsTrue<T>(rows: seq<T>, limit: nat)
    requires limit > 0
    ensures var kept := Window(rows, limit);
            var d := Describe(|kept|, |rows|);
            && d.headCount + d.omitted + d.tailCount == |rows|
            && kept == rows[..d.headCount] + rows[d.headCount + d.omitted..]
            && (d.truncated <==> |rows| > limit) && (d.truncated <==> kept != rows)
            && |kept| <= limit
  {
    var kept := Window(rows, limit);
    if |rows| > limit {
      assert |kept| == limit && kept != rows;
    } else {
      assert rows[..|rows|] + rows[|rows|..] == rows;
    }
  }
}
