/** Compacting and slicing external columns for the wire (src/server/value_codec.rs). */
module ExternalColumn {
  import opened Common

  const U32_MAX: nat := 0xffff_ffff

  datatype Range = Range(offset: nat, length: nat)

  /** Rows as byte ranges of a payload, in any order, with any gaps and overlaps. */
  datatype Stored = Stored(data: seq<Byte>, ranges: seq<Range>, nulls: seq<bool>)

  /** Row i is the bytes between offsets i and i + 1. */
  datatype Wire = Wire(data: seq<Byte>, offsets: seq<nat>)

  function Count(s: Stored): nat {
    if |s.ranges| < |s.nulls| then |s.ranges| else |s.nulls|
  }

  predicate RowValid(s: Stored, i: nat)
    requires i < Count(s)
  {
    if s.nulls[i] then s.ranges[i].length == 0
    else
      && s.ranges[i].offset <= USIZE_MAX && s.ranges[i].length <= USIZE_MAX
      && s.ranges[i].offset + s.ranges[i].length <= USIZE_MAX
      && s.ranges[i].offset + s.ranges[i].length <= |s.data|
  }

  function StoredRow(s: Stored, i: nat): seq<Byte>
    requires i < Count(s) && RowValid(s, i)
  {
    if s.nulls[i] then [] else s.data[s.ranges[i].offset..s.ranges[i].offset + s.ranges[i].length]
  }

  predicate ValidUpto(s: Stored, n: nat)
    requires n <= Count(s)
  {
    forall i :: 0 <= i < n ==> RowValid(s, i)
  }

  function Size(s: Stored, i: nat): nat
    requires i < Count(s)
  {
    if s.nulls[i] then 0 else s.ranges[i].length
  }

  function Total(s: Stored, n: nat): nat
    requires n <= Count(s)
  {
    if n == 0 then 0 else Total(s, n - 1) + Size(s, n - 1)
  }

  lemma {:induction false} TotalGrows(s: Stored, m: nat, n: nat)
    requires m <= n <= Count(s)
    ensures Total(s, m) <= Total(s, n)
    decreases n
  {
    if m < n {
      TotalGrows(s, m, n - 1);
    }
  }

  ghost predicate WellFormed(w: Wire) {
    && |w.offsets| >= 1 && w.offsets[0] == 0 && w.offsets[|w.offsets| - 1] == |w.data|
    && forall i, j :: 0 <= i <= j < |w.offsets| ==> w.offsets[i] <= w.offsets[j]
  }

  function WireCount(w: Wire): nat {
    if |w.offsets| == 0 then 0 else |w.offsets| - 1
  }

  function WireRow(w: Wire, i: nat): seq<Byte>
    requires i < WireCount(w) && w.offsets[i] <= w.offsets[i + 1] <= |w.data|
  {
    w.data[w.offsets[i]..w.offsets[i + 1]]
  }

  /** The first rows, compacted. */
  ghost predicate Compacted(s: Stored, w: Wire, n: nat) {
    && n <= Count(s) && ValidUpto(s, n) && WellFormed(w) && WireCount(w) == n && |w.data| == Total(s, n)
    && forall i :: 0 <= i < n ==> WireRow(w, i) == StoredRow(s, i)
  }

  /** Appending a row leaves the earlier rows as they are. */
  lemma AppendRow(w: Wire, row: seq<Byte>)
    requires WellFormed(w)
    ensures var v := Wire(w.data + row, w.offsets + [|w.data| + |row|]);
            && WellFormed(v) && WireCount(v) == WireCount(w) + 1 && WireRow(v, WireCount(w)) == row
            && forall i :: 0 <= i < WireCount(w) ==> WireRow(v, i) == WireRow(w, i)
  {
    var v := Wire(w.data + row, w.offsets + [|w.data| + |row|]);
    assert forall j :: 0 <= j < |w.offsets| ==> w.offsets[j] <= |w.data|;
    forall i | 0 <= i < WireCount(w) ensures WireRow(v, i) == WireRow(w, i) {
      assert w.offsets[i] <= w.offsets[i + 1] <= |w.data|;
    }
  }

  lemma PushRow(s: Stored, w: Wire, n: nat)
    requires Compacted(s, w, n) && n < Count(s) && RowValid(s, n)
    ensures var data := w.data + StoredRow(s, n);
            Compacted(s, Wire(data, w.offsets + [|data|]), n + 1)
  {
    AppendRow(w, StoredRow(s, n));
  }

  /** The compaction loop keeps every row's bytes and yields offsets that rise from 0 to the data's
      length; it fails exactly when a row is malformed or the bytes do not fit 32-bit offsets. */
  method Compact(s: Stored) returns (r: Option<Wire>)
    ensures r.Some? <==> ValidUpto(s, Count(s)) && Total(s, Count(s)) <= U32_MAX
    ensures r.Some? ==> Compacted(s, r.value, Count(s))
    ensures r.Some? ==> forall i :: 0 <= i < |r.value.offsets| ==> r.value.offsets[i] <= U32_MAX
  {
    var data: seq<Byte>, offsets: seq<nat> := [], [0];
    for i := 0 to Count(s)
      invariant Compacted(s, Wire(data, offsets), i) && |data| <= U32_MAX
    {
      var start, length := s.ranges[i].offset, s.ranges[i].length;
      var value := [];
      if s.nulls[i] {
        if length != 0 {
          assert !RowValid(s, i);
          return None;
        }
      } else {
        if start > USIZE_MAX || length > USIZE_MAX || start + length > USIZE_MAX || start + length > |s.data| {
          assert !RowValid(s, i);
          return None;
        }
        value := s.data[start..start + length];
      }
      assert RowValid(s, i) && value == StoredRow(s, i);
      PushRow(s, Wire(data, offsets), i);
      data := data + value;
      if |data| > U32_MAX {
        TotalGrows(s, i + 1, Count(s));
        return None;
      }
      offsets := offsets + [|data|];
    }
    r := Some(Wire(data, offsets));
  }

  // ---------------------------------------------------------------- slicing

  /** `slice_external_bytes`: the rows from `start` up to `end`. */
  function Slice(w: Wire, start: nat, end: nat): Wire
    requires WellFormed(w) && start <= end < |w.offsets|
  {
    assert forall i :: start <= i <= end ==> w.offsets[start] <= w.offsets[i];
    Wire(w.data[w.offsets[start]..w.offsets[end]],
         seq(end - start + 1, i requires 0 <= i <= end - start => w.offsets[start + i] - w.offsets[start]))
  }

  lemma Subslice(data: seq<Byte>, a: nat, c: nat, d: nat, b: nat)
    requires a <= c <= d <= b <= |data|
    ensures data[a..b][c - a..d - a] == data[c..d]
  {
    forall i | 0 <= i < d - c ensures data[a..b][c - a..d - a][i] == data[c..d][i] {
      assert data[a..b][c - a + i] == data[c + i];
    }
  }

  /** Slicing commutes with row access. */
  lemma SliceRows(w: Wire, start: nat, end: nat)
    requires WellFormed(w) && start <= end < |w.offsets|
    ensures WellFormed(Slice(w, start, end)) && WireCount(Slice(w, start, end)) == end - start
    ensures forall i :: 0 <= i < end - start ==> WireRow(Slice(w, start, end), i) == WireRow(w, start + i)
  {
    var v := Slice(w, start, end);
    forall i | 0 <= i < end - start ensures WireRow(v, i) == WireRow(w, start + i) {
      Subslice(w.data, w.offsets[start], w.offsets[start + i], w.offsets[start + i + 1], w.offsets[end]);
    }
  }

  /** One column after the other. */
  function Join(a: Wire, b: Wire): Wire
    requires |b.offsets| >= 1
  {
    Wire(a.data + b.data, a.offsets + seq(|b.offsets| - 1,
                                          i requires 0 <= i < |b.offsets| - 1 => b.offsets[i + 1] + |a.data|))
  }

  lemma AdjacentSlicesJoin(w: Wire, start: nat, mid: nat, end: nat)
    requires WellFormed(w) && start <= mid <= end < |w.offsets|
    ensures Join(Slice(w, start, mid), Slice(w, mid, end)) == Slice(w, start, end)
  {
    assert w.offsets[start] <= w.offsets[mid] <= w.offsets[end] <= |w.data|;
    var left, right, whole := Slice(w, start, mid), Slice(w, mid, end), Slice(w, start, end);
    assert left.data + right.data == whole.data;
    assert Join(left, right).offsets == whole.offsets;
  }

  /** Cut positions that cover a column from its first row to its last. */
  ghost predicate Cuts(cuts: seq<nat>, rows: nat) {
    && |cuts| >= 1 && cuts[0] == 0 && cuts[|cuts| - 1] == rows
    && forall i, j :: 0 <= i <= j < |cuts| ==> cuts[i] <= cuts[j]
  }

  /** The slices up to the k-th cut, joined in order. */
  ghost function JoinSlices(w: Wire, cuts: seq<nat>, k: nat): Wire
    requires WellFormed(w) && Cuts(cuts, WireCount(w)) && k < |cuts|
  {
    if k == 0 then Slice(w, 0, 0) else Join(JoinSlices(w, cuts, k - 1), Slice(w, cuts[k - 1], cuts[k]))
  }

  /** However a column is cut into consecutive slices, joining them gives it back. */
  lemma {:induction false} SlicesRebuild(w: Wire, cuts: seq<nat>, k: nat)
    requires WellFormed(w) && Cuts(cuts, WireCount(w)) && k < |cuts|
    ensures JoinSlices(w, cuts, k) == Slice(w, 0, cuts[k])
    ensures k == |cuts| - 1 ==> JoinSlices(w, cuts, k) == w
  {
    if k > 0 {
      SlicesRebuild(w, cuts, k - 1);
      AdjacentSlicesJoin(w, 0, cuts[k - 1], cuts[k]);
    }
    if k == |cuts| - 1 {
      assert Slice(w, 0, WireCount(w)).offsets == w.offsets;
    }
  }
}
