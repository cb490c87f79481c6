/** Byte streams of a dump: writing with a running digest, reading line by line
    (src/sql_dump.rs:577-606, 864-907). */
module DumpStream {
  import opened Common
  import opened SqlLexer
  import opened Utf8

  const NEWLINE: Byte := 10

  // ---------------------------------------------------------------- export side

  /** An output that may accept only part of what it is given, or fail; accepting nothing is failing
      too, as `write_all` sees it. */
  class Sink {
    var written: seq<Byte>
    var failed: bool

    /** What has left the output's own buffer for good. */
    var flushed: seq<Byte>

    constructor ()
      ensures written == [] && flushed == [] && !failed
    {
      written, flushed, failed := [], [], false;
    }

    method Flush() returns (ok: bool)
      modifies this
      ensures written == old(written) && (ok ==> flushed == written)
      ensures failed <==> old(failed) || !ok
    {
      ok := *;
      if ok {
        flushed := written;
      } else {
        failed := true;
      }
    }

    method Write(bytes: seq<Byte>) returns (accepted: Option<nat>)
      modifies this
      ensures accepted.None? ==> written == old(written)
      ensures accepted.Some? ==> accepted.value <= |bytes| && written == old(written) + bytes[..accepted.value]
      ensures failed <==> old(failed) || accepted.None? || (accepted.value == 0 && bytes != [])
    {
      if * {
        failed := true;
        return None;
      }
      var n: nat :| n <= |bytes|;
      written := written + bytes[..n];
      failed := failed || (n == 0 && bytes != []);
      accepted := Some(n);
    }
  }

  /** `DigestWriter`: hashes exactly the bytes that its output accepted. */
  class DigestWriter {
    const inner: Sink
    var digested: seq<Byte>

    /** What has been hashed is what has been written. */
    ghost predicate Valid()
      reads this, inner
    {
      digested == inner.written
    }

    constructor (inner: Sink)
      requires inner.written == []
      ensures this.inner == inner && digested == []
    {
      this.inner := inner;
      digested := [];
    }

    method Write(bytes: seq<Byte>) returns (accepted: Option<nat>)
      requires Valid()
      modifies this, inner
      ensures Valid()
      ensures accepted.None? ==> digested == old(digested)
      ensures accepted.Some? ==> accepted.value <= |bytes| && digested == old(digested) + bytes[..accepted.value]
      ensures inner.failed <==> old(inner.failed) || accepted.None? || (accepted.value == 0 && bytes != [])
    {
      accepted := inner.Write(bytes);
      if accepted.Some? {
        digested := digested + bytes[..accepted.value];
      }
    }

    /** `write_all`: whatever the pattern of short writes, success means all bytes were written and
        hashed, and a failure leaves the same prefix written and hashed. */
    method WriteAll(bytes: seq<Byte>) returns (ok: bool)
      requires Valid()
      modifies this, inner
      ensures Valid()
      ensures ok ==> digested == old(digested) + bytes
      ensures !ok ==> exists k :: 0 <= k <= |bytes| && digested == old(digested) + bytes[..k]
      ensures inner.failed <==> old(inner.failed) || !ok
    {
      var done := 0;
      while done < |bytes|
        invariant done <= |bytes| && Valid() && inner.failed == old(inner.failed)
        invariant digested == old(digested) + bytes[..done]
      {
        var accepted := Write(bytes[done..]);
        if accepted.None? || accepted.value == 0 {
          return false;
        }
        assert bytes[..done] + bytes[done..][..accepted.value] == bytes[..done + accepted.value];
        done := done + accepted.value;
      }
      assert bytes[..done] == bytes;
      ok := true;
    }
  }

  // ---------------------------------------------------------------- import side

  /** A buffered input whose buffer may hold any non-empty prefix of what is left. */
  class Source {
    var rest: seq<Byte>
    var failed: bool

    constructor (bytes: seq<Byte>)
      ensures rest == bytes && !failed
    {
      rest, failed := bytes, false;
    }

    method FillBuf() returns (available: Option<seq<Byte>>)
      modifies this`failed
      ensures available.Some? ==> available.value <= rest && (available.value == [] <==> rest == [])
      ensures failed <==> old(failed) || available.None?
    {
      if * {
        failed := true;
        return None;
      }
      if rest == [] {
        return Some([]);
      }
      var k: nat :| 1 <= k <= |rest|;
      available := Some(rest[..k]);
    }

    method Consume(n: nat)
      requires n <= |rest|
      modifies this`rest
      ensures rest == old(rest)[n..]
    {
      rest := rest[n..];
    }
  }

  /** The bytes up to and including the first line feed, or all of them. */
  function FirstLine(bytes: seq<Byte>): (line: seq<Byte>)
    ensures line <= bytes && (line == [] <==> bytes == [])
  {
    if bytes == [] then []
    else if bytes[0] == NEWLINE then [NEWLINE]
    else [bytes[0]] + FirstLine(bytes[1..])
  }

  function Lines(bytes: seq<Byte>): seq<seq<Byte>>
    decreases |bytes|
  {
    if bytes == [] then [] else [FirstLine(bytes)] + Lines(bytes[|FirstLine(bytes)|..])
  }

  lemma {:induction false} FirstLineSplits(a: seq<Byte>, b: seq<Byte>)
    ensures NEWLINE !in a ==> FirstLine(a + b) == a + FirstLine(b)
    ensures a != [] && a[|a| - 1] == NEWLINE && NEWLINE !in a[..|a| - 1] ==> FirstLine(a + b) == a
    decreases |a|
  {
    if a == [] {
      assert a + b == b;
    } else {
      assert (a + b)[1..] == a[1..] + b && a == [a[0]] + a[1..];
      assert |a| > 1 ==> a[..|a| - 1] == [a[0]] + a[1..][..|a[1..]| - 1];
      FirstLineSplits(a[1..], b);
    }
  }

  datatype ReadResult = Line(bytes: seq<Byte>) | TooLong | ReadFailed

  /** The position of the first line feed, as `position` finds it. */
  method FindNewline(bytes: seq<Byte>) returns (p: Option<nat>)
    ensures p.None? ==> NEWLINE !in bytes
    ensures p.Some? ==> p.value < |bytes| && bytes[p.value] == NEWLINE && NEWLINE !in bytes[..p.value]
  {
    for i := 0 to |bytes|
      invariant NEWLINE !in bytes[..i]
    {
      if bytes[i] == NEWLINE {
        return Some(i);
      }
    }
    assert bytes[..|bytes|] == bytes;
    p := None;
  }

  /** A piece that ends with its only line feed completes the line. */
  lemma LastPiece(buffer: seq<Byte>, piece: seq<Byte>, after: seq<Byte>)
    requires NEWLINE !in buffer && piece != [] && piece[|piece| - 1] == NEWLINE && NEWLINE !in piece[..|piece| - 1]
    ensures FirstLine(buffer + (piece + after)) == buffer + piece
  {
    FirstLineSplits(buffer, piece + after);
    FirstLineSplits(piece, after);
  }

  /** A piece without a line feed is part of the line. */
  lemma InnerPiece(buffer: seq<Byte>, piece: seq<Byte>, after: seq<Byte>)
    requires NEWLINE !in buffer && NEWLINE !in piece
    ensures FirstLine(buffer + (piece + after)) == buffer + (piece + FirstLine(after))
    ensures NEWLINE !in buffer + piece
  {
    FirstLineSplits(buffer, piece + after);
    FirstLineSplits(piece, after);
  }

  /** Taking up to the line feed, or the whole buffer if it has none, stays within the line. */
  lemma TakePiece(buffer: seq<Byte>, rest: seq<Byte>, available: seq<Byte>, p: Option<nat>)
    requires NEWLINE !in buffer && available != [] && available <= rest
    requires p.None? ==> NEWLINE !in available
    requires p.Some? ==> p.value < |available| && available[p.value] == NEWLINE && NEWLINE !in available[..p.value]
    ensures var take := if p.Some? then p.value + 1 else |available|;
            && 0 < take <= |rest| && (buffer + available[..take]) + rest[take..] == buffer + rest
            && |FirstLine(buffer + rest)| >= |buffer| + take
            && (p.Some? ==> FirstLine(buffer + rest) == buffer + available[..take] && available[take - 1] == NEWLINE)
            && (p.None? ==> NEWLINE !in buffer + available[..take])
  {
    var take := if p.Some? then p.value + 1 else |available|;
    var piece := available[..take];
    assert rest == piece + rest[take..];
    if p.Some? {
      assert piece[..|piece| - 1] == available[..p.value];
      LastPiece(buffer, piece, rest[take..]);
    } else {
      assert piece == available;
      InnerPiece(buffer, piece, rest[take..]);
    }
    assert (buffer + piece) + rest[take..] == buffer + (piece + rest[take..]);
  }

  /** `read_line`: however the buffer chops the input, the line is the same one, and it is refused
      exactly when it is longer than the limit; reading fails only if the input does. */
  method ReadLine(source: Source, limit: nat) returns (r: ReadResult)
    modifies source
    ensures r.Line? ==> r.bytes == FirstLine(old(source.rest)) && source.rest == old(source.rest)[|r.bytes|..]
    ensures r.Line? ==> |r.bytes| <= limit
    ensures r.TooLong? ==> |FirstLine(old(source.rest))| > limit
    ensures source.failed <==> old(source.failed) || r.ReadFailed?
  {
    ghost var all := source.rest;
    var buffer: seq<Byte> := [];
    while true
      invariant buffer + source.rest == all
      invariant NEWLINE !in buffer && |buffer| <= limit && source.failed == old(source.failed)
      decreases |source.rest|
    {
      var available := source.FillBuf();
      if available.None? {
        return ReadFailed;
      }
      if available.value == [] {
        EndOfInput(buffer);
        assert all == buffer;
        return Line(buffer);
      }
      var p := FindNewline(available.value);
      var take := if p.Some? then p.value + 1 else |available.value|;
      TakePiece(buffer, source.rest, available.value, p);
      if |buffer| + take > limit {
        return TooLong;
      }
      buffer := buffer + available.value[..take];
      source.Consume(take);
      if p.Some? {
        assert source.rest == all[|buffer|..];
        return Line(buffer);
      }
    }
  }

  lemma EndOfInput(buffer: seq<Byte>)
    requires NEWLINE !in buffer
    ensures FirstLine(buffer) == buffer && buffer + [] == buffer
  {
    FirstLineSplits(buffer, []);
    assert buffer + [] == buffer;
  }

  // ---------------------------------------------------------------- text lines and byte lines

  function FirstTextLine(s: string): (line: string)
    ensures line <= s && (line == [] <==> s == [])
  {
    if s == [] then [] else if s[0] == '\n' then "\n" else [s[0]] + FirstTextLine(s[1..])
  }

  function TextLines(s: string): seq<string>
    decreases |s|
  {
    if s == [] then [] else [FirstTextLine(s)] + TextLines(s[|FirstTextLine(s)|..])
  }

  lemma {:induction false} FirstLineEncodes(s: string)
    ensures FirstLine(Encode(s)) == Encode(FirstTextLine(s))
    ensures Encode(s)[|FirstLine(Encode(s))|..] == Encode(s[|FirstTextLine(s)|..])
    decreases |s|
  {
    if s != [] {
      var c, head, tail := s[0], EncodeChar(s[0]), Encode(s[1..]);
      LineFeedByte(c);
      FirstLineSplits(head, tail);
      if c == '\n' {
        assert "\n"[1..] == [] && Encode("\n") == head + [];
        assert s[1..] == s[|FirstTextLine(s)|..];
        assert (head + tail)[1..] == tail;
      } else {
        FirstLineEncodes(s[1..]);
        var line := FirstTextLine(s[1..]);
        assert ([c] + line)[1..] == line;
        assert (head + tail)[|head| + |Encode(line)|..] == tail[|Encode(line)|..];
        assert s[1..][|line|..] == s[1 + |line|..];
      }
    }
  }

  /** Splitting the encoded dump into byte lines and decoding each gives the text's lines. */
  lemma {:induction false} LinesDecode(s: string)
    ensures |Lines(Encode(s))| == |TextLines(s)|
    ensures forall i :: 0 <= i < |TextLines(s)| ==>
              Decode(Lines(Encode(s))[i]) == Some(TextLines(s)[i])
                  && |Lines(Encode(s))[i]| == ByteLength(TextLines(s)[i])
    decreases |s|
  {
    if s != [] {
      FirstLineEncodes(s);
      var line := FirstTextLine(s);
      DecodesBack(line);
      EncodedLength(line);
      LinesDecode(s[|line|..]);
      assert Encode(s) != [];
    }
  }
}
