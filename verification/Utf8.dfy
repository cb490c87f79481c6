/** UTF-8, as Rust strings are written to and read from a dump. */
module Utf8 {
  import opened Common
  import opened SqlLexer

  datatype Decoded = Bad | Good(c: char, size: nat)

  function EncodeChar(c: char): (b: seq<Byte>)
    ensures |b| == Utf8Size(c)
  {
    var n := c as int;
    if n < 0x80 then [n]
    else if n < 0x800 then [0xC0 + n / 64, 0x80 + n % 64]
    else if n < 0x1_0000 then [0xE0 + n / 4096, 0x80 + n / 64 % 64, 0x80 + n % 64]
    else [0xF0 + n / 262144, 0x80 + n / 4096 % 64, 0x80 + n / 64 % 64, 0x80 + n % 64]
  }

  function Encode(s: string): seq<Byte> {
    if s == [] then [] else EncodeChar(s[0]) + Encode(s[1..])
  }

  predicate Continuation(b: Byte) {
    0x80 <= b < 0xC0
  }

  function Scalar(n: int, least: nat, size: nat): Decoded {
    if least <= n < 0xD800 || (least <= n && 0xE000 <= n < 0x11_0000) then Good(n as char, size) else Bad
  }

  function Shifted(x: int, weight: int): int {
    x * weight
  }

  /** The payload of a continuation byte. */
  function Low(b: Byte): int {
    b - 0x80
  }

  /** The first scalar value; overlong forms, surrogates and stray bytes are refused. */
  function DecodeChar(b: seq<Byte>): Decoded {
    if b == [] then Bad
    else if b[0] < 0x80 then Good(b[0] as char, 1)
    else if 0xC0 <= b[0] < 0xE0 && |b| > 1 && Continuation(b[1]) then
      Scalar(Shifted(b[0] - 0xC0, 64) + Low(b[1]), 0x80, 2)
    else if 0xE0 <= b[0] < 0xF0 && |b| > 2 && Continuation(b[1]) && Continuation(b[2]) then
      Scalar(Shifted(b[0] - 0xE0, 4096) + Shifted(Low(b[1]), 64) + Low(b[2]), 0x800, 3)
    else if 0xF0 <= b[0] < 0xF8 && |b| > 3 && Continuation(b[1]) && Continuation(b[2]) && Continuation(b[3]) then
      Scalar(Shifted(b[0] - 0xF0, 262144) + Shifted(Low(b[1]), 4096) + Shifted(Low(b[2]), 64) + Low(b[3]), 0x1_0000, 4)
    else Bad
  }

  /** `from_utf8` */
  function Decode(b: seq<Byte>): Option<string>
    decreases |b|
  {
    if b == [] then Some([])
    else
      var d := DecodeChar(b);
      if d.Bad? || d.size == 0 || d.size > |b| then None
      else
        match Decode(b[d.size..])
        case None => None
        case Some(s) => Some([d.c] + s)
  }

  lemma Split3(n: int)
    requires 0 <= n
    ensures n == n / 4096 * 4096 + n / 64 % 64 * 64 + n % 64
  {
    assert n / 64 == n / 4096 * 64 + n / 64 % 64;
  }

  lemma Split4(n: int)
    requires 0 <= n
    ensures n == n / 262144 * 262144 + n / 4096 % 64 * 4096 + n / 64 % 64 * 64 + n % 64
  {
    assert n / 4096 == n / 262144 * 64 + n / 4096 % 64;
    Split3(n);
  }

  lemma DecodesChar(c: char, rest: seq<Byte>)
    ensures DecodeChar(EncodeChar(c) + rest) == Good(c, Utf8Size(c))
  {
    var n := c as int;
    Split3(n);
    Split4(n);
  }

  lemma {:induction false} DecodesBack(s: string)
    ensures Decode(Encode(s)) == Some(s)
    decreases |s|
  {
    if s != [] {
      var head, tail := EncodeChar(s[0]), Encode(s[1..]);
      DecodesChar(s[0], tail);
      DecodesBack(s[1..]);
      DecodeOneMore(head, tail, s[0], s[1..]);
      assert s == [s[0]] + s[1..];
    }
  }

  lemma DecodeOneMore(head: seq<Byte>, tail: seq<Byte>, c: char, s: string)
    requires head != [] && DecodeChar(head + tail) == Good(c, |head|) && Decode(tail) == Some(s)
    ensures Decode(head + tail) == Some([c] + s)
  {
    assert (head + tail)[|head|..] == tail;
  }

  lemma {:induction false} EncodedLength(s: string)
    ensures |Encode(s)| == ByteLength(s)
    decreases |s|
  {
    if s != [] {
      EncodedLength(s[1..]);
    }
  }

  lemma {:induction false} EncodeConcat(a: string, b: string)
    ensures Encode(a + b) == Encode(a) + Encode(b)
    decreases |a|
  {
    if a == [] {
      assert a + b == b;
    } else {
      assert (a + b)[1..] == a[1..] + b && (a + b)[0] == a[0];
      EncodeConcat(a[1..], b);
    }
  }

  /** A line feed is one byte, and no other character's encoding contains that byte. */
  lemma LineFeedByte(c: char)
    ensures c == '\n' ==> EncodeChar(c) == [10]
    ensures c != '\n' ==> 10 !in EncodeChar(c)
  {
  }

  lemma Join2(x: int, y: int)
    requires 0 <= x && 0 <= y < 64
    ensures (x * 64 + y) / 64 == x && (x * 64 + y) % 64 == y
  {
  }

  lemma Join3(x: int, y: int, z: int)
    requires 0 <= x && 0 <= y < 64 && 0 <= z < 64
    ensures var n := x * 4096 + y * 64 + z; n / 4096 == x && n / 64 % 64 == y && n % 64 == z
  {
    var n := x * 4096 + y * 64 + z;
    assert n == (x * 64 + y) * 64 + z;
    Join2(x * 64 + y, z);
    Join2(x, y);
  }

  lemma Join4(w: int, x: int, y: int, z: int)
    requires 0 <= w && 0 <= x < 64 && 0 <= y < 64 && 0 <= z < 64
    ensures var n := w * 262144 + x * 4096 + y * 64 + z;
            n / 262144 == w && n / 4096 % 64 == x && n / 64 % 64 == y && n % 64 == z
  {
    var n := w * 262144 + x * 4096 + y * 64 + z;
    assert n == (w * 64 + x) * 4096 + y * 64 + z;
    Join3(w * 64 + x, y, z);
    Join2(w, x);
  }

  /** Only the encoding of a character decodes to it. */
  lemma EncodesChar(b: seq<Byte>)
    requires DecodeChar(b).Good?
    ensures var d := DecodeChar(b); 0 < d.size <= |b| && d.size == Utf8Size(d.c) && EncodeChar(d.c) == b[..d.size]
  {
    if b[0] >= 0x80 {
      if b[0] < 0xE0 {
        Join2(b[0] - 0xC0, Low(b[1]));
      } else if b[0] < 0xF0 {
        Join3(b[0] - 0xE0, Low(b[1]), Low(b[2]));
      } else {
        Join4(b[0] - 0xF0, Low(b[1]), Low(b[2]), Low(b[3]));
      }
    }
  }

  /** Decoding loses nothing: the bytes are the encoding of the text. */
  lemma {:induction false} EncodesBack(b: seq<Byte>)
    requires Decode(b).Some?
    ensures Encode(Decode(b).value) == b
    decreases |b|
  {
    if b != [] {
      var d := DecodeChar(b);
      EncodesChar(b);
      EncodesBack(b[d.size..]);
      var s := Decode(b).value;
      assert s[0] == d.c && s[1..] == Decode(b[d.size..]).value;
      assert b == b[..d.size] + b[d.size..];
    }
  }
}
