/** Blanks and comments around the tokens of a statement, and why they change nothing about where it ends
    (crates/radixdb-sql/src/lexer, src/sql_dump.rs:909-927). */
module SqlComments {
  import opened Common
  import opened SqlLexer
  import opened DumpStatement
  import TextLiteral

  // ---------------------------------------------------------------- block comments as bracket sequences

  /** The inside of a block comment: openings, closings and other characters. */
  datatype Mark = Open | Close | Char(c: char)

  function MarkText(m: Mark): string {
    match m
    case Open => "/*"
    case Close => "*/"
    case Char(c) => [c]
  }

  function Marks(marks: seq<Mark>): string {
    if marks == [] then [] else MarkText(marks[0]) + Marks(marks[1..])
  }

  function Change(m: Mark): int {
    match m case Open => 1 case Close => -1 case Char(_) => 0
  }

  /** Openings minus closings among the first `k` marks. */
  function Depth(marks: seq<Mark>, k: nat): int
    requires k <= |marks|
  {
    if k == 0 then 0 else Depth(marks, k - 1) + Change(marks[k - 1])
  }

  /** Starting `depth` deep, the last mark closes the comment and none before it does. */
  ghost predicate Balanced(marks: seq<Mark>, depth: nat) {
    depth + Depth(marks, |marks|) == 0 && forall k :: 0 <= k < |marks| ==> depth + Depth(marks, k) > 0
  }

  /** No two characters that belong to different marks look like an opening or a closing. */
  predicate Distinct(marks: seq<Mark>) {
    && (forall i :: 0 <= i < |marks| ==> marks[i] != Char('\0'))
    && (forall i :: 0 <= i < |marks| - 1 ==>
          && (marks[i] == Char('/') ==> MarkText(marks[i + 1])[0] != '*')
          && (marks[i] == Char('*') ==> MarkText(marks[i + 1])[0] != '/'))
  }

  lemma {:induction false} DepthOfTail(marks: seq<Mark>, k: nat)
    requires 0 < k <= |marks|
    ensures Depth(marks, k) == Change(marks[0]) + Depth(marks[1..], k - 1)
    decreases k
  {
    if k > 1 {
      DepthOfTail(marks, k - 1);
      assert marks[1..][k - 2] == marks[k - 1];
    }
  }

  lemma BalancedTail(marks: seq<Mark>, depth: nat)
    requires Balanced(marks, depth) && marks != [] && Distinct(marks)
    ensures depth > 0 && depth + Change(marks[0]) >= 0
    ensures Balanced(marks[1..], depth + Change(marks[0])) && Distinct(marks[1..])
    ensures marks[1..] == [] <==> depth + Change(marks[0]) == 0
  {
    var rest, d := marks[1..], depth + Change(marks[0]);
    assert Depth(marks, 0) == 0 && Depth(rest, 0) == 0;
    DepthOfTail(marks, |marks|);
    if |marks| > 1 {
      DepthOfTail(marks, 1);
      assert depth + Depth(marks, 1) > 0;
    }
    forall k | 0 <= k < |rest| ensures d + Depth(rest, k) > 0 {
      DepthOfTail(marks, k + 1);
      assert depth + Depth(marks, k + 1) > 0;
    }
  }

  lemma OpenStep(tail: string, depth: nat)
    requires depth > 0
    ensures BlockComment("/*" + tail, depth) == BlockComment(tail, depth + 1)
  {
    assert ("/*" + tail)[2..] == tail;
  }

  lemma CloseStep(tail: string, depth: nat)
    requires depth > 0
    ensures BlockComment("*/" + tail, depth) == BlockComment(tail, depth - 1)
  {
    assert ("*/" + tail)[2..] == tail;
  }

  lemma CharStep(c: char, tail: string, depth: nat)
    requires depth > 0 && c != '\0'
    requires tail == [] || ((c == '/' ==> tail[0] != '*') && (c == '*' ==> tail[0] != '/'))
    ensures BlockComment([c] + tail, depth) == BlockComment(tail, depth)
  {
    assert ([c] + tail)[1..] == tail;
  }

  /** The lexer finds the end of every balanced comment, however deeply it nests. */
  lemma {:induction false} BalancedCommentCloses(marks: seq<Mark>, depth: nat, rest: string)
    requires Balanced(marks, depth) && Distinct(marks)
    ensures BlockComment(Marks(marks) + rest, depth) == Closed([], rest)
    decreases |marks|
  {
    if marks == [] {
      assert Marks(marks) + rest == rest && Depth(marks, 0) == 0;
    } else {
      BalancedTail(marks, depth);
      var tail := Marks(marks[1..]) + rest;
      assert Marks(marks) + rest == MarkText(marks[0]) + tail;
      BalancedCommentCloses(marks[1..], depth + Change(marks[0]), rest);
      match marks[0] {
        case Open => OpenStep(tail, depth);
        case Close => CloseStep(tail, depth);
        case Char(c) =>
          assert marks[1..] != [] && marks[1..][0] == marks[1];
          assert tail[0] == MarkText(marks[1])[0];
          CharStep(c, tail, depth);
      }
    }
  }

  /** A comment that is never closed is an error, not a comment. */
  lemma {:induction false} OpenCommentBreaks(marks: seq<Mark>, depth: nat)
    requires Distinct(marks) && forall k :: 0 <= k <= |marks| ==> depth + Depth(marks, k) > 0
    ensures BlockComment(Marks(marks), depth).Broken?
    decreases |marks|
  {
    assert depth + Depth(marks, 0) > 0;
    if marks != [] {
      var tail, d := Marks(marks[1..]), depth + Change(marks[0]);
      forall k | 0 <= k <= |marks[1..]| ensures d + Depth(marks[1..], k) > 0 {
        DepthOfTail(marks, k + 1);
        assert depth + Depth(marks, k + 1) > 0;
      }
      assert d + Depth(marks[1..], 0) > 0;
      OpenCommentBreaks(marks[1..], d);
      match marks[0] {
        case Open => OpenStep(tail, depth);
        case Close => CloseStep(tail, depth);
        case Char(c) =>
          assert |marks| > 1 ==> tail != [] && tail[0] == MarkText(marks[1..][0])[0];
          CharStep(c, tail, depth);
      }
    }
  }

  // ---------------------------------------------------------------- statements with comments anywhere

  /** A token, a blank, a comment of one of the three kinds, or a semicolon. */
  datatype Piece =
    | Token(atom: Atom)
    | Space(c: char)
    | Line(text: string)
    | Hash(text: string)
    | Block(marks: seq<Mark>)
    | End

  function PieceText(p: Piece): string {
    match p
    case Token(atom) => Spell(atom)
    case Space(c) => [c]
    case Line(text) => "--" + text + "\n"
    case Hash(text) => "#" + text + "\n"
    case Block(marks) => "/*" + Marks(marks)
    case End => ";"
  }

  function PieceFirst(p: Piece): char {
    match p
    case Token(atom) => First(atom)
    case Space(c) => c
    case Line(_) => '-'
    case Hash(_) => '#'
    case Block(_) => '/'
    case End => ';'
  }

  /** Every piece is well formed, and what follows a token does not run into it. */
  ghost predicate GoodPiece(p: Piece, next: char) {
    match p
    case Token(atom) => GoodAtom(atom) && Separated(atom, next)
    case Space(c) => AsciiSpace(c)
    case Line(text) => '\n' !in text && '\0' !in text
    case Hash(text) => '\n' !in text && '\0' !in text
    case Block(marks) => Balanced(marks, 1) && Distinct(marks)
    case End => true
  }

  ghost predicate GoodPieces(pieces: seq<Piece>, last: char) {
    forall i :: 0 <= i < |pieces| ==> GoodPiece(pieces[i], FirstAfter(pieces, i, last))
  }

  function FirstAfter(pieces: seq<Piece>, i: nat, last: char): char {
    if i + 1 < |pieces| then PieceFirst(pieces[i + 1]) else last
  }

  /** How a text may end: with a line feed, or with a line comment that has none. */
  predicate LastLine(tail: string) {
    tail == "\n" || (|tail| >= 2 && tail[..2] == "--" && '\n' !in tail && '\0' !in tail)
  }

  function PiecesText(pieces: seq<Piece>, tail: string): string {
    if pieces == [] then tail else PieceText(pieces[0]) + PiecesText(pieces[1..], tail)
  }

  predicate Silent(p: Piece) {
    !p.End? && (p.Token? ==> p.atom.Blank?)
  }

  /** The last piece that is no blank and no comment is a semicolon. */
  predicate Terminated(pieces: seq<Piece>) {
    exists i :: 0 <= i < |pieces| && pieces[i].End? && forall j :: i < j < |pieces| ==> Silent(pieces[j])
  }

  lemma {:induction false} LineEnds(text: string, rest: string)
    requires '\n' !in text && '\0' !in text
    ensures LineComment(text + ("\n" + rest)) == Closed([], "\n" + rest)
    decreases |text|
  {
    if text == [] {
      assert text + ("\n" + rest) == "\n" + rest;
    } else {
      assert text[0] in text && text == [text[0]] + text[1..];
      assert (text + ("\n" + rest))[1..] == text[1..] + ("\n" + rest);
      LineEnds(text[1..], rest);
    }
  }

  lemma SpaceIsSkipped(u: Unicode, c: char, rest: string, terminal: bool)
    requires AsciiSpace(c)
    ensures Complete(u, [c] + rest, false, terminal) == Complete(u, rest, false, terminal)
  {
    assert ([c] + rest)[1..] == rest;
    assert NextToken(u, [c] + rest, false) == NextToken(u, rest, false);
  }

  lemma CommentIsSkipped(u: Unicode, s: string, rest: string, terminal: bool)
    requires NextToken(u, s, false) == Lexed(Comment, rest, false)
    ensures Complete(u, s, false, terminal) == Complete(u, rest, false, terminal)
  {
  }

  lemma LineIsComment(u: Unicode, text: string, rest: string)
    requires '\n' !in text && '\0' !in text
    ensures NextToken(u, "--" + text + "\n" + rest, false) == Lexed(Comment, "\n" + rest, false)
  {
    LineEnds(text, rest);
    ThreeTexts("--", text, "\n", rest);
    DashesStart(u, text + ("\n" + rest));
  }

  lemma DashesStart(u: Unicode, more: string)
    ensures NextToken(u, "--" + more, false) == Delimited(LineComment(more), false, Comment, [])
  {
    var s := "--" + more;
    assert s[2..] == more && s[0] == '-' && s[1..][0] == '-';
  }

  lemma HashIsComment(u: Unicode, text: string, rest: string)
    requires '\n' !in text && '\0' !in text
    ensures NextToken(u, "#" + text + "\n" + rest, false) == Lexed(Comment, "\n" + rest, false)
  {
    LineEnds(text, rest);
    ThreeTexts("#", text, "\n", rest);
    var more := text + ("\n" + rest);
    assert ("#" + more)[1..] == more;
  }

  lemma ThreeTexts(a: string, b: string, c: string, d: string)
    ensures a + b + c + d == a + (b + (c + d))
  {
  }

  lemma {:induction false} OpenLineEnds(text: string)
    requires '\n' !in text && '\0' !in text
    ensures LineComment(text) == Closed([], [])
    decreases |text|
  {
    if text != [] {
      assert text[0] in text && text == [text[0]] + text[1..];
      OpenLineEnds(text[1..]);
    }
  }

  lemma LastLineIsSilent(u: Unicode, tail: string, terminal: bool)
    requires LastLine(tail)
    ensures Complete(u, tail, false, terminal) == terminal
  {
    assert Complete(u, [], false, terminal) == terminal;
    if tail == "\n" {
      SpaceIsSkipped(u, '\n', [], terminal);
      assert "\n" + [] == "\n";
    } else {
      assert tail == "--" + tail[2..];
      OpenLineEnds(tail[2..]);
      DashesStart(u, tail[2..]);
      CommentIsSkipped(u, tail, [], terminal);
    }
  }

  lemma BlockIsComment(u: Unicode, marks: seq<Mark>, rest: string)
    requires Balanced(marks, 1) && Distinct(marks)
    ensures NextToken(u, "/*" + Marks(marks) + rest, false) == Lexed(Comment, rest, false)
  {
    BalancedCommentCloses(marks, 1, rest);
    var s := "/*" + Marks(marks) + rest;
    assert s[2..] == Marks(marks) + rest && s[0] == '/' && s[1] == '*';
  }

  lemma EndIsSemicolon(u: Unicode, rest: string, terminal: bool)
    ensures Complete(u, ";" + rest, false, terminal) == Complete(u, rest, false, true)
  {
    assert (";" + rest)[1..] == rest;
    assert NextToken(u, ";" + rest, false) == Lexed(Semicolon, rest, false);
  }

  /** One piece: a silent one leaves the flag as it is, a semicolon sets it, another token clears it. */
  lemma PieceStep(u: Unicode, p: Piece, rest: string, terminal: bool)
    requires rest != [] && GoodPiece(p, rest[0])
    ensures Complete(u, PieceText(p) + rest, false, terminal) ==
              Complete(u, rest, false, if Silent(p) then terminal else p.End?)
  {
    match p {
      case Token(atom) => LexAtom(u, atom, rest, terminal);
      case Space(c) => SpaceIsSkipped(u, c, rest, terminal);
      case Line(text) =>
        LineIsComment(u, text, rest);
        CommentIsSkipped(u, PieceText(p) + rest, "\n" + rest, terminal);
        SpaceIsSkipped(u, '\n', rest, terminal);
      case Hash(text) =>
        HashIsComment(u, text, rest);
        CommentIsSkipped(u, PieceText(p) + rest, "\n" + rest, terminal);
        SpaceIsSkipped(u, '\n', rest, terminal);
      case Block(marks) =>
        BlockIsComment(u, marks, rest);
        CommentIsSkipped(u, PieceText(p) + rest, rest, terminal);
      case End => EndIsSemicolon(u, rest, terminal);
    }
  }

  lemma PiecesStart(pieces: seq<Piece>, tail: string)
    requires LastLine(tail) && GoodPieces(pieces, tail[0])
    ensures PiecesText(pieces, tail) != []
    ensures PiecesText(pieces, tail)[0] == if pieces == [] then tail[0] else PieceFirst(pieces[0])
  {
    if pieces != [] {
      assert GoodPiece(pieces[0], FirstAfter(pieces, 0, tail[0]));
      if pieces[0].Token? {
        SpellStarts(pieces[0].atom, PiecesText(pieces[1..], tail));
      }
    }
  }

  predicate AllSilent(pieces: seq<Piece>) {
    forall i :: 0 <= i < |pieces| ==> Silent(pieces[i])
  }

  lemma TerminatedTail(pieces: seq<Piece>)
    requires pieces != []
    ensures Terminated(pieces) <==> Terminated(pieces[1..]) || (pieces[0].End? && AllSilent(pieces[1..]))
    ensures AllSilent(pieces) <==> Silent(pieces[0]) && AllSilent(pieces[1..])
  {
    var rest := pieces[1..];
    assert forall i :: 0 < i < |pieces| ==> pieces[i] == rest[i - 1];
    if Terminated(rest) {
      var i :| 0 <= i < |rest| && rest[i].End? && forall j :: i < j < |rest| ==> Silent(rest[j]);
      assert pieces[i + 1].End?;
    }
    if pieces[0].End? && AllSilent(rest) {
      assert forall j :: 0 < j < |pieces| ==> Silent(pieces[j]);
    }
    if Terminated(pieces) {
      var i :| 0 <= i < |pieces| && pieces[i].End? && forall j :: i < j < |pieces| ==> Silent(pieces[j]);
      if i > 0 {
        assert rest[i - 1].End?;
      }
    }
  }

  lemma OtherPieces(pieces: seq<Piece>, last: char)
    requires GoodPieces(pieces, last) && pieces != []
    ensures GoodPieces(pieces[1..], last) && GoodPiece(pieces[0], FirstAfter(pieces, 0, last))
  {
    forall i | 0 <= i < |pieces[1..]| ensures GoodPiece(pieces[1..][i], FirstAfter(pieces[1..], i, last)) {
      assert GoodPiece(pieces[i + 1], FirstAfter(pieces, i + 1, last));
    }
  }

  lemma {:induction false} PiecesLex(u: Unicode, pieces: seq<Piece>, tail: string, terminal: bool)
    requires LastLine(tail) && GoodPieces(pieces, tail[0])
    ensures Complete(u, PiecesText(pieces, tail), false, terminal) <==>
              Terminated(pieces) || (terminal && AllSilent(pieces))
    decreases |pieces|
  {
    if pieces == [] {
      LastLineIsSilent(u, tail, terminal);
    } else {
      var rest := pieces[1..];
      OtherPieces(pieces, tail[0]);
      PiecesStart(rest, tail);
      PieceStep(u, pieces[0], PiecesText(rest, tail), terminal);
      PiecesLex(u, rest, tail, if Silent(pieces[0]) then terminal else pieces[0].End?);
      TerminatedTail(pieces);
    }
  }

  /** A statement with blanks and comments anywhere between its tokens is complete exactly if its last
      token is a semicolon: no comment adds a terminator or takes one away, and no semicolon inside a
      comment is one. */
  lemma CommentsChangeNothing(u: Unicode, pieces: seq<Piece>, tail: string)
    requires LastLine(tail) && GoodPieces(pieces, tail[0])
    ensures IsComplete(u, PiecesText(pieces, tail)) <==> Terminated(pieces)
  {
    PiecesLex(u, pieces, tail, false);
  }

  lemma SilentKeepsTerminated(pieces: seq<Piece>, more: seq<Piece>)
    requires AllSilent(more)
    ensures Terminated(pieces + more) <==> Terminated(pieces)
  {
    var all := pieces + more;
    if Terminated(pieces) {
      var i :| 0 <= i < |pieces| && pieces[i].End? && forall j :: i < j < |pieces| ==> Silent(pieces[j]);
      assert all[i].End? && forall j :: i < j < |all| ==> Silent(all[j]);
    }
    if Terminated(all) {
      var i :| 0 <= i < |all| && all[i].End? && forall j :: i < j < |all| ==> Silent(all[j]);
      assert i < |pieces|;
      assert forall j :: i < j < |pieces| ==> pieces[j] == all[j];
      assert pieces[i].End?;
    }
  }

  /** So whatever blanks and comments are put behind a statement, it is complete exactly if it was. */
  lemma TrailingCommentsChangeNothing(u: Unicode, pieces: seq<Piece>, more: seq<Piece>, tail: string)
    requires LastLine(tail) && GoodPieces(pieces, tail[0]) && GoodPieces(pieces + more, tail[0]) && AllSilent(more)
    ensures IsComplete(u, PiecesText(pieces + more, tail)) <==> IsComplete(u, PiecesText(pieces, tail))
  {
    CommentsChangeNothing(u, pieces, tail);
    CommentsChangeNothing(u, pieces + more, tail);
    SilentKeepsTerminated(pieces, more);
  }

  /** A comment that is still open completes nothing, whatever came before it. */
  lemma OpenCommentIsIncomplete(u: Unicode, marks: seq<Mark>, terminal: bool)
    requires Distinct(marks) && forall k :: 0 <= k <= |marks| ==> 1 + Depth(marks, k) > 0
    ensures !Complete(u, "/*" + Marks(marks), false, terminal)
  {
    OpenCommentBreaks(marks, 1);
    var s := "/*" + Marks(marks);
    assert s[2..] == Marks(marks) && s[0] == '/' && s[1..][0] == '*';
  }

  /** The comment of the first example: a blank, a semicolon, a blank and the closing. */
  lemma SemicolonComment(marks: seq<Mark>)
    requires marks == [Char(' '), Char(';'), Char(' '), Close]
    ensures Balanced(marks, 1) && Distinct(marks) && Marks(marks) == " ; */"
  {
    assert Depth(marks, 0) == 0 && Depth(marks, 1) == 0 && Depth(marks, 2) == 0 && Depth(marks, 3) == 0;
    assert Depth(marks, 4) == -1;
    assert marks[1..] == [Char(';'), Char(' '), Close] && marks[1..][1..] == [Char(' '), Close];
    assert marks[1..][1..][1..] == [Close] && [Close][1..] == [];
    assert Marks([Close]) == "*/" && Marks([Char(' '), Close]) == " */";
    assert Marks([Char(';'), Char(' '), Close]) == "; */";
  }

  lemma FirstExample(u: Unicode, word: string, literal: string, marks: seq<Mark>, last: string)
    requires GoodAtom(Word(word)) && GoodAtom(Text(literal)) && Balanced(marks, 1) && Distinct(marks) && LastLine(last)
    ensures Complete(u, word + (" " + (Spell(Text(literal)) + (" " + ("/*" + Marks(marks) + (";" + (" " + last)))))),
                     false, false)
  {
    var afterEnd := " " + last;
    var afterComment := ";" + afterEnd;
    var afterBlank := "/*" + Marks(marks) + afterComment;
    var afterText := " " + afterBlank;
    var afterSpace := Spell(Text(literal)) + afterText;
    PieceStep(u, Token(Word(word)), " " + afterSpace, false);
    PieceStep(u, Space(' '), afterSpace, false);
    PieceStep(u, Token(Text(literal)), afterText, false);
    PieceStep(u, Space(' '), afterBlank, false);
    PieceStep(u, Block(marks), afterComment, false);
    PieceStep(u, End, afterEnd, false);
    PieceStep(u, Space(' '), last, true);
    LastLineIsSilent(u, last, true);
  }

  lemma SecondExample(u: Unicode, word: string, digits: string, last: string)
    requires GoodAtom(Word(word)) && GoodAtom(Number(digits, "")) && LastLine(last)
    ensures !Complete(u, word + (" " + (digits + (" " + last))), false, false)
  {
    PieceStep(u, Token(Word(word)), " " + (digits + (" " + last)), false);
    PieceStep(u, Space(' '), digits + (" " + last), false);
    PieceStep(u, Token(Number(digits, "")), " " + last, false);
    PieceStep(u, Space(' '), last, false);
    LastLineIsSilent(u, last, false);
  }

  lemma ExampleParts(word: string, literal: string, digits: string, first: string, second: string)
    requires word == "SELECT" && literal == ";" && digits == "1" && first == "-- trailing" && second == "-- ;"
    ensures GoodAtom(Word(word)) && GoodAtom(Text(literal)) && GoodAtom(Number(digits, ""))
    ensures LastLine(first) && LastLine(second) && Spell(Text(literal)) == "';'"
  {
    assert literal[1..] == "" && TextLiteral.Doubled('\'', literal) == literal;
    assert ByteLength(literal) == 1 + ByteLength(literal[1..]) == 1;
  }

  lemma FirstText(a: string, b: string, c: string, d: string)
    requires a == "SELECT" && b == "';'" && c == " ; */" && d == "-- trailing"
    ensures a + (" " + (b + (" " + ("/*" + c + (";" + (" " + d)))))) == "SELECT ';' /* ; */; -- trailing"
  {
  }

  lemma SecondText(a: string, b: string, c: string)
    requires a == "SELECT" && b == "1" && c == "-- ;"
    ensures a + (" " + (b + (" " + c))) == "SELECT 1 -- ;"
  {
  }

  /** Two examples: the semicolon after a comment counts, the one in a comment does not. */
  lemma CommentExamples(u: Unicode, complete: string, incomplete: string)
    requires complete == "SELECT ';' /* ; */; -- trailing" && incomplete == "SELECT 1 -- ;"
    ensures IsComplete(u, complete) && !IsComplete(u, incomplete)
  {
    var word, literal, digits, first, second := "SELECT", ";", "1", "-- trailing", "-- ;";
    var marks := [Char(' '), Char(';'), Char(' '), Close];
    ExampleParts(word, literal, digits, first, second);
    SemicolonComment(marks);
    FirstText(word, Spell(Text(literal)), Marks(marks), first);
    FirstExample(u, word, literal, marks, first);
    SecondText(word, digits, second);
    SecondExample(u, word, digits, second);
  }
}
