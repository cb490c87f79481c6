/** The SQL lexer as the dump importer uses it (crates/radixdb-sql/src/lexer).

Only what `statement_complete` looks at is kept of a token: whether it is an error, the end of
input, a comment, a semicolon or anything else. Text is a sequence of Unicode scalar values; how
Rust classifies those outside ASCII is a parameter.
*/
module SqlLexer {
  import opened Common

  const MAX_LITERAL_BYTES: nat := 8 * 1024 * 1024

  datatype Unicode = Unicode(alphabetic: char -> bool, alphanumeric: char -> bool, whitespace: char -> bool)

  datatype Token = Eof | Error | Semicolon | Comment | Other

  /** A token, the input after it, and whether a malformed number left its message pending. */
  datatype Lexed = Lexed(token: Token, rest: string, pending: bool)

  predicate Ascii(c: char) {
    c as int < 128
  }

  predicate Letter(c: char) {
    'a' <= c <= 'z' || 'A' <= c <= 'Z'
  }

  predicate AsciiSpace(c: char) {
    c == ' ' || 9 <= c as int <= 13
  }

  predicate Alphabetic(u: Unicode, c: char) {
    if Ascii(c) then Letter(c) else u.alphabetic(c)
  }

  predicate Alphanumeric(u: Unicode, c: char) {
    if Ascii(c) then Letter(c) || Digit(c) else u.alphanumeric(c)
  }

  predicate Whitespace(u: Unicode, c: char) {
    if Ascii(c) then AsciiSpace(c) else u.whitespace(c)
  }

  predicate Punctuator(c: char) {
    c in ",;().:[]"
  }

  predicate OperatorChar(c: char) {
    c in "=<>!+-*/%|&^~:@"
  }

  predicate Operator(s: string) {
    s in ["=", ">", "<", ">=", "<=", "<>", "!=", "+", "-", "*", "/", "%", "||", "->", "->>", "&", "|", "^", "~",
          "<<", ">>", "<=>", "&&", "@>", "<@", ":=", "=>"]
  }

  function Utf8Size(c: char): nat {
    var n := c as int;
    if n < 0x80 then 1 else if n < 0x800 then 2 else if n < 0x1_0000 then 3 else 4
  }

  function ByteLength(s: string): nat {
    if s == [] then 0 else Utf8Size(s[0]) + ByteLength(s[1..])
  }

  // ---------------------------------------------------------------- runs of characters

  function SkipSpace(u: Unicode, s: string): (r: string)
    ensures |r| <= |s|
  {
    if s != [] && Whitespace(u, s[0]) then SkipSpace(u, s[1..]) else s
  }

  function SkipDigits(s: string): (r: string)
    ensures |r| <= |s|
  {
    if s != [] && Digit(s[0]) then SkipDigits(s[1..]) else s
  }

  /** Identifier characters; `dollar` tells whether `$` is one. */
  function SkipWord(u: Unicode, s: string, dollar: bool): (r: string)
    ensures |r| <= |s|
  {
    if s != [] && (Alphanumeric(u, s[0]) || s[0] == '_' || (dollar && s[0] == '$')) then SkipWord(u, s[1..], dollar)
        else s
  }

  // ---------------------------------------------------------------- delimited tokens

  datatype Body = Closed(content: string, rest: string) | Broken

  function Prepend(text: string, body: Body): Body {
    if body.Closed? then body.(content := text + body.content) else Broken
  }

  /** A string literal after its opening quote: quotes double, a backslash keeps the next character. */
  function StringBody(s: string): (b: Body)
    ensures b.Closed? ==> |b.rest| < |s|
  {
    if s == [] || s[0] == '\0' then Broken
    else if s[0] == '\'' then
      if |s| > 1 && s[1] == '\'' then Prepend("'", StringBody(s[2..])) else Closed([], s[1..])
    else if s[0] == '\\' && |s| > 1 && s[1] != '\0' then Prepend(s[..2], StringBody(s[2..]))
    else Prepend(s[..1], StringBody(s[1..]))
  }

  /** The byte limit of literals; the copying path does not count the closing quote. */
  predicate TooLong(content: string) {
    if '\'' in content || '\\' in content then 1 + ByteLength(content) > MAX_LITERAL_BYTES
    else 2 + ByteLength(content) > MAX_LITERAL_BYTES
  }

  /** A quoted identifier after its opening quote; quotes double. */
  function NameBody(q: char, s: string): (b: Body)
    ensures b.Closed? ==> |b.rest| < |s|
  {
    if s == [] || s[0] == '\0' then Broken
    else if s[0] == q then
      if |s| > 1 && s[1] == q then Prepend([q], NameBody(q, s[2..])) else Closed([], s[1..])
    else Prepend(s[..1], NameBody(q, s[1..]))
  }

  function LineComment(s: string): (b: Body)
    ensures b.Closed? ==> |b.rest| <= |s|
  {
    if s == [] || s[0] == '\n' then Closed([], s)
    else if s[0] == '\0' then Broken
    else LineComment(s[1..])
  }

  /** A block comment after its opening; comments nest. */
  function BlockComment(s: string, depth: nat): (b: Body)
    ensures b.Closed? ==> |b.rest| <= |s|
  {
    if depth == 0 then Closed([], s)
    else if s == [] || s[0] == '\0' then Broken
    else if |s| > 1 && s[0] == '/' && s[1] == '*' then BlockComment(s[2..], depth + 1)
    else if |s| > 1 && s[0] == '*' && s[1] == '/' then BlockComment(s[2..], depth - 1)
    else BlockComment(s[1..], depth)
  }

  // ---------------------------------------------------------------- numbers and operators

  /** A number from its first digit on. An exponent without digits leaves its message pending. */
  function Number(s: string): (l: Lexed)
    requires s != []
    ensures |l.rest| < |s|
  {
    var a := SkipDigits(s[1..]);
    var b := if |a| > 1 && a[0] == '.' && Digit(a[1]) then SkipDigits(a[1..]) else a;
    if b != [] && (b[0] == 'e' || b[0] == 'E') then
      var c := if |b| > 1 && (b[1] == '+' || b[1] == '-') then b[2..] else b[1..];
      if c == [] || !Digit(c[0]) then Lexed(Other, c, true) else Lexed(Other, SkipDigits(c), false)
    else Lexed(Other, b, false)
  }

  function OperatorEnd(s: string): (r: string)
    requires s != []
    ensures |r| < |s|
  {
    if |s| > 1 && Operator(s[..2]) then (if |s| > 2 && Operator(s[..3]) then s[3..] else s[2..]) else s[1..]
  }

  // ---------------------------------------------------------------- one token

  function Delimited(body: Body, broken: bool, token: Token, fallback: string): (l: Lexed)
    ensures l.rest == if body.Closed? then body.rest else fallback
  {
    if body.Closed? then Lexed(if broken then Error else token, body.rest, false) else Lexed(Error, fallback, false)
  }

  function NextToken(u: Unicode, input: string, pending: bool): (l: Lexed)
    ensures !l.token.Eof? ==> |l.rest| < |input|
  {
    var s := SkipSpace(u, input);
    if s == [] then Lexed(Eof, s, pending)
    else
      var c, more := s[0], s[1..];
      var peek := if more == [] then '\0' else more[0];
      if c == '\0' then Lexed(Error, more, pending)
      else if c == '\'' then
        var b := StringBody(more);
        Delimited(b, pending || (b.Closed? && TooLong(b.content)), Other, [])
      else if c == '"' || c == '`' then Delimited(NameBody(c, more), pending, Other, [])
      else if Digit(c) then
        var n := Number(s);
        n.(pending := n.pending || pending)
      else if c == '#' then Delimited(LineComment(more), pending, Comment, [])
      else if c == '-' && peek == '-' then Delimited(LineComment(s[2..]), pending, Comment, [])
      else if c == '/' && peek == '*' then Delimited(BlockComment(s[2..], 1), pending, Comment, [])
      else if c == '$' && Digit(peek) then Lexed(Other, SkipDigits(more), pending)
      else if c == '?' then Lexed(Other, more, pending)
      else if c == ':' && (Alphabetic(u, peek) || peek == '_') then Lexed(Other, SkipWord(u, more, false), pending)
      else if c == ':' && peek == '=' then Lexed(Other, OperatorEnd(s), pending)
      else if c == '*' then Lexed(Other, more, pending)
      else if Punctuator(c) then Lexed(if c == ';' then Semicolon else Other, more, pending)
      else if OperatorChar(c) then Lexed(Other, OperatorEnd(s), pending)
      else if Alphabetic(u, c) || c == '_' then Lexed(Other, SkipWord(u, more, true), pending)
      else Lexed(Error, more, pending)
  }

  // ---------------------------------------------------------------- statement completeness

  /** Whether the last token that is not a comment is a semicolon, every token being well formed. */
  function Complete(u: Unicode, s: string, pending: bool, terminal: bool): bool
    decreases |s|
  {
    var l := NextToken(u, s, pending);
    match l.token
    case Error => false
    case Eof => terminal
    case Comment => Complete(u, l.rest, l.pending, terminal)
    case Semicolon => Complete(u, l.rest, l.pending, true)
    case Other => Complete(u, l.rest, l.pending, false)
  }

  predicate IsComplete(u: Unicode, sql: string) {
    Complete(u, sql, false, false)
  }

  /** `statement_complete` (src/sql_dump.rs:909-927). */
  method StatementComplete(u: Unicode, sql: string) returns (complete: bool)
    ensures complete == IsComplete(u, sql)
  {
    var rest, pending, terminal := sql, false, false;
    while true
      invariant Complete(u, rest, pending, terminal) == IsComplete(u, sql)
      decreases |rest|
    {
      var l := NextToken(u, rest, pending);
      if l.token.Error? {
        return false;
      }
      if l.token.Eof? {
        return terminal;
      }
      if !l.token.Comment? {
        terminal := l.token.Semicolon?;
      }
      rest, pending := l.rest, l.pending;
    }
  }
}
