/** The MQL scanner of src/mql/lexer.rs: spans, tokens and their kinds, a
    specification of one scanning step as a function over the input
    characters, and the Lexer object whose NextToken is proved to follow it. */
module MqlLexer {
  import opened Wrappers

  /** A half-open byte-offset interval [start, end) of the source text. */
  datatype Span = Span(start: nat, end: nat) {

    /** This span covers every byte of `other`. */
    predicate Contains(other: Span) {
      start <= other.start && other.end <= end
    }

    /** The smallest span that covers both spans. */
    function Merge(other: Span): (r: Span)
      ensures r.Contains(this) && r.Contains(other)
      ensures r.start == start || r.start == other.start
      ensures r.end == end || r.end == other.end
    {
      Span(if start <= other.start then start else other.start,
           if other.end <= end then end else other.end)
    }
  }

  /** The tokens of MQL. The names of the two braces are those of the source,
      where the character '{' scans as RBrace and '}' as LBrace. */
  datatype Token =
    | Colon | RBracket | LBracket | RParen | LParen | RBrace | LBrace
    | Dot | Comma | Semicolon | Asterisk
    | ArrowRight | ArrowLeft
    | GreaterThan | SmallerThan | Equals | GreaterThanOrEquals | SmallerThanOrEquals
    | Identifier(name: string)
    | StringLiteral(text: string)
    | IntLiteral(value: nat)
    | FloatLiteral(literal: string)
    | Select | Create | Where | Like | Link | From | And | Or
    | Unknown(c: char)
  {
    /** The token with its payload erased. */
    function Kind(): (k: TokenKind)
      ensures k == TokenKind.Identifier <==> Identifier?
    {
      match this
      case Colon => TokenKind.Colon
      case RBracket => TokenKind.RBracket
      case LBracket => TokenKind.LBracket
      case RParen => TokenKind.RParen
      case LParen => TokenKind.LParen
      case RBrace => TokenKind.RBrace
      case LBrace => TokenKind.LBrace
      case Dot => TokenKind.Dot
      case Comma => TokenKind.Comma
      case Semicolon => TokenKind.Semicolon
      case Asterisk => TokenKind.Asterisk
      case ArrowRight => TokenKind.ArrowRight
      case ArrowLeft => TokenKind.ArrowLeft
      case GreaterThan => TokenKind.GreaterThan
      case SmallerThan => TokenKind.SmallerThan
      case Equals => TokenKind.Equals
      case GreaterThanOrEquals => TokenKind.GreaterThanOrEquals
      case SmallerThanOrEquals => TokenKind.SmallerThanOrEquals
      case Identifier(_) => TokenKind.Identifier
      case StringLiteral(_) => TokenKind.StringLiteral
      case IntLiteral(_) => TokenKind.IntLiteral
      case FloatLiteral(_) => TokenKind.FloatLiteral
      case Select => TokenKind.Select
      case Create => TokenKind.Create
      case Where => TokenKind.Where
      case Like => TokenKind.Like
      case Link => TokenKind.Link
      case From => TokenKind.From
      case And => TokenKind.And
      case Or => TokenKind.Or
      case Unknown(_) => TokenKind.Unknown
    }

    /** The constructor carries a payload (text, number or character). */
    predicate HasPayload() {
      Identifier? || StringLiteral? || IntLiteral? || FloatLiteral? || Unknown?
    }
  }

  /** Token constructors without their payloads, used for grammar matching. */
  datatype TokenKind =
    | Colon | RBracket | LBracket | RParen | LParen | RBrace | LBrace
    | Dot | Comma | Semicolon | Asterisk
    | ArrowRight | ArrowLeft
    | GreaterThan | SmallerThan | Equals | GreaterThanOrEquals | SmallerThanOrEquals
    | Identifier | StringLiteral | IntLiteral | FloatLiteral
    | Select | Create | Where | Like | Link | From | And | Or
    | Unknown

  // ---------------------------------------------------------------------
  // Character classes and UTF-8 widths

  /** `char::is_alphabetic`, restricted to ASCII letters. */
  predicate IsAlphabetic(c: char) {
    ('a' <= c <= 'z') || ('A' <= c <= 'Z')
  }

  /** `char::is_numeric`, restricted to ASCII digits. */
  predicate IsNumeric(c: char) {
    '0' <= c <= '9'
  }

  /** `char::is_alphanumeric`, restricted to ASCII. */
  predicate IsAlphanumeric(c: char) {
    IsAlphabetic(c) || IsNumeric(c)
  }

  /** The characters that may continue an identifier. */
  predicate IsIdentifierChar(c: char) {
    IsAlphanumeric(c) || c == '_'
  }

  /** `char::is_whitespace`: the Unicode White_Space code points. */
  predicate IsWhitespace(c: char) {
    var n := c as int;
    (9 <= n <= 13) || n == 0x20 || n == 0x85 || n == 0xA0 || n == 0x1680
    || (0x2000 <= n <= 0x200A) || n == 0x2028 || n == 0x2029 || n == 0x202F
    || n == 0x205F || n == 0x3000
  }

  /** `char::len_utf8`. */
  function Utf8Len(c: char): (n: nat)
    ensures 1 <= n <= 4
  {
    var v := c as int;
    if v < 0x80 then 1 else if v < 0x800 then 2 else if v < 0x10000 then 3 else 4
  }

  /** The byte offset of character index `i`: the UTF-8 length of s[..i]. */
  function Offset(s: seq<char>, i: nat): nat
    requires i <= |s|
  {
    if i == 0 then 0 else Offset(s, i - 1) + Utf8Len(s[i - 1])
  }

  // ---------------------------------------------------------------------
  // One scanning step, as a function of the input and a character index

  /** The single-character tokens, with the source's brace names. */
  function SingleCharToken(c: char): Option<Token> {
    if c == ':' then Some(Token.Colon)
    else if c == '(' then Some(Token.LParen)
    else if c == ')' then Some(Token.RParen)
    else if c == '[' then Some(Token.LBracket)
    else if c == ']' then Some(Token.RBracket)
    else if c == '{' then Some(Token.RBrace)
    else if c == '}' then Some(Token.LBrace)
    else if c == '.' then Some(Token.Dot)
    else if c == ',' then Some(Token.Comma)
    else if c == '*' then Some(Token.Asterisk)
    else if c == ';' then Some(Token.Semicolon)
    else None
  }

  /** The character an escape `\c` inside a string literal stands for. */
  function Unescape(c: char): char {
    if c == 'n' then '\n'
    else if c == 't' then '\t'
    else if c == 'r' then '\r'
    else if c == '\\' then '\\'
    else if c == '"' then '"'
    else c
  }

  /** The keyword spelled by `word`, or an identifier carrying it. */
  function KeywordOrIdentifier(word: string): Token {
    if word == "select" then Token.Select
    else if word == "where" then Token.Where
    else if word == "create" then Token.Create
    else if word == "like" then Token.Like
    else if word == "link" then Token.Link
    else if word == "from" then Token.From
    else if word == "and" || word == "&&" then Token.And
    else if word == "or" || word == "||" then Token.Or
    else Token.Identifier(word)
  }

  /** The value of a run of ASCII digits, read as `str::parse` reads it:
      each further digit multiplies the value so far by ten. */
  function DecimalValue(digits: seq<char>): nat {
    if |digits| == 0 then 0
    else DecimalValue(digits[..|digits| - 1]) * 10 + DigitValue(digits[|digits| - 1])
  }

  function DigitValue(c: char): nat {
    if IsNumeric(c) then c as int - '0' as int else 0
  }

  /** The end of the maximal run of characters satisfying `p` from index `i`. */
  function RunEnd(s: seq<char>, i: nat, p: char -> bool): (j: nat)
    requires i <= |s|
    ensures i <= j <= |s|
    ensures forall k :: i <= k < j ==> p(s[k])
    ensures j == |s| || !p(s[j])
    decreases |s| - i
  {
    if i < |s| && p(s[i]) then RunEnd(s, i + 1, p) else i
  }

  /** The body of a string literal from index `j` (just after the opening
      quote, or later), with `acc` decoded so far: the decoded text and the
      index after the closing quote, or the end of input. */
  function ScanString(s: seq<char>, j: nat, acc: string): (r: (string, nat))
    requires j <= |s|
    ensures j <= r.1 <= |s|
    ensures acc <= r.0 && |r.0| <= |acc| + (r.1 - j)
    decreases |s| - j
  {
    if j == |s| then (acc, j)
    else if s[j] == '"' then (acc, j + 1)
    else if s[j] == '\\' then
      if j + 1 == |s| then (acc, j + 1)
      else ScanString(s, j + 2, acc + [Unescape(s[j + 1])])
    else ScanString(s, j + 1, acc + [s[j]])
  }

  /** A token together with the character indices [start, end) it spans. */
  datatype Lexeme = Lexeme(token: Token, start: nat, end: nat)

  /** The number token starting at digit index `i`: an integer, or a float
      when the digit run is followed by '.' and another digit. */
  function ScanNumber(s: seq<char>, i: nat): (l: Lexeme)
    requires i < |s|
    ensures l.start == i < l.end <= |s|
  {
    var j := RunEnd(s, i + 1, IsNumeric);
    if j + 1 < |s| && s[j] == '.' && IsNumeric(s[j + 1]) then
      var k := RunEnd(s, j + 1, IsNumeric);
      Lexeme(Token.FloatLiteral(s[i..k]), i, k)
    else
      Lexeme(Token.IntLiteral(DecimalValue(s[i..j])), i, j)
  }

  /** One step of the scanner from character index `i`: the next token and
      the characters it occupies, after any whitespace; None at end of input. */
  function ScanAt(s: seq<char>, i: nat): (r: Option<Lexeme>)
    requires i <= |s|
    ensures r.Some? ==> i <= r.value.start < r.value.end <= |s|
    ensures r.Some? ==> !IsWhitespace(s[r.value.start])
    ensures r.Some? ==> forall k :: i <= k < r.value.start ==> IsWhitespace(s[k])
    ensures r.None? <==> forall k :: i <= k < |s| ==> IsWhitespace(s[k])
    decreases |s| - i
  {
    if i == |s| then None
    else
      var c := s[i];
      if SingleCharToken(c).Some? then Some(Lexeme(SingleCharToken(c).value, i, i + 1))
      else if c == '"' then
        var str := ScanString(s, i + 1, []);
        Some(Lexeme(Token.StringLiteral(str.0), i, str.1))
      else if c == '-' then
        if i + 1 < |s| && s[i + 1] == '>' then Some(Lexeme(Token.ArrowRight, i, i + 2))
        else Some(Lexeme(Token.Unknown('-'), i, i + 1))
      else if c == '<' then
        if i + 1 < |s| && s[i + 1] == '=' then Some(Lexeme(Token.SmallerThanOrEquals, i, i + 2))
        else Some(Lexeme(Token.SmallerThan, i, i + 1))
      else if c == '>' then
        if i + 1 < |s| && s[i + 1] == '=' then Some(Lexeme(Token.GreaterThanOrEquals, i, i + 2))
        else Some(Lexeme(Token.GreaterThan, i, i + 1))
      else if c == '=' then Some(Lexeme(Token.Equals, i, i + 1))
      else if IsAlphabetic(c) then
        var j := RunEnd(s, i + 1, IsIdentifierChar);
        Some(Lexeme(KeywordOrIdentifier(s[i..j]), i, j))
      else if IsNumeric(c) then Some(ScanNumber(s, i))
      else if IsWhitespace(c) then ScanAt(s, RunEnd(s, i + 1, IsWhitespace))
      else Some(Lexeme(Token.Unknown(c), i, i + 1))
  }

  /** Every lexeme the scanner yields from index `i` until end of input. */
  function LexemesFrom(s: seq<char>, i: nat): (ls: seq<Lexeme>)
    requires i <= |s|
    ensures forall k :: 0 <= k < |ls| ==> i <= ls[k].start < ls[k].end <= |s|
    ensures forall k :: 0 <= k < |ls| - 1 ==> ls[k].end <= ls[k + 1].start
    decreases |s| - i
  {
    match ScanAt(s, i)
    case None => []
    case Some(l) => [l] + LexemesFrom(s, l.end)
  }

  function Lexemes(s: seq<char>): seq<Lexeme> {
    LexemesFrom(s, 0)
  }

  /** The byte span of a lexeme. */
  function SpanOf(s: seq<char>, l: Lexeme): Span
    requires l.start <= l.end <= |s|
  {
    Span(Offset(s, l.start), Offset(s, l.end))
  }

  /** What one call of the iterator yields for a scanning step. */
  function Emitted(s: seq<char>, r: Option<Lexeme>): Option<(Token, Span)>
    requires r.Some? ==> r.value.start <= r.value.end <= |s|
  {
    match r
    case None => None
    case Some(l) => Some((l.token, SpanOf(s, l)))
  }

  /** The whole (token, span) sequence the Lexer iterator yields on `s`. */
  function Lex(s: seq<char>): seq<(Token, Span)> {
    var ls := Lexemes(s);
    seq(|ls|, k requires 0 <= k < |ls| => (ls[k].token, SpanOf(s, ls[k])))
  }

  /** The tokens alone, from character index `i` on, as the parser reads
      them from a lexer whose cursor is at `i`. */
  function TokensFrom(s: seq<char>, i: nat): seq<Token>
    requires i <= |s|
  {
    var ls := LexemesFrom(s, i);
    seq(|ls|, k requires 0 <= k < |ls| => ls[k].token)
  }

  function Tokens(s: seq<char>): seq<Token> {
    TokensFrom(s, 0)
  }

  // ---------------------------------------------------------------------
  // The Lexer object

  /** The scanner state: the remaining characters (as an index into the
      input) and the byte offset of that index. */
  class Lexer {
    const input: seq<char>
    var cursor: nat
    var position: nat

    ghost predicate Valid()
      reads this
    {
      cursor <= |input| && position == Offset(input, cursor)
    }

    constructor(text: seq<char>)
      ensures Valid() && input == text && cursor == 0 && position == 0
    {
      input := text;
      cursor := 0;
      position := 0;
    }

    /** Consume the next character if `f` accepts it, advancing the byte
        offset by its UTF-8 length. */
    method NextCharIf(f: char -> bool) returns (r: Option<char>)
      requires Valid()
      modifies this
      ensures Valid()
      ensures old(cursor) < |input| && f(input[old(cursor)]) ==>
                r == Some(input[old(cursor)]) && cursor == old(cursor) + 1
      ensures !(old(cursor) < |input| && f(input[old(cursor)])) ==>
                r == None && cursor == old(cursor)
    {
      if cursor < |input| && f(input[cursor]) {
        r := Some(input[cursor]);
        position := position + Utf8Len(input[cursor]);
        cursor := cursor + 1;
      } else {
        r := None;
      }
    }

    /** Consume the next character, if any. */
    method NextChar() returns (r: Option<char>)
      requires Valid()
      modifies this
      ensures Valid()
      ensures old(cursor) < |input| ==> r == Some(input[old(cursor)]) && cursor == old(cursor) + 1
      ensures old(cursor) == |input| ==> r == None && cursor == old(cursor)
    {
      r := NextCharIf(_ => true);
    }

    /** The character `n` places ahead of the cursor, without consuming it. */
    function PeekNth(n: nat): (r: Option<char>)
      reads this
      requires Valid()
      ensures r.Some? <==> cursor + n < |input|
      ensures r.Some? ==> r.value == input[cursor + n]
    {
      if cursor + n < |input| then Some(input[cursor + n]) else None
    }

    /** The token paired with the span from `start` to the current offset. */
    function EmitToken(start: nat, token: Token): (r: Option<(Token, Span)>)
      reads this
      ensures r.Some? && r.value.0 == token
      ensures r.value.1 == Span(start, position)
    {
      Some((token, Span(start, position)))
    }

    /** The string-literal arm: decode up to the closing quote or the end. */
    method LexString() returns (text: string)
      requires Valid()
      modifies this
      ensures Valid()
      ensures (text, cursor) == ScanString(input, old(cursor), [])
    {
      ghost var target := ScanString(input, cursor, []);
      text := [];
      var done := false;
      while !done
        invariant Valid()
        invariant !done ==> ScanString(input, cursor, text) == target
        invariant done ==> (text, cursor) == target
        decreases |input| - cursor, !done
      {
        var c := NextChar();
        if c.None? {
          done := true;
        } else if c.value == '"' {
          done := true;
        } else if c.value == '\\' {
          var e := NextChar();
          if e.Some? {
            text := text + [Unescape(e.value)];
          } else {
            done := true;
          }
        } else {
          text := text + [c.value];
        }
      }
    }

    /** Consume the maximal run of characters accepted by `p`, appending
        them to `prefix`. */
    method LexRun(prefix: string, p: char -> bool) returns (word: string)
      requires Valid()
      modifies this
      ensures Valid()
      ensures cursor == RunEnd(input, old(cursor), p)
      ensures word == prefix + input[old(cursor)..cursor]
    {
      ghost var from := cursor;
      word := prefix;
      var c := NextCharIf(p);
      while c.Some?
        invariant Valid() && from <= cursor
        invariant RunEnd(input, from, p) == RunEnd(input, cursor, p)
        invariant c.Some? ==> from < cursor && word + [c.value] == prefix + input[from..cursor]
        invariant c.None? ==> word == prefix + input[from..cursor]
        invariant c.None? ==> cursor == |input| || !p(input[cursor])
        decreases |input| - cursor, c.Some?
      {
        word := word + [c.value];
        c := NextCharIf(p);
      }
    }

    /** The numeric arm, entered after the first digit `d` was consumed. */
    method LexNumber(d: char) returns (token: Token)
      requires Valid() && 0 < cursor && input[cursor - 1] == d && IsNumeric(d)
      modifies this
      ensures Valid()
      ensures token == ScanNumber(input, old(cursor) - 1).token
      ensures cursor == ScanNumber(input, old(cursor) - 1).end
    {
      ghost var i := cursor - 1;
      var text := LexRun([d], IsNumeric);
      ghost var j := cursor;
      assert text == input[i..j];
      var isFloat := false;
      if PeekNth(0) == Some('.') {
        var next := PeekNth(1);
        if next.Some? && IsNumeric(next.value) {
          isFloat := true;
          var _ := NextChar();
          text := LexRun(text + ['.'], IsNumeric);
          assert text == input[i..cursor];
        }
      }
      assert isFloat == (j + 1 < |input| && input[j] == '.' && IsNumeric(input[j + 1]));
      if isFloat {
        token := Token.FloatLiteral(text);
      } else {
        token := Token.IntLiteral(DecimalValue(text));
      }
    }

    /** `next_token`: skip whitespace, scan one token and emit it with its
        byte span; None exactly at the end of the input. */
    method NextToken() returns (r: Option<(Token, Span)>)
      requires Valid()
      modifies this
      ensures Valid()
      ensures r == Emitted(input, ScanAt(input, old(cursor)))
      ensures ScanAt(input, old(cursor)).None? ==> cursor == |input|
      ensures ScanAt(input, old(cursor)).Some? ==> cursor == ScanAt(input, old(cursor)).value.end
      decreases |input| - cursor
    {
      var currentPosition := position;
      ghost var i := cursor;
      var next := NextChar();
      if next.None? {
        return None;
      }
      var c := next.value;
      var single := SingleCharToken(c);
      if single.Some? {
        r := EmitToken(currentPosition, single.value);
      } else if c == '"' {
        var text := LexString();
        r := EmitToken(currentPosition, Token.StringLiteral(text));
      } else if c == '-' {
        var arrow := NextCharIf(x => x == '>');
        if arrow.Some? {
          return EmitToken(currentPosition, Token.ArrowRight);
        }
        r := EmitToken(currentPosition, Token.Unknown('-'));
      } else if c == '<' {
        var eq := NextCharIf(x => x == '=');
        if eq.Some? {
          r := EmitToken(currentPosition, Token.SmallerThanOrEquals);
        } else {
          r := EmitToken(currentPosition, Token.SmallerThan);
        }
      } else if c == '>' {
        var eq := NextCharIf(x => x == '=');
        if eq.Some? {
          r := EmitToken(currentPosition, Token.GreaterThanOrEquals);
        } else {
          r := EmitToken(currentPosition, Token.GreaterThan);
        }
      } else if c == '=' {
        r := EmitToken(currentPosition, Token.Equals);
      } else if IsAlphabetic(c) {
        var word := LexRun([c], IsIdentifierChar);
        assert word == input[i..cursor];
        r := EmitToken(currentPosition, KeywordOrIdentifier(word));
      } else if IsNumeric(c) {
        var token := LexNumber(c);
        r := EmitToken(currentPosition, token);
      } else if IsWhitespace(c) {
        var _ := LexRun([], IsWhitespace);
        r := NextToken();
      } else {
        r := EmitToken(currentPosition, Token.Unknown(c));
      }
    }

    /** `Iterator::next`: the next (token, span) pair. */
    method Next() returns (r: Option<(Token, Span)>)
      requires Valid()
      modifies this
      ensures Valid()
      ensures r == Emitted(input, ScanAt(input, old(cursor)))
      ensures ScanAt(input, old(cursor)).None? ==> cursor == |input|
      ensures ScanAt(input, old(cursor)).Some? ==> cursor == ScanAt(input, old(cursor)).value.end
    {
      r := NextToken();
    }
  }
}
