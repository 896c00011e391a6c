/** Properties of the MQL scanner: spans, token kinds, what each token says
    about the characters it was scanned from, string escapes and numbers. */
module MqlLexerProps {
  import opened Wrappers
  import opened MqlLexer

  // ---------------------------------------------------------------------
  // Span::merge

  lemma MergeCommutes(a: Span, b: Span)
    ensures a.Merge(b) == b.Merge(a)
  {
  }

  /** Any span covering both spans also covers their merge. */
  lemma MergeIsSmallest(a: Span, b: Span, c: Span)
    requires c.Contains(a) && c.Contains(b)
    ensures c.Contains(a.Merge(b))
  {
  }

  // ---------------------------------------------------------------------
  // Token::kind

  /** The token a kind stands for, with empty payloads. */
  function Canonical(k: TokenKind): Token {
    match k
    case Colon => Token.Colon
    case RBracket => Token.RBracket
    case LBracket => Token.LBracket
    case RParen => Token.RParen
    case LParen => Token.LParen
    case RBrace => Token.RBrace
    case LBrace => Token.LBrace
    case Dot => Token.Dot
    case Comma => Token.Comma
    case Semicolon => Token.Semicolon
    case Asterisk => Token.Asterisk
    case ArrowRight => Token.ArrowRight
    case ArrowLeft => Token.ArrowLeft
    case GreaterThan => Token.GreaterThan
    case SmallerThan => Token.SmallerThan
    case Equals => Token.Equals
    case GreaterThanOrEquals => Token.GreaterThanOrEquals
    case SmallerThanOrEquals => Token.SmallerThanOrEquals
    case Identifier => Token.Identifier("")
    case StringLiteral => Token.StringLiteral("")
    case IntLiteral => Token.IntLiteral(0)
    case FloatLiteral => Token.FloatLiteral("")
    case Select => Token.Select
    case Create => Token.Create
    case Where => Token.Where
    case Like => Token.Like
    case Link => Token.Link
    case From => Token.From
    case And => Token.And
    case Or => Token.Or
    case Unknown => Token.Unknown(' ')
  }

  /** Every kind is the kind of some token: `kind` is onto. */
  lemma KindIsOnto(k: TokenKind)
    ensures Canonical(k).Kind() == k
  {
    match k
      case Colon =>
      case RBracket =>
      case LBracket =>
      case RParen =>
      case LParen =>
      case RBrace =>
      case LBrace =>
      case Dot =>
      case Comma =>
      case Semicolon =>
      case Asterisk =>
      case ArrowRight =>
      case ArrowLeft =>
      case GreaterThan =>
      case SmallerThan =>
      case Equals =>
      case GreaterThanOrEquals =>
      case SmallerThanOrEquals =>
      case Identifier =>
      case StringLiteral =>
      case IntLiteral =>
      case FloatLiteral =>
      case Select =>
      case Create =>
      case Where =>
      case Like =>
      case Link =>
      case From =>
      case And =>
      case Or =>
      case Unknown =>
  }

  /** On a token without payload, the canonical token of its kind is the
      token itself. */
  lemma CanonicalOfPayloadFree(t: Token)
    requires !t.HasPayload()
    ensures Canonical(t.Kind()) == t
  {
  }

  /** The canonical token of a kind carries a payload exactly when the
      tokens of that kind do. */
  lemma CanonicalPayload(t: Token)
    ensures Canonical(t.Kind()).HasPayload() == t.HasPayload()
  {
  }

  /** Two tokens built by the same constructor, whatever their payloads;
      a payload-free token only matches itself. */
  predicate SameConstructor(a: Token, b: Token) {
    || (a.Identifier? && b.Identifier?)
    || (a.StringLiteral? && b.StringLiteral?)
    || (a.IntLiteral? && b.IntLiteral?)
    || (a.FloatLiteral? && b.FloatLiteral?)
    || (a.Unknown? && b.Unknown?)
    || (!a.HasPayload() && a == b)
  }

  /** The kind erases exactly the payload: two tokens have the same kind
      if and only if they are built by the same constructor. */
  lemma KindIgnoresPayload(a: Token, b: Token)
    ensures a.Kind() == b.Kind() <==> SameConstructor(a, b)
  {
    CanonicalConstructor(a);
    CanonicalConstructor(b);
    KindIsOnto(a.Kind());
    KindIsOnto(b.Kind());
  }

  /** A token and the canonical token of its kind share their constructor. */
  lemma CanonicalConstructor(t: Token)
    ensures SameConstructor(t, Canonical(t.Kind()))
  {
  }


  // ---------------------------------------------------------------------
  // Byte offsets

  /** Each character adds between one and four bytes. */
  lemma {:induction false} OffsetGrows(s: seq<char>, i: nat, j: nat)
    requires i <= j <= |s|
    ensures j - i <= Offset(s, j) - Offset(s, i) <= 4 * (j - i)
    decreases j
  {
    if i < j {
      OffsetGrows(s, i, j - 1);
    }
  }

  // ---------------------------------------------------------------------
  // The token sequence as a whole

  /** The scanner yields at most one token per remaining character. */
  lemma {:induction false} LexemeCount(s: seq<char>, i: nat)
    requires i <= |s|
    ensures |LexemesFrom(s, i)| <= |s| - i
    decreases |s| - i
  {
    match ScanAt(s, i)
    case None =>
    case Some(l) => LexemeCount(s, l.end);
  }

  /** The scanner stops exactly when only whitespace is left: it yields
      nothing from `i` iff s[i..] is whitespace, and everything after the
      last token is whitespace. */
  lemma {:induction false} LexingReachesEnd(s: seq<char>, i: nat)
    requires i <= |s|
    ensures LexemesFrom(s, i) == [] <==> forall k :: i <= k < |s| ==> IsWhitespace(s[k])
    ensures LexemesFrom(s, i) != [] ==>
              forall k :: Last(LexemesFrom(s, i)).end <= k < |s| ==> IsWhitespace(s[k])
    decreases |s| - i
  {
    match ScanAt(s, i)
    case None =>
    case Some(l) =>
      LexingReachesEnd(s, l.end);
  }

  function Last<T>(xs: seq<T>): T
    requires xs != []
  {
    xs[|xs| - 1]
  }

  /** Every character that is not whitespace belongs to exactly one token:
      the lexemes are ordered, disjoint and cover the non-blank input. */
  lemma {:induction false} LexemesCover(s: seq<char>, i: nat, k: nat)
    requires i <= k < |s| && !IsWhitespace(s[k])
    ensures exists n :: 0 <= n < |LexemesFrom(s, i)| &&
              LexemesFrom(s, i)[n].start <= k < LexemesFrom(s, i)[n].end
    decreases |s| - i
  {
    match ScanAt(s, i)
    case None =>
    case Some(l) =>
      var ls := LexemesFrom(s, i);
      assert ls[0] == l;
      if k >= l.end {
        LexemesCover(s, l.end, k);
        var n :| 0 <= n < |LexemesFrom(s, l.end)| &&
                 LexemesFrom(s, l.end)[n].start <= k < LexemesFrom(s, l.end)[n].end;
        assert ls[n + 1] == LexemesFrom(s, l.end)[n];
      }
  }

  /** The byte spans of the emitted tokens are non-empty, strictly
      increasing and non-overlapping, and lie inside the input. */
  lemma LexSpansOrdered(s: seq<char>)
    ensures |Lex(s)| <= |s|
    ensures forall a :: 0 <= a < |Lex(s)| ==>
              Lex(s)[a].1.start < Lex(s)[a].1.end <= Offset(s, |s|)
    ensures forall a, b :: 0 <= a < b < |Lex(s)| ==> Lex(s)[a].1.end <= Lex(s)[b].1.start
  {
    var ls := Lexemes(s);
    LexemeCount(s, 0);
    forall a | 0 <= a < |ls|
      ensures Lex(s)[a].1.start < Lex(s)[a].1.end <= Offset(s, |s|)
    {
      OffsetGrows(s, ls[a].start, ls[a].end);
      OffsetGrows(s, ls[a].end, |s|);
    }
    forall a, b | 0 <= a < b < |ls|
      ensures Lex(s)[a].1.end <= Lex(s)[b].1.start
    {
      LexemesSorted(ls, a, b);
      OffsetGrows(s, ls[a].end, ls[b].start);
    }
  }

  /** Lexemes ordered pairwise are ordered transitively. */
  lemma {:induction false} LexemesSorted(ls: seq<Lexeme>, a: nat, b: nat)
    requires forall k :: 0 <= k < |ls| ==> ls[k].start < ls[k].end
    requires forall k :: 0 <= k < |ls| - 1 ==> ls[k].end <= ls[k + 1].start
    requires a < b < |ls|
    ensures ls[a].end <= ls[b].start
    decreases b - a
  {
    if a + 1 < b {
      LexemesSorted(ls, a + 1, b);
    }
  }

  // ---------------------------------------------------------------------
  // What each token says about the characters it was scanned from

  /** The fixed spelling of a payload-free token. ArrowLeft has none: no
      scanning rule produces it. */
  function Spelling(t: Token): Option<string> {
    match t
    case Colon => Some(":")
    case RBracket => Some("]")
    case LBracket => Some("[")
    case RParen => Some(")")
    case LParen => Some("(")
    case RBrace => Some("{")
    case LBrace => Some("}")
    case Dot => Some(".")
    case Comma => Some(",")
    case Semicolon => Some(";")
    case Asterisk => Some("*")
    case ArrowRight => Some("->")
    case GreaterThan => Some(">")
    case SmallerThan => Some("<")
    case Equals => Some("=")
    case GreaterThanOrEquals => Some(">=")
    case SmallerThanOrEquals => Some("<=")
    case Select => Some("select")
    case Create => Some("create")
    case Where => Some("where")
    case Like => Some("like")
    case Link => Some("link")
    case From => Some("from")
    case And => Some("and")
    case Or => Some("or")
    case _ => None
  }

  predicate IsKeyword(w: string) {
    w in ["select", "where", "create", "like", "link", "from", "and", "or"]
  }

  predicate IsKeywordToken(t: Token) {
    t.Select? || t.Where? || t.Create? || t.Like? || t.Link? || t.From? || t.And? || t.Or?
  }

  /** The character at index k exists and satisfies p. */
  predicate NextIs(s: seq<char>, k: nat, p: char -> bool) {
    k < |s| && p(s[k])
  }

  /** The character at index k exists and is c. */
  predicate NextIsChar(s: seq<char>, k: nat, c: char) {
    k < |s| && s[k] == c
  }

  predicate AllChars(w: seq<char>, p: char -> bool) {
    forall k :: 0 <= k < |w| ==> p(w[k])
  }

  /** Characters that begin some token other than Unknown. */
  predicate StartsToken(c: char) {
    SingleCharToken(c).Some? || c == '"' || c == '-' || c == '<' || c == '>' || c == '='
    || IsAlphabetic(c) || IsNumeric(c) || IsWhitespace(c)
  }

  /** How the token of lexeme `l` relates to the text s[l.start..l.end]
      and to the character after it. */
  ghost predicate WellFormed(s: seq<char>, l: Lexeme)
    requires l.start < l.end <= |s|
  {
    match l.token
    case Identifier(w) => IdentifierShape(s, l.start, l.end, w)
    case StringLiteral(_) => s[l.start] == '"'
    case IntLiteral(n) => IntShape(s, l.start, l.end, n)
    case FloatLiteral(f) => FloatShape(s, l.start, l.end, f)
    case Unknown(c) => UnknownShape(s, l.start, l.end, c)
    case _ => FixedShape(s, l.start, l.end, l.token)
  }

  /** A maximal identifier-character run starting with a letter, spelling no keyword. */
  ghost predicate IdentifierShape(s: seq<char>, i: nat, j: nat, w: string)
    requires i < j <= |s|
  {
    && w == s[i..j] && IsAlphabetic(w[0]) && AllChars(w, IsIdentifierChar)
    && !IsKeyword(w) && !NextIs(s, j, IsIdentifierChar)
  }

  /** A maximal digit run not followed by '.' and a digit, with its value. */
  ghost predicate IntShape(s: seq<char>, i: nat, j: nat, n: nat)
    requires i < j <= |s|
  {
    && AllChars(s[i..j], IsNumeric) && n == DecimalValue(s[i..j])
    && !NextIs(s, j, IsNumeric)
    && !(NextIs(s, j, c => c == '.') && NextIs(s, j + 1, IsNumeric))
  }

  /** Digits, '.', digits (at least one on each side), not followed by a digit. */
  ghost predicate FloatShape(s: seq<char>, i: nat, j: nat, f: string)
    requires i < j <= |s|
  {
    && f == s[i..j] && !NextIs(s, j, IsNumeric)
    && exists d :: 0 < d < |f| - 1 && f[d] == '.' && AllChars(f[..d], IsNumeric)
                   && AllChars(f[d + 1..], IsNumeric)
  }

  /** One character that starts no other token, or a '-' not before '>'. */
  ghost predicate UnknownShape(s: seq<char>, i: nat, j: nat, c: char)
    requires i < j <= |s|
  {
    && s[i..j] == [c]
    && (c == '-' ==> !NextIsChar(s, j, '>'))
    && (c != '-' ==> !StartsToken(c))
  }

  /** The fixed spelling of the token; a keyword is a whole word, and a bare
      '<' or '>' is not followed by '='. */
  ghost predicate FixedShape(s: seq<char>, i: nat, j: nat, t: Token)
    requires i < j <= |s|
  {
    && Spelling(t).Some? && s[i..j] == Spelling(t).value
    && (IsKeywordToken(t) ==> !NextIs(s, j, IsIdentifierChar))
    && (t.SmallerThan? || t.GreaterThan? ==> !NextIsChar(s, j, '='))
  }

  /** The scanning step at a letter: the maximal identifier-character run,
      matched against the keywords. */
  lemma ScanAtWord(s: seq<char>, i: nat)
    requires i < |s| && IsAlphabetic(s[i])
    ensures var j := RunEnd(s, i + 1, IsIdentifierChar);
            ScanAt(s, i) == Some(Lexeme(KeywordOrIdentifier(s[i..j]), i, j))
  {
  }

  // ---------------------------------------------------------------------
  // Reading a text token by token

  /** The tokens from index `i` on are the one scanned at `i`, then those
      after it. */
  lemma TokensStep(s: seq<char>, i: nat, l: Lexeme)
    requires i <= |s| && ScanAt(s, i) == Some(l)
    ensures TokensFrom(s, i) == [l.token] + TokensFrom(s, l.end)
  {
    assert LexemesFrom(s, i) == [l] + LexemesFrom(s, l.end);
  }

  /** A whitespace character is skipped: scanning from it and from the
      character after it yield the same token. */
  lemma SpaceAt(s: seq<char>, i: nat)
    requires i < |s| && IsWhitespace(s[i])
    ensures ScanAt(s, i) == ScanAt(s, i + 1)
  {
    ScanAtSpace(s, i);
    if i + 1 < |s| && IsWhitespace(s[i + 1]) {
      ScanAtSpace(s, i + 1);
      assert RunEnd(s, i + 1, IsWhitespace) == RunEnd(s, i + 2, IsWhitespace);
    } else {
      assert RunEnd(s, i + 1, IsWhitespace) == i + 1;
    }
  }

  /** The scanning step at whitespace goes on after the whole run. */
  lemma ScanAtSpace(s: seq<char>, i: nat)
    requires i < |s| && IsWhitespace(s[i])
    ensures ScanAt(s, i) == ScanAt(s, RunEnd(s, i + 1, IsWhitespace))
  {
    var c := s[i];
    assert SingleCharToken(c).None? && !IsAlphabetic(c) && !IsNumeric(c);
    assert c != '"' && c != '-' && c != '<' && c != '>' && c != '=';
  }

  /** A punctuation character is a token on its own. */
  lemma PunctuationAt(s: seq<char>, i: nat)
    requires i < |s| && SingleCharToken(s[i]).Some?
    ensures ScanAt(s, i) == Some(Lexeme(SingleCharToken(s[i]).value, i, i + 1))
  {
  }

  /** The end of a run is the first index that does not continue it. */
  lemma {:induction false} RunEndIs(s: seq<char>, i: nat, j: nat, p: char -> bool)
    requires i <= j <= |s| && forall k :: i <= k < j ==> p(s[k])
    requires j == |s| || !p(s[j])
    ensures RunEnd(s, i, p) == j
    decreases j - i
  {
    if i < j {
      RunEndIs(s, i + 1, j, p);
    }
  }

  /** A word at `i`: a letter, then identifier characters, ended by the end
      of input or by a character that cannot continue it, scans as the
      keyword or identifier it spells. */
  lemma WordAt(s: seq<char>, i: nat, w: string)
    requires w != [] && IsAlphabetic(w[0]) && forall c | c in w :: IsIdentifierChar(c)
    requires i + |w| <= |s| && s[i..i + |w|] == w
    requires i + |w| == |s| || !IsIdentifierChar(s[i + |w|])
    ensures ScanAt(s, i) == Some(Lexeme(KeywordOrIdentifier(w), i, i + |w|))
  {
    forall k | i + 1 <= k < i + |w|
      ensures IsIdentifierChar(s[k])
    {
      assert s[k] == w[k - i];
    }
    RunEndIs(s, i + 1, i + |w|, IsIdentifierChar);
    ScanAtWord(s, i);
  }

  /** A punctuation character after one whitespace character. */
  lemma SpacedPunctuationAt(s: seq<char>, i: nat)
    requires i + 1 < |s| && IsWhitespace(s[i]) && SingleCharToken(s[i + 1]).Some?
    ensures ScanAt(s, i) == Some(Lexeme(SingleCharToken(s[i + 1]).value, i + 1, i + 2))
  {
    SpaceAt(s, i);
  }

  /** A word after one whitespace character. */
  lemma SpacedWordAt(s: seq<char>, i: nat, w: string)
    requires i < |s| && IsWhitespace(s[i])
    requires w != [] && IsAlphabetic(w[0]) && forall c | c in w :: IsIdentifierChar(c)
    requires i + 1 + |w| <= |s| && s[i + 1..i + 1 + |w|] == w
    requires i + 1 + |w| == |s| || !IsIdentifierChar(s[i + 1 + |w|])
    ensures ScanAt(s, i) == Some(Lexeme(KeywordOrIdentifier(w), i + 1, i + 1 + |w|))
  {
    WordAt(s, i + 1, w);
    SpaceAt(s, i);
  }

  /** The scanning step at a digit. */
  lemma ScanAtDigit(s: seq<char>, i: nat)
    requires i < |s| && IsNumeric(s[i])
    ensures ScanAt(s, i) == Some(ScanNumber(s, i))
  {
    var c := s[i];
    assert SingleCharToken(c).None? && !IsAlphabetic(c);
    assert c != '"' && c != '-' && c != '<' && c != '>' && c != '=';
  }

  lemma WordIsWellFormed(s: seq<char>, i: nat)
    requires i < |s| && IsAlphabetic(s[i])
    ensures var j := RunEnd(s, i + 1, IsIdentifierChar);
            WellFormed(s, Lexeme(KeywordOrIdentifier(s[i..j]), i, j))
  {
    var j := RunEnd(s, i + 1, IsIdentifierChar);
    var w := s[i..j];
    assert w[0] == s[i];
    assert AllChars(w, IsIdentifierChar) by {
      forall k | 0 <= k < |w| ensures IsIdentifierChar(w[k]) {
        if k > 0 { assert w[k] == s[i + k]; }
      }
    }
    assert w != "&&" && w != "||" by {
      assert "&&"[0] == '&' && "||"[0] == '|';
    }
    KeywordMatch(w);
  }

  /** A word other than "&&" and "||" is a keyword token exactly when it
      spells one, and an identifier carrying itself otherwise. */
  lemma KeywordMatch(w: string)
    requires w != "&&" && w != "||"
    ensures var t := KeywordOrIdentifier(w);
            && (t.Identifier? ==> t.name == w && !IsKeyword(w))
            && (!t.Identifier? ==> IsKeywordToken(t) && Spelling(t) == Some(w))
  {
    if w == "select" {
    } else if w == "where" {
    } else if w == "create" {
    } else if w == "like" {
    } else if w == "link" {
    } else if w == "from" {
    } else if w == "and" {
    } else if w == "or" {
    } else {
      assert !IsKeyword(w);
    }
  }

  /** A maximal run of digits after a first digit is all digits. */
  lemma DigitRun(s: seq<char>, i: nat, j: nat)
    requires i < |s| && IsNumeric(s[i]) && j == RunEnd(s, i + 1, IsNumeric)
    ensures AllChars(s[i..j], IsNumeric)
  {
    forall m | 0 <= m < j - i ensures IsNumeric(s[i..j][m]) {
      assert s[i..j][m] == s[i + m];
    }
  }

  /** Digits, '.', digits, not followed by a digit, form a float lexeme. */
  lemma FloatIsWellFormed(s: seq<char>, i: nat, j: nat, k: nat)
    requires i < j && j + 1 < k <= |s| && s[j] == '.'
    requires AllChars(s[i..j], IsNumeric) && AllChars(s[j + 1..k], IsNumeric)
    requires !NextIs(s, k, IsNumeric)
    ensures FloatShape(s, i, k, s[i..k])
  {
    var f := s[i..k];
    var d := j - i;
    assert f[d] == '.';
    assert f[..d] == s[i..j];
    assert f[d + 1..] == s[j + 1..k];
  }

  lemma NumberIsWellFormed(s: seq<char>, i: nat)
    requires i < |s| && IsNumeric(s[i])
    ensures WellFormed(s, ScanNumber(s, i))
  {
    var j := RunEnd(s, i + 1, IsNumeric);
    DigitRun(s, i, j);
    if j + 1 < |s| && s[j] == '.' && IsNumeric(s[j + 1]) {
      var k := RunEnd(s, j + 1, IsNumeric);
      DigitRun(s, j + 1, k);
      FloatIsWellFormed(s, i, j, k);
      assert ScanNumber(s, i) == Lexeme(Token.FloatLiteral(s[i..k]), i, k);
    } else {
      assert IntShape(s, i, j, DecimalValue(s[i..j]));
      assert ScanNumber(s, i) == Lexeme(Token.IntLiteral(DecimalValue(s[i..j])), i, j);
    }
  }

  /** A lexeme spelled out in full: punctuation, an arrow, '=', or a
      two-character comparison. */
  lemma FixedIsWellFormed(s: seq<char>, i: nat, t: Token)
    requires Spelling(t).Some? && !IsKeywordToken(t) && !t.SmallerThan? && !t.GreaterThan?
    requires i + |Spelling(t).value| <= |s| && s[i..i + |Spelling(t).value|] == Spelling(t).value
    ensures WellFormed(s, Lexeme(t, i, i + |Spelling(t).value|))
  {
  }

  /** The single-character punctuation tokens. */
  lemma SingleIsWellFormed(s: seq<char>, i: nat)
    requires i < |s| && SingleCharToken(s[i]).Some?
    ensures ScanAt(s, i).Some? && WellFormed(s, ScanAt(s, i).value)
  {
    var t := SingleCharToken(s[i]).value;
    assert ScanAt(s, i) == Some(Lexeme(t, i, i + 1));
    assert Spelling(t) == Some([s[i]]);
    FixedIsWellFormed(s, i, t);
  }

  /** A one-character slice. */
  lemma SliceOne(s: seq<char>, i: nat)
    requires i < |s|
    ensures s[i..i + 1] == [s[i]]
  {
  }

  /** A two-character slice. */
  lemma SliceTwo(s: seq<char>, i: nat)
    requires i + 1 < |s|
    ensures s[i..i + 2] == [s[i], s[i + 1]]
  {
  }

  /** A two-character operator spelled at `i` is well formed. */
  lemma TwoCharIsWellFormed(s: seq<char>, i: nat, t: Token)
    requires i + 1 < |s| && Spelling(t) == Some([s[i], s[i + 1]])
    requires !IsKeywordToken(t) && !t.SmallerThan? && !t.GreaterThan?
    ensures WellFormed(s, Lexeme(t, i, i + 2))
  {
    SliceTwo(s, i);
    FixedIsWellFormed(s, i, t);
  }

  /** The scanning step at '-'. */
  lemma ScanAtDash(s: seq<char>, i: nat)
    requires i < |s| && s[i] == '-'
    ensures ScanAt(s, i) == if NextIsChar(s, i + 1, '>') then Some(Lexeme(Token.ArrowRight, i, i + 2))
                            else Some(Lexeme(Token.Unknown('-'), i, i + 1))
  {
  }

  /** '-' starts an arrow when '>' follows, and is an unknown character
      otherwise. */
  lemma DashIsWellFormed(s: seq<char>, i: nat)
    requires i < |s| && s[i] == '-'
    ensures ScanAt(s, i).Some? && WellFormed(s, ScanAt(s, i).value)
  {
    ScanAtDash(s, i);
    if NextIsChar(s, i + 1, '>') {
      TwoCharIsWellFormed(s, i, Token.ArrowRight);
    } else {
      SliceOne(s, i);
    }
  }

  /** The scanning step at '<'. */
  lemma ScanAtSmaller(s: seq<char>, i: nat)
    requires i < |s| && s[i] == '<'
    ensures ScanAt(s, i) == if NextIsChar(s, i + 1, '=') then Some(Lexeme(Token.SmallerThanOrEquals, i, i + 2))
                            else Some(Lexeme(Token.SmallerThan, i, i + 1))
  {
  }

  /** '<' takes a following '=' with it. */
  lemma SmallerIsWellFormed(s: seq<char>, i: nat)
    requires i < |s| && s[i] == '<'
    ensures ScanAt(s, i).Some? && WellFormed(s, ScanAt(s, i).value)
  {
    ScanAtSmaller(s, i);
    if NextIsChar(s, i + 1, '=') {
      TwoCharIsWellFormed(s, i, Token.SmallerThanOrEquals);
    } else {
      SliceOne(s, i);
    }
  }

  /** The scanning step at '>'. */
  lemma ScanAtGreater(s: seq<char>, i: nat)
    requires i < |s| && s[i] == '>'
    ensures ScanAt(s, i) == if NextIsChar(s, i + 1, '=') then Some(Lexeme(Token.GreaterThanOrEquals, i, i + 2))
                            else Some(Lexeme(Token.GreaterThan, i, i + 1))
  {
  }

  /** '>' takes a following '=' with it. */
  lemma GreaterIsWellFormed(s: seq<char>, i: nat)
    requires i < |s| && s[i] == '>'
    ensures ScanAt(s, i).Some? && WellFormed(s, ScanAt(s, i).value)
  {
    ScanAtGreater(s, i);
    if NextIsChar(s, i + 1, '=') {
      TwoCharIsWellFormed(s, i, Token.GreaterThanOrEquals);
    } else {
      SliceOne(s, i);
    }
  }

  lemma EqualsIsWellFormed(s: seq<char>, i: nat)
    requires i < |s| && s[i] == '='
    ensures ScanAt(s, i).Some? && WellFormed(s, ScanAt(s, i).value)
  {
    assert ScanAt(s, i) == Some(Lexeme(Token.Equals, i, i + 1));
    SliceOne(s, i);
    FixedIsWellFormed(s, i, Token.Equals);
  }

  /** Every token the scanner yields is well formed with respect to the
      characters it spans. */
  lemma {:induction false} ScannedIsWellFormed(s: seq<char>, i: nat)
    requires i <= |s|
    ensures ScanAt(s, i).Some? ==> WellFormed(s, ScanAt(s, i).value)
    decreases |s| - i
  {
    if i < |s| {
      var c := s[i];
      if SingleCharToken(c).Some? {
        SingleIsWellFormed(s, i);
      } else if c == '"' {
      } else if c == '-' {
        DashIsWellFormed(s, i);
      } else if c == '<' {
        SmallerIsWellFormed(s, i);
      } else if c == '>' {
        GreaterIsWellFormed(s, i);
      } else if c == '=' {
        EqualsIsWellFormed(s, i);
      } else if IsAlphabetic(c) {
        ScanAtWord(s, i);
        WordIsWellFormed(s, i);
      } else if IsNumeric(c) {
        ScanAtDigit(s, i);
        NumberIsWellFormed(s, i);
      } else if IsWhitespace(c) {
        ScannedIsWellFormed(s, RunEnd(s, i + 1, IsWhitespace));
      }
    }
  }

  lemma {:induction false} AllWellFormed(s: seq<char>, i: nat)
    requires i <= |s|
    ensures forall n :: 0 <= n < |LexemesFrom(s, i)| ==> WellFormed(s, LexemesFrom(s, i)[n])
    decreases |s| - i
  {
    match ScanAt(s, i)
    case None =>
    case Some(l) =>
      ScannedIsWellFormed(s, i);
      AllWellFormed(s, l.end);
      var ls := LexemesFrom(s, i);
      forall n | 0 <= n < |ls|
        ensures WellFormed(s, ls[n])
      {
        if n > 0 {
          assert ls[n] == LexemesFrom(s, l.end)[n - 1];
        }
      }
  }

  /** No input yields ArrowLeft; an identifier token never spells a keyword
      (keywords match case-sensitively, and "&&" / "||" never reach the
      keyword match because a word starts with a letter); every payload-free
      token re-slices to its fixed spelling. */
  lemma TokensOfText(s: seq<char>)
    ensures forall n :: 0 <= n < |Lexemes(s)| ==> Lexemes(s)[n].token != Token.ArrowLeft
    ensures forall n :: 0 <= n < |Lexemes(s)| && Lexemes(s)[n].token.Identifier? ==>
              !IsKeyword(Lexemes(s)[n].token.name)
    ensures forall n :: 0 <= n < |Lexemes(s)| && Spelling(Lexemes(s)[n].token).Some? ==>
              s[Lexemes(s)[n].start..Lexemes(s)[n].end] == Spelling(Lexemes(s)[n].token).value
  {
    AllWellFormed(s, 0);
  }

  // ---------------------------------------------------------------------
  // String literals

  /** The escaped form of one character inside a string literal: quote,
      backslash and the three control characters become two-character
      escapes, every other character stands for itself. */
  function EscapeChar(c: char): string {
    if c == '"' then "\\\""
    else if c == '\\' then "\\\\"
    else if c == '\n' then "\\n"
    else if c == '\t' then "\\t"
    else if c == '\r' then "\\r"
    else [c]
  }

  /** The escaped form of a text. */
  function Escape(t: string): string {
    if t == [] then [] else EscapeChar(t[0]) + Escape(t[1..])
  }

  /** Decoding one escaped character appends exactly that character. */
  lemma ScanStringOfEscapedChar(s: seq<char>, i: nat, c: char, acc: string)
    requires i + |EscapeChar(c)| <= |s| && s[i..i + |EscapeChar(c)|] == EscapeChar(c)
    ensures ScanString(s, i, acc) == ScanString(s, i + |EscapeChar(c)|, acc + [c])
  {
    var e := EscapeChar(c);
    assert s[i] == e[0];
    if |e| == 2 {
      assert s[i + 1] == e[1];
      EscapeDecoding(s, i, acc);
    } else {
      assert e == [c] && c != '"' && c != '\\';
    }
  }

  /** The escaped form of a non-empty text, read from `s` at `i`, starts
      with the escape of its first character. */
  lemma EscapeSplit(s: seq<char>, i: nat, end: nat, t: string)
    requires t != [] && end == i + |Escape(t)| <= |s| && s[i..end] == Escape(t)
    ensures var j := i + |EscapeChar(t[0])|;
            j <= end && s[i..j] == EscapeChar(t[0]) && s[j..end] == Escape(t[1..])
  {
    var e := EscapeChar(t[0]);
    assert Escape(t) == e + Escape(t[1..]);
    SliceSplit(s, i, i + |e|, end, e, Escape(t[1..]));
  }

  /** A slice that spells a + b splits into a slice spelling a and one
      spelling b. */
  lemma SliceSplit(s: seq<char>, i: nat, j: nat, end: nat, a: seq<char>, b: seq<char>)
    requires i <= j <= end <= |s| && j == i + |a| && s[i..end] == a + b
    ensures s[i..j] == a && s[j..end] == b
  {
    assert s[i..j] == s[i..end][..|a|];
    assert s[j..end] == s[i..end][|a|..];
  }

  /** One step of decoding an escaped text: its first character is
      appended and decoding goes on after that character's escape. */
  lemma ScanStringStep(s: seq<char>, i: nat, t: string, end: nat, acc: string) returns (j: nat)
    requires t != [] && end == i + |Escape(t)| <= |s| && s[i..end] == Escape(t)
    ensures end == j + |Escape(t[1..])| && s[j..end] == Escape(t[1..])
    ensures ScanString(s, i, acc) == ScanString(s, j, acc + [t[0]])
  {
    EscapeSplit(s, i, end, t);
    ScanStringOfEscapedChar(s, i, t[0], acc);
    j := i + |EscapeChar(t[0])|;
  }

  /** Decoding an escaped text up to a closing quote gives the text back. */
  lemma ScanStringOfEscaped(s: seq<char>, i: nat, t: string, end: nat, acc: string)
    requires end == i + |Escape(t)| < |s|
    requires s[i..end] == Escape(t) && s[end] == '"'
    ensures ScanString(s, i, acc) == (acc + t, end + 1)
  {
    ScanStringOfEscapedPrefix(s, i, t, end, acc);
  }

  /** Decoding an escaped text appends the text and goes on after it,
      whatever follows. */
  lemma {:induction false} ScanStringOfEscapedPrefix(s: seq<char>, i: nat, t: string, end: nat, acc: string)
    requires end == i + |Escape(t)| <= |s| && s[i..end] == Escape(t)
    ensures ScanString(s, i, acc) == ScanString(s, end, acc + t)
    decreases |t|
  {
    if t == [] {
      assert acc + t == acc;
    } else {
      var j := ScanStringStep(s, i, t, end, acc);
      ScanStringOfEscapedPrefix(s, j, t[1..], end, acc + [t[0]]);
      AppendFirst(acc, t);
    }
  }

  /** Appending a sequence is appending its first element, then the rest. */
  lemma AppendFirst<T>(done: seq<T>, xs: seq<T>)
    requires xs != []
    ensures done + [xs[0]] + xs[1..] == done + xs
  {
  }

  /** The scanning step at a double quote. */
  lemma ScanAtQuote(s: seq<char>, i: nat)
    requires i < |s| && s[i] == '"'
    ensures var str := ScanString(s, i + 1, []);
            ScanAt(s, i) == Some(Lexeme(Token.StringLiteral(str.0), i, str.1))
  {
    assert SingleCharToken(s[i]) == None;
  }

  /** String literal round trip: a quoted, escaped text scans as one
      StringLiteral carrying exactly that text. */
  lemma StringLiteralRoundTrip(t: string, rest: seq<char>)
    ensures var s := "\"" + Escape(t) + "\"" + rest;
            ScanAt(s, 0) == Some(Lexeme(Token.StringLiteral(t), 0, |Escape(t)| + 2))
  {
    var s := "\"" + Escape(t) + "\"" + rest;
    var end := |Escape(t)| + 1;
    assert s[1..end] == Escape(t) && s[end] == '"';
    ScanAtQuote(s, 0);
    ScanStringOfEscaped(s, 1, t, end, []);
    assert [] + t == t;
  }

  /** The escapes \n \t \r \\ \" decode to their characters, and any other
      escaped character is kept without its backslash. */
  lemma EscapeDecoding(s: seq<char>, j: nat, acc: string)
    requires j + 1 < |s| && s[j] == '\\'
    ensures ScanString(s, j, acc) == ScanString(s, j + 2, acc + [Unescape(s[j + 1])])
    ensures s[j + 1] == 'n' ==> Unescape(s[j + 1]) == '\n'
    ensures s[j + 1] == 't' ==> Unescape(s[j + 1]) == '\t'
    ensures s[j + 1] == 'r' ==> Unescape(s[j + 1]) == '\r'
    ensures !(s[j + 1] in "ntr") ==> Unescape(s[j + 1]) == s[j + 1]
  {
  }

  /** A literal that is never closed runs to the end of the input without
      error; a backslash as the very last character adds nothing. */
  lemma {:induction false} UnterminatedString(s: seq<char>, j: nat, acc: string)
    requires j <= |s|
    requires forall k :: j <= k < |s| ==> s[k] != '"' && (s[k] == '\\' ==> k == |s| - 1)
    ensures ScanString(s, j, acc).1 == |s|
    ensures |s| > j && s[|s| - 1] == '\\' ==> ScanString(s, j, acc).0 == acc + s[j..|s| - 1]
    ensures (|s| == j || s[|s| - 1] != '\\') ==> ScanString(s, j, acc).0 == acc + s[j..]
    decreases |s| - j
  {
    if j < |s| && s[j] != '\\' {
      UnterminatedString(s, j + 1, acc + [s[j]]);
      assert acc + [s[j]] + s[j + 1..] == acc + s[j..];
      if s[|s| - 1] == '\\' {
        assert acc + [s[j]] + s[j + 1..|s| - 1] == acc + s[j..|s| - 1];
      }
    }
  }

  /** A quote followed by an escaped text: the literal carries the text
      and whatever decoding finds after it. */
  lemma QuotedEscapedAt(s: seq<char>, t: string, end: nat)
    requires 0 < |s| && s[0] == '"' && end == 1 + |Escape(t)| <= |s| && s[1..end] == Escape(t)
    ensures var str := ScanString(s, end, t);
            ScanAt(s, 0) == Some(Lexeme(Token.StringLiteral(str.0), 0, str.1))
  {
    ScanAtQuote(s, 0);
    ScanStringOfEscapedPrefix(s, 1, t, end, []);
    assert [] + t == t;
  }

  /** A literal body with no quote and no backslash is read verbatim up
      to the closing quote. */
  lemma {:induction false} ScanPlain(s: seq<char>, j: nat, end: nat, acc: string)
    requires j <= end < |s| && s[end] == '"'
    requires '"' !in s[j..end] && '\\' !in s[j..end]
    ensures ScanString(s, j, acc) == (acc + s[j..end], end + 1)
    decreases end - j
  {
    if j == end {
      assert acc + s[j..end] == acc;
    } else {
      assert s[j..end] == [s[j]] + s[j + 1..end];
      ScanPlain(s, j + 1, end, acc + [s[j]]);
      AppendFirst(acc, s[j..end]);
    }
  }

  /** A quoted text without escapes scans as a literal carrying that text. */
  lemma PlainStringAt(s: seq<char>, i: nat, end: nat)
    requires i < end < |s| && s[i] == '"' && s[end] == '"'
    requires '"' !in s[i + 1..end] && '\\' !in s[i + 1..end]
    ensures ScanAt(s, i) == Some(Lexeme(Token.StringLiteral(s[i + 1..end]), i, end + 1))
  {
    ScanAtQuote(s, i);
    ScanPlain(s, i + 1, end, []);
    assert [] + s[i + 1..end] == s[i + 1..end];
  }

  /** A literal left open at the end of the input, after any escaped
      text, is one string literal carrying that text and running to the
      end. */
  lemma UnterminatedRoundTrip(t: string)
    ensures var s := "\"" + Escape(t);
            ScanAt(s, 0) == Some(Lexeme(Token.StringLiteral(t), 0, |s|))
  {
    var s := "\"" + Escape(t);
    assert s[1..|s|] == Escape(t);
    QuotedEscapedAt(s, t, |s|);
  }

  /** The same with a lone backslash as the last character: it adds
      nothing to the text. */
  lemma UnterminatedBackslash(t: string)
    ensures var s := "\"" + Escape(t) + "\\";
            ScanAt(s, 0) == Some(Lexeme(Token.StringLiteral(t), 0, |s|))
  {
    var s := "\"" + Escape(t) + "\\";
    var end := |s| - 1;
    assert s[1..end] == Escape(t) && s[end] == '\\';
    QuotedEscapedAt(s, t, end);
  }

  // ---------------------------------------------------------------------
  // Operators

  /** '-' is an arrow only before '>'; otherwise it is Unknown('-') and the
      character after it is left for the next token. '<' and '>' absorb a
      following '='; '=' is always Equals. */
  lemma OperatorScanning(s: seq<char>, i: nat)
    requires i < |s|
    ensures s[i] == '-' ==>
              ScanAt(s, i) == if NextIs(s, i + 1, c => c == '>')
                              then Some(Lexeme(Token.ArrowRight, i, i + 2))
                              else Some(Lexeme(Token.Unknown('-'), i, i + 1))
    ensures s[i] == '<' ==>
              ScanAt(s, i) == if NextIs(s, i + 1, c => c == '=')
                              then Some(Lexeme(Token.SmallerThanOrEquals, i, i + 2))
                              else Some(Lexeme(Token.SmallerThan, i, i + 1))
    ensures s[i] == '>' ==>
              ScanAt(s, i) == if NextIs(s, i + 1, c => c == '=')
                              then Some(Lexeme(Token.GreaterThanOrEquals, i, i + 2))
                              else Some(Lexeme(Token.GreaterThan, i, i + 1))
    ensures s[i] == '=' ==> ScanAt(s, i) == Some(Lexeme(Token.Equals, i, i + 1))
  {
  }

  /** A character that starts no token scans as Unknown of itself. */
  lemma UnknownCharacter(s: seq<char>, i: nat)
    requires i < |s| && !StartsToken(s[i])
    ensures ScanAt(s, i) == Some(Lexeme(Token.Unknown(s[i]), i, i + 1))
  {
  }

  // ---------------------------------------------------------------------
  // The punctuation table and decimal values

  /** Exactly the eleven punctuation characters are tokens on their own,
      and none of those tokens carries a payload. */
  lemma SingleCharTokens(c: char)
    ensures SingleCharToken(c).Some? <==> c in ":()[]{}.,*;"
    ensures SingleCharToken(c).Some? ==> !SingleCharToken(c).value.HasPayload()
  {
  }

  /** Ten to the power `n`. */
  function Pow10(n: nat): nat {
    if n == 0 then 1 else 10 * Pow10(n - 1)
  }

  /** A run of `n` digits has a value below ten to the `n`. */
  lemma {:induction false} DecimalValueBound(digits: seq<char>)
    ensures DecimalValue(digits) < Pow10(|digits|)
    decreases |digits|
  {
    if |digits| > 0 {
      DecimalValueBound(digits[..|digits| - 1]);
    }
  }

  /** Positional notation: the leading digit counts ten to the number of
      digits after it, and the rest is read on its own. */
  lemma {:induction false} DecimalValueLeading(d: char, ds: seq<char>)
    ensures DecimalValue([d] + ds) == DigitValue(d) * Pow10(|ds|) + DecimalValue(ds)
    decreases |ds|
  {
    var s := [d] + ds;
    if ds == [] {
      assert s[..0] == [];
    } else {
      var init, last := ds[..|ds| - 1], ds[|ds| - 1];
      assert s[..|s| - 1] == [d] + init && s[|s| - 1] == last;
      DecimalValueLeading(d, init);
      Shift(DigitValue(d), Pow10(|init|), DecimalValue(init), DigitValue(last));
    }
  }

  /** Appending a digit to `a * p + v` shifts both parts one place. */
  lemma Shift(a: int, p: int, v: int, e: int)
    ensures (a * p + v) * 10 + e == a * (10 * p) + (v * 10 + e)
  {
  }

  // ---------------------------------------------------------------------
  // Concrete scans

  /** A lone integer. */
  lemma IntegerAlone()
    ensures Tokens("3") == [Token.IntLiteral(3)]
  {
    var s := "3";
    ScanAtDigit(s, 0);
    assert RunEnd(s, 1, IsNumeric) == 1;
    assert DecimalValue(s[0..1]) == 3;
    assert ScanAt(s, 0) == Some(Lexeme(Token.IntLiteral(3), 0, 1));
    assert LexemesFrom(s, 1) == [];
    assert Lexemes(s) == [Lexeme(Token.IntLiteral(3), 0, 1)];
  }

  /** A dot followed by a digit makes a float literal, kept as its text. */
  lemma FloatWithFraction()
    ensures Tokens("3.5") == [Token.FloatLiteral("3.5")]
  {
    var s := "3.5";
    ScanAtDigit(s, 0);
    assert RunEnd(s, 1, IsNumeric) == 1;
    assert RunEnd(s, 3, IsNumeric) == 3;
    assert RunEnd(s, 2, IsNumeric) == 3;
    assert s[0..3] == "3.5";
    assert ScanAt(s, 0) == Some(Lexeme(Token.FloatLiteral("3.5"), 0, 3));
    assert LexemesFrom(s, 3) == [];
    assert Lexemes(s) == [Lexeme(Token.FloatLiteral("3.5"), 0, 3)];
  }

  /** A dot with no digit after it is not part of the number. */
  lemma TrailingDotIsSeparate()
    ensures Tokens("3.") == [Token.IntLiteral(3), Token.Dot]
  {
    var s := "3.";
    ScanAtDigit(s, 0);
    assert RunEnd(s, 1, IsNumeric) == 1;
    assert DecimalValue(s[0..1]) == 3;
    assert ScanAt(s, 0) == Some(Lexeme(Token.IntLiteral(3), 0, 1));
    assert ScanAt(s, 1) == Some(Lexeme(Token.Dot, 1, 2));
    assert LexemesFrom(s, 2) == [];
    assert LexemesFrom(s, 1) == [Lexeme(Token.Dot, 1, 2)];
    assert Lexemes(s) == [Lexeme(Token.IntLiteral(3), 0, 1), Lexeme(Token.Dot, 1, 2)];
  }

  /** Keywords match lower case only; upper case spells an identifier. */
  lemma KeywordsAreCaseSensitive()
    ensures Tokens("select SELECT") == [Token.Select, Token.Identifier("SELECT")]
  {
    var s := "select SELECT";
    LowerCaseSelect(s);
    UpperCaseSelect(s);
    assert LexemesFrom(s, 13) == [];
    assert LexemesFrom(s, 6) == [Lexeme(Token.Identifier("SELECT"), 7, 13)];
    assert Lexemes(s) == [Lexeme(Token.Select, 0, 6), Lexeme(Token.Identifier("SELECT"), 7, 13)];
  }

  lemma LowerCaseSelect(s: seq<char>)
    requires s == "select SELECT"
    ensures ScanAt(s, 0) == Some(Lexeme(Token.Select, 0, 6))
  {
    ScanAtWord(s, 0);
    assert RunEnd(s, 6, IsIdentifierChar) == 6;
    assert RunEnd(s, 4, IsIdentifierChar) == 6;
    assert RunEnd(s, 2, IsIdentifierChar) == 6;
    assert RunEnd(s, 1, IsIdentifierChar) == 6;
    assert s[0..6] == "select";
  }

  lemma UpperCaseSelect(s: seq<char>)
    requires s == "select SELECT"
    ensures ScanAt(s, 6) == Some(Lexeme(Token.Identifier("SELECT"), 7, 13))
  {
    SpaceBeforeUpperCase(s);
    UpperCaseWord(s);
  }

  lemma SpaceBeforeUpperCase(s: seq<char>)
    requires s == "select SELECT"
    ensures ScanAt(s, 6) == ScanAt(s, 7)
  {
    assert IsWhitespace(s[6]) && RunEnd(s, 7, IsWhitespace) == 7;
    assert SingleCharToken(s[6]).None? && !IsAlphabetic(s[6]) && !IsNumeric(s[6]);
  }

  lemma UpperCaseWord(s: seq<char>)
    requires s == "select SELECT"
    ensures ScanAt(s, 7) == Some(Lexeme(Token.Identifier("SELECT"), 7, 13))
  {
    ScanAtWord(s, 7);
    assert RunEnd(s, 12, IsIdentifierChar) == 13;
    assert RunEnd(s, 10, IsIdentifierChar) == 13;
    assert RunEnd(s, 8, IsIdentifierChar) == 13;
    assert s[7..13] == "SELECT";
    assert KeywordOrIdentifier("SELECT") == Token.Identifier("SELECT");
  }

  /** The scanner names `{` RBrace and `}` LBrace, as the source does. */
  lemma BracesKeepSourceNames()
    ensures Tokens("{}") == [Token.RBrace, Token.LBrace]
  {
    var s := "{}";
    assert ScanAt(s, 0) == Some(Lexeme(Token.RBrace, 0, 1));
    assert ScanAt(s, 1) == Some(Lexeme(Token.LBrace, 1, 2));
    assert LexemesFrom(s, 2) == [];
    assert Lexemes(s) == [Lexeme(Token.RBrace, 0, 1), Lexeme(Token.LBrace, 1, 2)];
  }
}
