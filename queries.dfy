/** Whole statements, from text to syntax tree: the statement `main` in
    src/main.rs parses, the one it keeps in a comment, and the simplest
    select, each scanned by the lexer and read by the parser. Each scanning
    step is proved from the few characters it depends on, then the steps
    are chained into the token sequence of the whole text. */
module MqlQueries {
  import Wrappers
  import opened MqlLexer
  import opened MqlParser
  import MqlLexerProps

  /** Every field of every `author`. */
  const SelectAll: string := "select * from author;"

  /** The statement `main` parses: authors, then their books, filtered.
      It is written in three pieces only to keep the proofs about its
      characters small. */
  const SelectWithRelation: string := "select * from author" + "->book where title" + " like \"Harry Potter\";"

  /** A field projection from an entity with an id. */
  const SelectWithId: string := "select title from book:hp1;"

  // ---------------------------------------------------------------------
  // The words `select`, `*`, `from` and `author` at the start of a text

  lemma SelectAt0(s: seq<char>)
    requires 6 < |s| && s[0..6] == "select" && s[6] == ' '
    ensures ScanAt(s, 0) == Wrappers.Some(Lexeme(Token.Select, 0, 6))
  {
    MqlLexerProps.WordAt(s, 0, "select");
  }

  lemma AsteriskAt6(s: seq<char>)
    requires 7 < |s| && s[6] == ' ' && s[7] == '*'
    ensures ScanAt(s, 6) == Wrappers.Some(Lexeme(Token.Asterisk, 7, 8))
  {
    MqlLexerProps.SpacedPunctuationAt(s, 6);
  }

  lemma FromAt8(s: seq<char>)
    requires 13 < |s| && s[8] == ' ' && s[9..13] == "from" && s[13] == ' '
    ensures ScanAt(s, 8) == Wrappers.Some(Lexeme(Token.From, 9, 13))
  {
    MqlLexerProps.SpacedWordAt(s, 8, "from");
  }

  lemma AuthorAt13(s: seq<char>)
    requires 20 < |s| && s[13] == ' ' && s[14..20] == "author" && !IsIdentifierChar(s[20])
    ensures ScanAt(s, 13) == Wrappers.Some(Lexeme(Token.Identifier("author"), 14, 20))
  {
    MqlLexerProps.SpacedWordAt(s, 13, "author");
  }

  /** The four tokens of a text starting `select * from author` and going
      on with a character that cannot continue the word. */
  lemma AllAuthorsPrefix(s: seq<char>)
    requires 20 < |s| && s[0..6] == "select" && s[6] == ' ' && s[7] == '*' && s[8] == ' '
    requires s[9..13] == "from" && s[13] == ' ' && s[14..20] == "author" && !IsIdentifierChar(s[20])
    ensures TokensFrom(s, 0) == [Token.Select, Token.Asterisk, Token.From, Token.Identifier("author")] + TokensFrom(s, 20)
  {
    AllAuthorsFrom13(s);
    AllAuthorsFrom8(s);
    AllAuthorsFrom6(s);
    AllAuthorsFrom0(s);
  }

  lemma AllAuthorsFrom13(s: seq<char>)
    requires 20 < |s| && s[13] == ' ' && s[14..20] == "author" && !IsIdentifierChar(s[20])
    ensures TokensFrom(s, 13) == [Token.Identifier("author")] + TokensFrom(s, 20)
  {
    AuthorAt13(s);
    MqlLexerProps.TokensStep(s, 13, Lexeme(Token.Identifier("author"), 14, 20));
  }

  lemma AllAuthorsFrom8(s: seq<char>)
    requires 13 < |s| && s[8] == ' ' && s[9..13] == "from" && s[13] == ' '
    ensures TokensFrom(s, 8) == [Token.From] + TokensFrom(s, 13)
  {
    FromAt8(s);
    MqlLexerProps.TokensStep(s, 8, Lexeme(Token.From, 9, 13));
  }

  lemma AllAuthorsFrom6(s: seq<char>)
    requires 7 < |s| && s[6] == ' ' && s[7] == '*'
    ensures TokensFrom(s, 6) == [Token.Asterisk] + TokensFrom(s, 8)
  {
    AsteriskAt6(s);
    MqlLexerProps.TokensStep(s, 6, Lexeme(Token.Asterisk, 7, 8));
  }

  lemma AllAuthorsFrom0(s: seq<char>)
    requires 6 < |s| && s[0..6] == "select" && s[6] == ' '
    ensures TokensFrom(s, 0) == [Token.Select] + TokensFrom(s, 6)
  {
    SelectAt0(s);
    MqlLexerProps.TokensStep(s, 0, Lexeme(Token.Select, 0, 6));
  }

  // ---------------------------------------------------------------------
  // select * from author;

  lemma SelectAllEnd(s: seq<char>)
    requires |s| == 21 && s[20] == ';'
    ensures TokensFrom(s, 20) == [Token.Semicolon]
  {
    assert TokensFrom(s, 21) == [];
    MqlLexerProps.PunctuationAt(s, 20);
    MqlLexerProps.TokensStep(s, 20, Lexeme(Token.Semicolon, 20, 21));
  }

  /** `select * from author;` scans as five tokens. */
  lemma SelectAllTokens()
    ensures Tokens(SelectAll) == [Token.Select, Token.Asterisk, Token.From, Token.Identifier("author"), Token.Semicolon]
  {
    var s := SelectAll;
    SelectAllLayout(s);
    AllAuthorsPrefix(s);
    SelectAllEnd(s);
  }

  lemma SelectAllLayout(s: seq<char>)
    requires s == SelectAll
    ensures |s| == 21 && s[0..6] == "select" && s[6] == ' ' && s[7] == '*' && s[8] == ' '
    ensures s[9..13] == "from" && s[13] == ' ' && s[14..20] == "author" && s[20] == ';'
  {
    assert s[0..6] == "select";
    assert s[9..13] == "from";
    assert s[14..20] == "author";
  }

  // The parser over a statement that starts `select * from`

  /** A path of one entity type, followed by a token that neither gives it
      an id nor continues the path. */
  lemma PathOfSource(ts: seq<Token>, i: nat)
    requires i + 1 < |ts| && ts[i].Identifier? && !ts[i + 1].Colon? && !ts[i + 1].ArrowRight?
    ensures PathSpec(ts, i) == (Ok(PathExpression(NoId(ts[i].name), [])), i + 1)
  {
    assert EntitySpec(ts, i) == (Ok(NoId(ts[i].name)), i + 1);
  }

  /** A path of one hop between two entity types without ids. */
  lemma PathOfOneHop(ts: seq<Token>, i: nat)
    requires i + 3 < |ts| && ts[i].Identifier? && ts[i + 1].ArrowRight? && ts[i + 2].Identifier?
    requires !ts[i + 3].Colon? && !ts[i + 3].ArrowRight?
    ensures PathSpec(ts, i) == (Ok(PathExpression(NoId(ts[i].name), [NoId(ts[i + 2].name)])), i + 3)
  {
    var source, hop := NoId(ts[i].name), NoId(ts[i + 2].name);
    assert EntitySpec(ts, i) == (Ok(source), i + 1);
    assert EntitySpec(ts, i + 2) == (Ok(hop), i + 3);
    assert PathLoop(ts, i + 3, source, [hop]) == (Ok(PathExpression(source, [hop])), i + 3);
    assert [] + [hop] == [hop];
  }

  /** `select * from` and a path: what follows the path decides. */
  lemma SelectAllFrom(ts: seq<Token>)
    requires 3 < |ts| && ts[0].Select? && ts[1].Asterisk? && ts[2].From? && PathSpec(ts, 3).0.Ok?
    ensures ParseSpec(ts, 0) == StatementEnd(ts, PathSpec(ts, 3).1, All, PathSpec(ts, 3).0.value)
  {
    SelectOfAll(ts);
    FromPath(ts, 2, All);
  }

  /** `select *` leaves the parser before the `from`. */
  lemma SelectOfAll(ts: seq<Token>)
    requires 2 < |ts| && ts[0].Select? && ts[1].Asterisk?
    ensures ParseSpec(ts, 0) == SelectAfterProjection(ts, 2, All)
  {
    assert ProjectionSpec(ts, 1) == (Ok(All), 2);
  }

  /** `from` and a path leave the parser at the end of the statement. */
  lemma FromPath(ts: seq<Token>, k: nat, projection: Projection)
    requires k + 1 < |ts| && ts[k].From? && PathSpec(ts, k + 1).0.Ok?
    ensures SelectAfterProjection(ts, k, projection)
            == StatementEnd(ts, PathSpec(ts, k + 1).1, projection, PathSpec(ts, k + 1).0.value)
  {
    assert TokenTypeSpec(ts, k, TokenKind.From) == (Ok(ts[k]), k + 1);
  }

  /** The five tokens parse to `select` of every field, from the path that
      is the entity type `author` alone, with no filter. */
  lemma SelectAllParses(ts: seq<Token>)
    requires ts == [Token.Select, Token.Asterisk, Token.From, Token.Identifier("author"), Token.Semicolon]
    ensures ParseSpec(ts, 0) == (Ok(AST.Select(All, PathExpression(NoId("author"), []), Wrappers.None)), 5)
  {
    PathOfSource(ts, 3);
    SelectAllFrom(ts);
  }

  /** From text to syntax tree: `select * from author;` is accepted. */
  lemma SelectAllEndToEnd()
    ensures ParseSpec(Tokens(SelectAll), 0).0 == Ok(AST.Select(All, PathExpression(NoId("author"), []), Wrappers.None))
  {
    SelectAllTokens();
    SelectAllParses(Tokens(SelectAll));
  }

  // ---------------------------------------------------------------------
  // select * from author->book where title like "Harry Potter";

  lemma ArrowAt20(s: seq<char>)
    requires 21 < |s| && s[20] == '-' && s[21] == '>'
    ensures ScanAt(s, 20) == Wrappers.Some(Lexeme(Token.ArrowRight, 20, 22))
  {
    MqlLexerProps.ScanAtDash(s, 20);
  }

  lemma BookAt22(s: seq<char>)
    requires 26 < |s| && s[22..26] == "book" && s[26] == ' '
    ensures ScanAt(s, 22) == Wrappers.Some(Lexeme(Token.Identifier("book"), 22, 26))
  {
    MqlLexerProps.WordAt(s, 22, "book");
  }

  lemma WhereAt26(s: seq<char>)
    requires 32 < |s| && s[26] == ' ' && s[27..32] == "where" && s[32] == ' '
    ensures ScanAt(s, 26) == Wrappers.Some(Lexeme(Token.Where, 27, 32))
  {
    MqlLexerProps.SpacedWordAt(s, 26, "where");
  }

  lemma TitleAt32(s: seq<char>)
    requires 38 < |s| && s[32] == ' ' && s[33..38] == "title" && s[38] == ' '
    ensures ScanAt(s, 32) == Wrappers.Some(Lexeme(Token.Identifier("title"), 33, 38))
  {
    MqlLexerProps.SpacedWordAt(s, 32, "title");
  }

  lemma LikeAt38(s: seq<char>)
    requires 43 < |s| && s[38] == ' ' && s[39..43] == "like" && s[43] == ' '
    ensures ScanAt(s, 38) == Wrappers.Some(Lexeme(Token.Like, 39, 43))
  {
    MqlLexerProps.SpacedWordAt(s, 38, "like");
  }

  lemma LiteralAt44(s: seq<char>)
    requires 57 < |s| && s[44] == '"' && s[45..57] == "Harry Potter" && s[57] == '"'
    ensures ScanAt(s, 44) == Wrappers.Some(Lexeme(Token.StringLiteral("Harry Potter"), 44, 58))
  {
    MqlLexerProps.PlainStringAt(s, 44, 57);
  }

  lemma RelationFrom20(s: seq<char>)
    requires 21 < |s| && s[20] == '-' && s[21] == '>'
    ensures TokensFrom(s, 20) == [Token.ArrowRight] + TokensFrom(s, 22)
  {
    ArrowAt20(s);
    MqlLexerProps.TokensStep(s, 20, Lexeme(Token.ArrowRight, 20, 22));
  }

  lemma RelationFrom22(s: seq<char>)
    requires 26 < |s| && s[22..26] == "book" && s[26] == ' '
    ensures TokensFrom(s, 22) == [Token.Identifier("book")] + TokensFrom(s, 26)
  {
    BookAt22(s);
    MqlLexerProps.TokensStep(s, 22, Lexeme(Token.Identifier("book"), 22, 26));
  }

  lemma RelationFrom26(s: seq<char>)
    requires 32 < |s| && s[26] == ' ' && s[27..32] == "where" && s[32] == ' '
    ensures TokensFrom(s, 26) == [Token.Where] + TokensFrom(s, 32)
  {
    WhereAt26(s);
    MqlLexerProps.TokensStep(s, 26, Lexeme(Token.Where, 27, 32));
  }

  lemma RelationFrom32(s: seq<char>)
    requires 38 < |s| && s[32] == ' ' && s[33..38] == "title" && s[38] == ' '
    ensures TokensFrom(s, 32) == [Token.Identifier("title")] + TokensFrom(s, 38)
  {
    TitleAt32(s);
    MqlLexerProps.TokensStep(s, 32, Lexeme(Token.Identifier("title"), 33, 38));
  }

  lemma RelationFrom38(s: seq<char>)
    requires 43 < |s| && s[38] == ' ' && s[39..43] == "like" && s[43] == ' '
    ensures TokensFrom(s, 38) == [Token.Like] + TokensFrom(s, 43)
  {
    LikeAt38(s);
    MqlLexerProps.TokensStep(s, 38, Lexeme(Token.Like, 39, 43));
  }

  lemma RelationFrom43(s: seq<char>)
    requires 57 < |s| && s[43] == ' ' && s[44] == '"' && s[45..57] == "Harry Potter" && s[57] == '"'
    ensures TokensFrom(s, 43) == [Token.StringLiteral("Harry Potter")] + TokensFrom(s, 58)
  {
    MqlLexerProps.SpaceAt(s, 43);
    LiteralAt44(s);
    MqlLexerProps.TokensStep(s, 43, Lexeme(Token.StringLiteral("Harry Potter"), 44, 58));
  }

  lemma RelationEnd(s: seq<char>)
    requires |s| == 59 && s[58] == ';'
    ensures TokensFrom(s, 58) == [Token.Semicolon]
  {
    assert TokensFrom(s, 59) == [];
    MqlLexerProps.PunctuationAt(s, 58);
    MqlLexerProps.TokensStep(s, 58, Lexeme(Token.Semicolon, 58, 59));
  }

  /** The tokens from `->` to `like` in the statement `main` runs. */
  lemma RelationMiddle(s: seq<char>)
    requires 43 < |s| && s[20] == '-' && s[21] == '>' && s[22..26] == "book" && s[26] == ' '
    requires s[27..32] == "where" && s[32] == ' ' && s[33..38] == "title" && s[38] == ' '
    requires s[39..43] == "like" && s[43] == ' '
    ensures TokensFrom(s, 20) == [Token.ArrowRight, Token.Identifier("book"), Token.Where, Token.Identifier("title"),
                                  Token.Like] + TokensFrom(s, 43)
  {
    RelationFrom38(s);
    RelationFrom32(s);
    RelationFrom26(s);
    RelationFrom22(s);
    RelationFrom20(s);
  }

  /** The string literal and the semicolon that end it. */
  lemma RelationFinal(s: seq<char>)
    requires |s| == 59 && s[43] == ' ' && s[44] == '"' && s[45..57] == "Harry Potter" && s[57] == '"' && s[58] == ';'
    ensures TokensFrom(s, 43) == [Token.StringLiteral("Harry Potter"), Token.Semicolon]
  {
    RelationEnd(s);
    RelationFrom43(s);
  }

  /** The statement `main` runs scans as eleven tokens. */
  lemma SelectWithRelationTokens()
    ensures Tokens(SelectWithRelation) ==
              [Token.Select, Token.Asterisk, Token.From, Token.Identifier("author"), Token.ArrowRight,
               Token.Identifier("book"), Token.Where, Token.Identifier("title"), Token.Like,
               Token.StringLiteral("Harry Potter"), Token.Semicolon]
  {
    RelationLayout(SelectWithRelation);
    RelationTokensFrom0(SelectWithRelation);
  }

  /** The words and separators of the statement `main` runs, position by
      position. */
  predicate RelationShape(s: seq<char>) {
    && |s| == 59 && s[0..6] == "select" && s[6] == ' ' && s[7] == '*' && s[8] == ' ' && s[9..13] == "from"
    && s[13] == ' ' && s[14..20] == "author" && s[20] == '-' && s[21] == '>' && s[22..26] == "book" && s[26] == ' '
    && s[27..32] == "where" && s[32] == ' ' && s[33..38] == "title" && s[38] == ' ' && s[39..43] == "like"
    && s[43] == ' ' && s[44] == '"' && s[45..57] == "Harry Potter" && s[57] == '"' && s[58] == ';'
  }

  lemma RelationTokensFrom0(s: seq<char>)
    requires RelationShape(s)
    ensures TokensFrom(s, 0) ==
              [Token.Select, Token.Asterisk, Token.From, Token.Identifier("author"), Token.ArrowRight,
               Token.Identifier("book"), Token.Where, Token.Identifier("title"), Token.Like,
               Token.StringLiteral("Harry Potter"), Token.Semicolon]
  {
    AllAuthorsPrefix(s);
    RelationMiddle(s);
    RelationFinal(s);
  }

  lemma RelationLayout(s: seq<char>)
    requires s == SelectWithRelation
    ensures RelationShape(s)
  {
    RelationWordAt0(s);
    RelationWordAt9(s);
    RelationWordAt14(s);
    RelationWordAt22(s);
    RelationWordAt27(s);
    RelationWordAt33(s);
    RelationWordAt39(s);
    RelationWordAt45(s);
  }

  // One word of the statement per lemma, which keeps each proof about the
  // long literal small.

  lemma RelationWordAt0(s: seq<char>) requires s == SelectWithRelation ensures s[0..6] == "select" { }
  lemma RelationWordAt9(s: seq<char>) requires s == SelectWithRelation ensures s[9..13] == "from" { }
  lemma RelationWordAt14(s: seq<char>) requires s == SelectWithRelation ensures s[14..20] == "author" { }
  lemma RelationWordAt22(s: seq<char>) requires s == SelectWithRelation ensures s[22..26] == "book" { }
  lemma RelationWordAt27(s: seq<char>) requires s == SelectWithRelation ensures s[27..32] == "where" { }
  lemma RelationWordAt33(s: seq<char>) requires s == SelectWithRelation ensures s[33..38] == "title" { }
  lemma RelationWordAt39(s: seq<char>) requires s == SelectWithRelation ensures s[39..43] == "like" { }
  lemma RelationWordAt45(s: seq<char>) requires s == SelectWithRelation ensures s[45..57] == "Harry Potter" { }

  /** Those tokens reach the path `author -> book`, and the `where` after
      it starts a filter condition, which the parser does not implement. */
  lemma SelectWithRelationParses(ts: seq<Token>)
    requires ts == [Token.Select, Token.Asterisk, Token.From, Token.Identifier("author"), Token.ArrowRight,
                    Token.Identifier("book"), Token.Where, Token.Identifier("title"), Token.Like,
                    Token.StringLiteral("Harry Potter"), Token.Semicolon]
    ensures ParseSpec(ts, 0) == (Unimplemented(FilterCondition), 6)
  {
    PathOfOneHop(ts, 3);
    SelectAllFrom(ts);
  }

  /** From text to outcome: the statement `main` runs stops at its filter. */
  lemma SelectWithRelationEndToEnd()
    ensures ParseSpec(Tokens(SelectWithRelation), 0).0 == Unimplemented(FilterCondition)
  {
    SelectWithRelationTokens();
    SelectWithRelationParses(Tokens(SelectWithRelation));
  }

  /** What `main` does: a lexer over the statement, a parser over the
      lexer, and one call of `parse`. */
  method RunMain() returns (r: Outcome<AST>)
    ensures r == Unimplemented(FilterCondition)
  {
    var lexer := new Lexer(SelectWithRelation);
    var parser := new Parser(lexer);
    r := parser.Parse();
    SelectWithRelationEndToEnd();
  }

  // ---------------------------------------------------------------------
  // select title from book:hp1;

  lemma TitleAt6(s: seq<char>)
    requires 12 < |s| && s[6] == ' ' && s[7..12] == "title" && s[12] == ' '
    ensures ScanAt(s, 6) == Wrappers.Some(Lexeme(Token.Identifier("title"), 7, 12))
  {
    MqlLexerProps.SpacedWordAt(s, 6, "title");
  }

  lemma FromAt12(s: seq<char>)
    requires 17 < |s| && s[12] == ' ' && s[13..17] == "from" && s[17] == ' '
    ensures ScanAt(s, 12) == Wrappers.Some(Lexeme(Token.From, 13, 17))
  {
    MqlLexerProps.SpacedWordAt(s, 12, "from");
  }

  lemma BookAt17(s: seq<char>)
    requires 22 < |s| && s[17] == ' ' && s[18..22] == "book" && s[22] == ':'
    ensures ScanAt(s, 17) == Wrappers.Some(Lexeme(Token.Identifier("book"), 18, 22))
  {
    MqlLexerProps.SpacedWordAt(s, 17, "book");
  }

  lemma IdAt23(s: seq<char>)
    requires 26 < |s| && s[23..26] == "hp1" && s[26] == ';'
    ensures ScanAt(s, 23) == Wrappers.Some(Lexeme(Token.Identifier("hp1"), 23, 26))
  {
    MqlLexerProps.WordAt(s, 23, "hp1");
  }

  lemma WithIdFrom6(s: seq<char>)
    requires 12 < |s| && s[6] == ' ' && s[7..12] == "title" && s[12] == ' '
    ensures TokensFrom(s, 6) == [Token.Identifier("title")] + TokensFrom(s, 12)
  {
    TitleAt6(s);
    MqlLexerProps.TokensStep(s, 6, Lexeme(Token.Identifier("title"), 7, 12));
  }

  lemma WithIdFrom12(s: seq<char>)
    requires 17 < |s| && s[12] == ' ' && s[13..17] == "from" && s[17] == ' '
    ensures TokensFrom(s, 12) == [Token.From] + TokensFrom(s, 17)
  {
    FromAt12(s);
    MqlLexerProps.TokensStep(s, 12, Lexeme(Token.From, 13, 17));
  }

  lemma WithIdFrom17(s: seq<char>)
    requires 22 < |s| && s[17] == ' ' && s[18..22] == "book" && s[22] == ':'
    ensures TokensFrom(s, 17) == [Token.Identifier("book")] + TokensFrom(s, 22)
  {
    BookAt17(s);
    MqlLexerProps.TokensStep(s, 17, Lexeme(Token.Identifier("book"), 18, 22));
  }

  lemma WithIdFrom22(s: seq<char>)
    requires 22 < |s| && s[22] == ':'
    ensures TokensFrom(s, 22) == [Token.Colon] + TokensFrom(s, 23)
  {
    MqlLexerProps.PunctuationAt(s, 22);
    MqlLexerProps.TokensStep(s, 22, Lexeme(Token.Colon, 22, 23));
  }

  lemma WithIdFrom23(s: seq<char>)
    requires 26 < |s| && s[23..26] == "hp1" && s[26] == ';'
    ensures TokensFrom(s, 23) == [Token.Identifier("hp1")] + TokensFrom(s, 26)
  {
    IdAt23(s);
    MqlLexerProps.TokensStep(s, 23, Lexeme(Token.Identifier("hp1"), 23, 26));
  }

  lemma WithIdEnd(s: seq<char>)
    requires |s| == 27 && s[26] == ';'
    ensures TokensFrom(s, 26) == [Token.Semicolon]
  {
    assert TokensFrom(s, 27) == [];
    MqlLexerProps.PunctuationAt(s, 26);
    MqlLexerProps.TokensStep(s, 26, Lexeme(Token.Semicolon, 26, 27));
  }

  /** The tokens after `select` in `select title from book:hp1;`. */
  lemma WithIdTail(s: seq<char>)
    requires |s| == 27 && s[6] == ' ' && s[7..12] == "title" && s[12] == ' ' && s[13..17] == "from" && s[17] == ' '
    requires s[18..22] == "book" && s[22] == ':' && s[23..26] == "hp1" && s[26] == ';'
    ensures TokensFrom(s, 6) == [Token.Identifier("title"), Token.From, Token.Identifier("book"), Token.Colon,
                                 Token.Identifier("hp1"), Token.Semicolon]
  {
    WithIdEnd(s);
    WithIdFrom23(s);
    WithIdFrom22(s);
    WithIdFrom17(s);
    WithIdFrom12(s);
    WithIdFrom6(s);
  }

  /** `select title from book:hp1;` scans as seven tokens. */
  lemma SelectWithIdTokens()
    ensures Tokens(SelectWithId) ==
              [Token.Select, Token.Identifier("title"), Token.From, Token.Identifier("book"), Token.Colon,
               Token.Identifier("hp1"), Token.Semicolon]
  {
    WithIdLayout(SelectWithId);
    WithIdTokensFrom0(SelectWithId);
  }

  /** The words and separators of `select title from book:hp1;`, position
      by position. */
  predicate WithIdShape(s: seq<char>) {
    && |s| == 27 && s[0..6] == "select" && s[6] == ' ' && s[7..12] == "title" && s[12] == ' '
    && s[13..17] == "from" && s[17] == ' ' && s[18..22] == "book" && s[22] == ':' && s[23..26] == "hp1" && s[26] == ';'
  }

  lemma WithIdTokensFrom0(s: seq<char>)
    requires WithIdShape(s)
    ensures TokensFrom(s, 0) ==
              [Token.Select, Token.Identifier("title"), Token.From, Token.Identifier("book"), Token.Colon,
               Token.Identifier("hp1"), Token.Semicolon]
  {
    AllAuthorsFrom0(s);
    WithIdTail(s);
  }

  lemma WithIdLayout(s: seq<char>)
    requires s == SelectWithId
    ensures WithIdShape(s)
  {
    WithIdWordAt0(s);
    WithIdWordAt7(s);
    WithIdWordAt13(s);
    WithIdWordAt18(s);
    WithIdWordAt23(s);
  }

  lemma WithIdWordAt0(s: seq<char>) requires s == SelectWithId ensures s[0..6] == "select" { }
  lemma WithIdWordAt7(s: seq<char>) requires s == SelectWithId ensures s[7..12] == "title" { }
  lemma WithIdWordAt13(s: seq<char>) requires s == SelectWithId ensures s[13..17] == "from" { }
  lemma WithIdWordAt18(s: seq<char>) requires s == SelectWithId ensures s[18..22] == "book" { }
  lemma WithIdWordAt23(s: seq<char>) requires s == SelectWithId ensures s[23..26] == "hp1" { }

  /** A list of one field, ended by a token that is neither an identifier
      nor a comma; that token is consumed with it. */
  lemma ProjectionOfOneField(ts: seq<Token>, i: nat)
    requires i + 1 < |ts| && ts[i].Identifier? && !ts[i + 1].Identifier? && !ts[i + 1].Comma?
    ensures ProjectionSpec(ts, i) == (Ok(Fields([ts[i].name])), i + 2)
  {
    assert [] + [ts[i].name] == [ts[i].name];
    assert FieldsLoop(ts, i + 1, [ts[i].name]) == (Ok(Fields([ts[i].name])), i + 2);
  }

  /** The field loop consumes `from` as the token that ends the field list,
      so `book` is read where `from` is expected and is reported. */
  lemma SelectWithIdParses(ts: seq<Token>)
    requires ts == [Token.Select, Token.Identifier("title"), Token.From, Token.Identifier("book"), Token.Colon,
                    Token.Identifier("hp1"), Token.Semicolon]
    ensures ParseSpec(ts, 0) == (Err(UnexpectedToken(Token.Identifier("book"))), 4)
  {
    ProjectionOfOneField(ts, 1);
    SelectMissingFrom(ts, 3);
  }

  /** A projection that ends somewhere other than at `from`: the token
      found there is reported, and consumed. */
  lemma SelectMissingFrom(ts: seq<Token>, k: nat)
    requires 1 < k < |ts| && ts[0].Select? && ProjectionSpec(ts, 1).0.Ok? && ProjectionSpec(ts, 1).1 == k
    requires !ts[k].From?
    ensures ParseSpec(ts, 0) == (Err(UnexpectedToken(ts[k])), k + 1)
  {
    assert TokenTypeSpec(ts, k, TokenKind.From) == (Err(UnexpectedToken(ts[k])), k + 1);
  }

  /** From text to outcome: `select title from book:hp1;` is rejected. */
  lemma SelectWithIdEndToEnd()
    ensures ParseSpec(Tokens(SelectWithId), 0).0 == Err(UnexpectedToken(Token.Identifier("book")))
  {
    SelectWithIdTokens();
    SelectWithIdParses(Tokens(SelectWithId));
  }
}
