# MQL front end and graph store, modelled in Dafny

minerva is a small graph database. It has three core parts:

- **Scanner.** `Lexer` turns MQL text into `(Token, Span)` pairs. A span is a pair of byte offsets.
- **Parser.** `Parser` reads those pairs through a one-token lookahead and builds one `AST` node. Only `select` statements are parsed. `create`, `link` and filter conditions are `todo!()` in the source.
- **Graph store.** `Graph` stores nodes under sequential ids and labelled directed edges per source node. It answers node and neighbour lookups and finds a path by depth-first search.

Each part is modelled in the form of its source.

## Scanner (`lexer.dfy`, `lexer_props.dfy`)

- `MqlLexer.ScanAt(s, i)` specifies one scanning step as a function over the character sequence. It skips whitespace and returns the next token together with the character indices it occupies.
- `Offset` turns character indices into byte offsets by summing the UTF-8 lengths, as `len_utf8` does.
- The `Lexer` class keeps the input, a cursor (standing for the `Peekable<Chars>`) and the byte `position`. Its methods mirror `next_char_if`, `next_char`, `peek_nth`, `emit_token` and `next_token`. Each string, identifier and number arm is a method with its loop.
- `NextToken` is proved to yield exactly `Emitted(input, ScanAt(input, cursor))`: the token paired with its byte span.

`MqlLexerProps` proves what the scanner promises:

- The emitted spans are ordered and disjoint.
- Every non-blank character lies in exactly one token.
- Every token is well formed with respect to the text it was scanned from:
  - a keyword only as a whole word;
  - an identifier never spelling a keyword;
  - maximal digit runs;
  - `3.` scanning as an integer and a dot.
- Quoted, escaped text scans back to itself.
- Escapes decode as the source decodes them.
- A literal left open runs to the end of the input without error and carries its decoded text. A lone backslash as the last character adds nothing.
- Two tokens have the same `kind` exactly when they are built by the same constructor, whatever their payloads. A payload-free token shares its kind with no other token.
- The single-character table holds exactly the eleven punctuation characters, and an integer's value is its digits in positional notation.

The source names the `{` token `RBrace` and the `}` token `LBrace`. The model keeps those names (`BracesKeepSourceNames`).

## Parser (`parser.dfy`, `parser_props.dfy`)

The parser reads the tokens the lexer yields (`TokensFrom`). The position of the next unread token stands for the peekable iterator.

Every parsing routine has a specification function:

- `TokenTypeSpec`, `EntitySpec`, `ProjectionSpec` with its `FieldsLoop`, `PathSpec` with its `PathLoop`, `SelectSpec` and `ParseSpec`.
- Each returns the outcome and the position after the call.

Each `Parser` method is proved to return that outcome and leave the cursor at that position. The outcome is `Ok`, `Err(ParseError)` or `Unimplemented(which)`. `Unimplemented` records that a `todo!()` was reached. `SelectSpec` is split at the points where the source calls the next routine: `SelectAfterKeyword`, `SelectAfterProjection`, `SelectAfterFrom` and `StatementEnd`.

`MqlParserProps` relates the specification functions to a renderer of the syntax tree into tokens:

- **Round trips.** Entity descriptions, paths and projections render and parse back. So do whole `select * from …;` statements, and field lists followed by a separator token.
- **Converses.** Whatever is accepted is such a rendering.
- **Stages.** An accepted statement is `select`, a projection, `from`, a path and `;`, and never has a filter.
- **Errors.**
  - `UnexpectedEOF` is reported only when the input is used up.
  - An `UnexpectedToken` names the last token consumed, or, in `parse`, the first token.
  - `InvalidProjection` is reported exactly when the projection starts with neither `*` nor an identifier.

The field loop of `expect_projection` (`src/mql/parser.rs:98-111`) consumes the token that ends the field list. So:

- `select a from b;` is rejected: `b` is reported where `from` was expected (`SelectFieldsFromIsRejected`).
- `select a; from b;` and `select a from from b;` are accepted, because some token other than a comma stands between the fields and `from`.
- Commas between fields are optional (`FieldsWithoutCommas`).

`src/main.rs:18` keeps `select title from book:hp1;` as a commented-out example statement. The code rejects it: the field loop consumes `from`, and `book` is then reported where `from` is expected (`MqlQueries.SelectWithIdEndToEnd`).

After a parsed path, the `Err(UnexpectedEOF)` branch of `expect_select_statement` (`src/mql/parser.rs:74`) can never be taken, because the path loop already reports end of input (`StatementEndNotAtEOF`).

## Whole statements (`queries.dfy`)

`MqlQueries` follows three statements from text to outcome:

- `select * from author;` scans as five tokens and parses to the select of every field from `author`, without filter.
- The statement `main` parses (`src/main.rs:19`) scans as eleven tokens. Parsing stops at its `where`, because filter conditions are unimplemented. `RunMain` does what `main` does: it builds a lexer and a parser over that statement and calls `parse`.
- `select title from book:hp1;` scans as seven tokens and is rejected, as described above.

Each scanning step is proved from the characters it depends on. The steps are then chained into the token sequence of the whole text.

## Graph store (`graph.dfy`)

`GraphStore.Graph` is a class with the fields `nodes`, `edges` and `nextId`.

- **Invariant.** `Valid` says that nodes sit under their own ids below `nextId`, and that every stored edge list is non-empty, sits under the node it leaves and joins two nodes.
- **`AddNode` and `AddEdge`.** They state the whole new state and keep the invariant.
- **`GetNode` and `GetNeighbors`.** These are functions over that state.
- **The search.** `m_dfs` becomes two methods:
  - `MDfs`, which handles the visited check and the target check;
  - `TryEdges`, the `for` loop over the edges in insertion order.

  The `&mut` visited map and path become in- and out-parameters. Both methods are proved equal to `Search`, a reference function for the same depth-first order.
- **What `Search` is proved to do.**
  - A walk it finds is a simple path along stored edges.
  - When it finds none, the ids it visited are closed under successors.
  - So `Dfs` returns a path exactly when the target is reachable.
  - A search from a node to itself returns `[from]`, whether or not that id is a node.

## Model

| member | source | states |
|---|---|---|
| MqlLexer.Span.Merge | src/mql/lexer.rs:12-14 | the merged span covers both spans and takes its start and end from one of them |
| MqlLexerProps.MergeCommutes | src/mql/lexer.rs:12-14 | merging is symmetric |
| MqlLexerProps.MergeIsSmallest | src/mql/lexer.rs:12-14 | any span covering both spans covers their merge, so the merge is the smallest cover |
| MqlLexer.Token.Kind | src/mql/lexer.rs:61-95 | a token's kind is Identifier exactly when the token is an identifier |
| MqlLexerProps.KindIsOnto | src/mql/lexer.rs:61-95 | every kind is the kind of some token |
| MqlLexerProps.CanonicalOfPayloadFree | src/mql/lexer.rs:61-95 | a payload-free token is the only token of its kind |
| MqlLexerProps.CanonicalPayload | src/mql/lexer.rs:99-131 | a kind stands for payload-carrying tokens exactly when its tokens carry a payload |
| MqlLexerProps.KindIgnoresPayload | src/mql/lexer.rs:61-95 | two tokens share a kind iff both are identifiers, both string, integer or float literals, both unknown characters, or they are the same payload-free token |
| MqlLexerProps.CanonicalConstructor | src/mql/lexer.rs:99-131 | the canonical token of a token's kind is built by the token's own constructor |
| MqlLexerProps.SingleCharTokens | src/mql/lexer.rs:149-159 | a character is a token on its own exactly when it is one of `:()[]{}.,*;`, and none of those tokens carries a payload |
| MqlLexerProps.DecimalValueBound | src/mql/lexer.rs:259-262 | the value of `n` digits is below ten to the `n` |
| MqlLexerProps.DecimalValueLeading | src/mql/lexer.rs:259-262 | the leading digit of a run counts ten to the number of digits after it, and the rest is read on its own |
| MqlLexer.Utf8Len | src/mql/lexer.rs:285 | each character advances the byte position by one to four bytes |
| MqlLexerProps.OffsetGrows | src/mql/lexer.rs:283-287 | the byte offset grows by between one and four bytes per character consumed |
| MqlLexer.RunEnd | src/mql/lexer.rs:208-210 | the identifier, digit and whitespace loops stop at the first character the predicate rejects, or at the end |
| MqlLexer.ScanString | src/mql/lexer.rs:160-183 | the string arm never moves backwards, stays inside the input and only appends to the text decoded so far |
| MqlLexer.ScanNumber | src/mql/lexer.rs:224-266 | a number token starts at its first digit and spans at least that digit |
| MqlLexer.ScanAt | src/mql/lexer.rs:146-273 | a scanning step skips only whitespace, yields a token starting at a non-blank character, and yields nothing exactly when only whitespace remains |
| MqlLexer.LexemesFrom | src/mql/lexer.rs:294-300 | the tokens of the whole iteration lie in the input, in order and without overlap |
| MqlLexerProps.LexemeCount | src/mql/lexer.rs:294-300 | the iterator yields at most one token per remaining character |
| MqlLexerProps.LexingReachesEnd | src/mql/lexer.rs:267-270 | iteration ends exactly when only whitespace is left, and only whitespace follows the last token |
| MqlLexerProps.LexemesCover | src/mql/lexer.rs:146-273 | every non-blank character belongs to exactly one token |
| MqlLexerProps.LexSpansOrdered | src/mql/lexer.rs:275-277 | emitted byte spans are non-empty, strictly ordered, non-overlapping and inside the input |
| MqlLexerProps.LexemesSorted | src/mql/lexer.rs:294-300 | token order between neighbours carries over to any two tokens |
| MqlLexerProps.ScanAtWord | src/mql/lexer.rs:206-222 | at a letter, the step takes the maximal identifier-character run and matches it against the keywords |
| MqlLexerProps.ScanAtDigit | src/mql/lexer.rs:224 | at a digit, the step is the number arm |
| MqlLexerProps.RunEndIs | src/mql/lexer.rs:208-210 | a run of accepted characters followed by a rejected one or the end ends exactly there |
| MqlLexerProps.WordAt | src/mql/lexer.rs:206-222 | a word followed by a character that cannot continue it scans as the keyword or identifier it spells |
| MqlLexerProps.SpaceAt | src/mql/lexer.rs:267-270 | a whitespace character is skipped: scanning from it and from the next character yields the same token |
| MqlLexerProps.PunctuationAt | src/mql/lexer.rs:149-159 | a punctuation character is a one-character token |
| MqlLexerProps.TokensStep | src/mql/lexer.rs:294-300 | the iteration yields the step's token and then the tokens after it |
| MqlLexerProps.WordIsWellFormed | src/mql/lexer.rs:206-222 | a word token is a whole word: a keyword spelled exactly, or an identifier carrying its text and spelling no keyword |
| MqlLexerProps.KeywordMatch | src/mql/lexer.rs:212-222 | a word is a keyword token exactly when it spells a keyword, and otherwise an identifier carrying the word |
| MqlLexerProps.DigitRun | src/mql/lexer.rs:225-228 | the digit loop collects only digits |
| MqlLexerProps.FloatIsWellFormed | src/mql/lexer.rs:230-258 | digits, a dot and digits, not followed by a digit, form a float carrying its text |
| MqlLexerProps.NumberIsWellFormed | src/mql/lexer.rs:224-266 | a number token is a maximal digit run with its value, or a float with digits on both sides of the dot |
| MqlLexerProps.FixedIsWellFormed | src/mql/lexer.rs:149-205 | a fixed-spelling token covers exactly its spelling |
| MqlLexerProps.SingleIsWellFormed | src/mql/lexer.rs:149-159 | the single-character punctuation tokens are well formed |
| MqlLexerProps.TwoCharIsWellFormed | src/mql/lexer.rs:184-204 | a two-character operator covers its two characters |
| MqlLexerProps.ScanAtDash | src/mql/lexer.rs:184-190 | `-` scans as an arrow before `>` and as `Unknown('-')` otherwise |
| MqlLexerProps.DashIsWellFormed | src/mql/lexer.rs:184-190 | the tokens of the `-` arm are well formed |
| MqlLexerProps.ScanAtSmaller | src/mql/lexer.rs:191-197 | `<` takes a following `=` with it |
| MqlLexerProps.SmallerIsWellFormed | src/mql/lexer.rs:191-197 | the tokens of the `<` arm are well formed; a bare `<` is not followed by `=` |
| MqlLexerProps.ScanAtGreater | src/mql/lexer.rs:198-204 | `>` takes a following `=` with it |
| MqlLexerProps.GreaterIsWellFormed | src/mql/lexer.rs:198-204 | the tokens of the `>` arm are well formed; a bare `>` is not followed by `=` |
| MqlLexerProps.EqualsIsWellFormed | src/mql/lexer.rs:205 | `=` is always `Equals` |
| MqlLexerProps.ScannedIsWellFormed | src/mql/lexer.rs:146-273 | every token a scanning step yields is well formed with respect to the characters it spans |
| MqlLexerProps.AllWellFormed | src/mql/lexer.rs:294-300 | every token of the iteration is well formed |
| MqlLexerProps.TokensOfText | src/mql/lexer.rs:146-273 | no input yields `ArrowLeft`; no identifier spells a keyword; every payload-free token covers exactly its fixed spelling |
| MqlLexerProps.ScanStringOfEscapedChar | src/mql/lexer.rs:163-180 | decoding one escaped character appends exactly that character |
| MqlLexerProps.ScanStringStep | src/mql/lexer.rs:163-180 | one loop round over an escaped text appends its first character |
| MqlLexerProps.ScanStringOfEscapedPrefix | src/mql/lexer.rs:163-180 | the string loop decodes any escaped text back to that text, whatever follows it |
| MqlLexerProps.ScanStringOfEscaped | src/mql/lexer.rs:160-183 | decoding an escaped text up to the closing quote gives the text back and ends after the quote |
| MqlLexerProps.QuotedEscapedAt | src/mql/lexer.rs:160-183 | a quote followed by an escaped text scans as a literal carrying the text and what decoding finds after it |
| MqlLexerProps.ScanPlain | src/mql/lexer.rs:163-180 | a body with no quote and no backslash is read verbatim and the loop ends after the closing quote |
| MqlLexerProps.PlainStringAt | src/mql/lexer.rs:160-183 | a quoted text without escapes scans as one literal carrying that text |
| MqlLexerProps.ScanAtQuote | src/mql/lexer.rs:160-183 | at `"`, the step is a string literal carrying the decoded body |
| MqlLexerProps.StringLiteralRoundTrip | src/mql/lexer.rs:160-183 | a quoted, escaped text scans as one string literal carrying exactly that text |
| MqlLexerProps.EscapeDecoding | src/mql/lexer.rs:166-177 | `\n`, `\t` and `\r` decode to control characters; any other escaped character is kept without its backslash |
| MqlLexerProps.UnterminatedString | src/mql/lexer.rs:163-180 | a body with no quote and no backslash before the last character runs to the end of input without error; a final lone backslash adds nothing |
| MqlLexerProps.UnterminatedRoundTrip | src/mql/lexer.rs:160-183 | a quote followed by the escaped form of any text, never closed, scans as one literal carrying the text and running to the end |
| MqlLexerProps.UnterminatedBackslash | src/mql/lexer.rs:160-183 | the same followed by a lone backslash: the literal carries the text and the backslash is consumed |
| MqlLexerProps.OperatorScanning | src/mql/lexer.rs:184-205 | the four operator arms token by token, including `-` without `>` staying `Unknown('-')` without consuming the next character |
| MqlLexerProps.UnknownCharacter | src/mql/lexer.rs:271 | a character that starts no token scans as `Unknown` of itself |
| MqlLexerProps.IntegerAlone | src/mql/lexer.rs:259-265 | `3` scans as one integer token |
| MqlLexerProps.FloatWithFraction | src/mql/lexer.rs:230-258 | `3.5` scans as one float token carrying its text |
| MqlLexerProps.TrailingDotIsSeparate | src/mql/lexer.rs:230-238 | `3.` scans as the integer 3 followed by a dot token |
| MqlLexerProps.KeywordsAreCaseSensitive | src/mql/lexer.rs:212-222 | `select SELECT` scans as the keyword and then an identifier |
| MqlLexerProps.LowerCaseSelect | src/mql/lexer.rs:213 | lower-case `select` is the keyword and spans the word |
| MqlLexerProps.UpperCaseSelect | src/mql/lexer.rs:221 | after a space, upper-case `SELECT` is an identifier |
| MqlLexerProps.SpaceBeforeUpperCase | src/mql/lexer.rs:267-270 | a whitespace character before a token is skipped |
| MqlLexerProps.UpperCaseWord | src/mql/lexer.rs:206-222 | `SELECT` spells no keyword and becomes an identifier |
| MqlLexerProps.BracesKeepSourceNames | src/mql/lexer.rs:154-155 | `{` scans as `RBrace` and `}` as `LBrace` |
| MqlLexer.Lexer.constructor | src/mql/lexer.rs:139-144 | a new lexer is at the start of its input, at byte offset 0 |
| MqlLexer.Lexer.NextCharIf | src/mql/lexer.rs:283-287 | consumes the next character exactly when the predicate accepts it, advancing the byte offset by its UTF-8 length |
| MqlLexer.Lexer.NextChar | src/mql/lexer.rs:279-281 | consumes the next character if there is one |
| MqlLexer.Lexer.PeekNth | src/mql/lexer.rs:289-291 | the character n places ahead, if any, without consuming it |
| MqlLexer.Lexer.EmitToken | src/mql/lexer.rs:275-277 | pairs the token with the span from its start to the current byte offset |
| MqlLexer.Lexer.LexString | src/mql/lexer.rs:160-183 | the string loop decodes the body as ScanString does and leaves the cursor after the closing quote or at the end |
| MqlLexer.Lexer.LexRun | src/mql/lexer.rs:206-210 | the identifier and digit loops consume the maximal run and append it to the word |
| MqlLexer.Lexer.LexNumber | src/mql/lexer.rs:224-266 | the number arm yields the ScanNumber token and stops where it ends |
| MqlLexer.Lexer.NextToken | src/mql/lexer.rs:146-273 | yields exactly the scanning step's token with its byte span, or None at the end of input, and moves past the token |
| MqlLexer.Lexer.Next | src/mql/lexer.rs:294-300 | the iterator yields what NextToken yields |
| MqlParser.Parser.constructor | src/mql/parser.rs:37-39 | the parser reads the tokens the lexer has still to yield, from the first |
| MqlParser.Parser.Peek | src/mql/parser.rs:87 | the next token, if any, without consuming it |
| MqlParser.Parser.Next | src/mql/parser.rs:99 | consumes and returns the peeked token, and nothing at end of input |
| MqlParser.Parser.Parse | src/mql/parser.rs:41-50 | peeks at the first token: `select` is parsed, `create` and `link` are unimplemented, end of input is UnexpectedEOF and any other token is reported, unconsumed; outcome and cursor are ParseSpec's |
| MqlParser.Parser.ExpectSelectStatement | src/mql/parser.rs:52-76 | consumes `select` or reports what stands there, then reads the rest of the statement; outcome and cursor are SelectSpec's |
| MqlParser.Parser.ExpectSelectBody | src/mql/parser.rs:54-76 | reads a projection, stopping at its error, then the rest of the statement; outcome and cursor are SelectAfterKeyword's |
| MqlParser.Parser.ExpectSelectSource | src/mql/parser.rs:55-76 | consumes `from` or reports what stands there, then reads the path; outcome and cursor are SelectAfterProjection's |
| MqlParser.Parser.ExpectSelectPath | src/mql/parser.rs:56-76 | reads a path, stopping at its error, then ends the statement; outcome and cursor are SelectAfterFrom's |
| MqlParser.Parser.FinishSelectStatement | src/mql/parser.rs:58-74 | after the path: `;` ends the statement, another token is a filter condition, end of input is an error |
| MqlParser.Parser.ExpectCreateStatement | src/mql/parser.rs:78-80 | create statements are unimplemented |
| MqlParser.Parser.ExpectLinkStatement | src/mql/parser.rs:82-84 | link statements are unimplemented |
| MqlParser.Parser.ExpectProjection | src/mql/parser.rs:86-121 | `*` is the whole projection; otherwise the loop collects identifiers, skipping a comma after each, and consumes the first other token, which ends a non-empty list and is InvalidProjection before any field; outcome and cursor are ProjectionSpec's |
| MqlParser.Parser.ExpectPathExpression | src/mql/parser.rs:123-144 | reads an entity, then one more entity per arrow, and leaves the token after the path unread; end of input is UnexpectedEOF; outcome and cursor are PathSpec's |
| MqlParser.Parser.ExpectEntityDescription | src/mql/parser.rs:146-166 | an identifier, and an id after it when a colon follows; outcome and cursor are EntitySpec's |
| MqlParser.Parser.ExpectFilterCondition | src/mql/parser.rs:168-170 | filter conditions are unimplemented |
| MqlParser.Parser.ExpectTokenType | src/mql/parser.rs:172-178 | consumes the next token and returns it when it has the asked kind, reports it otherwise, and reports UnexpectedEOF at the end; outcome and cursor are TokenTypeSpec's |
| MqlParser.TokenTypeSpec | src/mql/parser.rs:172-178 | a success consumes exactly the one token it returns; an identifier is asked for and got |
| MqlParser.EntitySpec | src/mql/parser.rs:146-166 | a success is the type name of the first token; with an id it consumed that name, a colon and the id, without one it consumed the name alone and no colon follows |
| MqlParser.ProjectionSpec | src/mql/parser.rs:86-121 | a success is All exactly when the first token is `*`; InvalidProjection exactly when the first token is neither `*` nor an identifier; never unimplemented |
| MqlParser.FieldsLoop | src/mql/parser.rs:98-117 | a success is a non-empty field list extending the fields read so far; InvalidProjection exactly when no field was read and the next token is not an identifier; never an unexpected token |
| MqlParser.PathSpec | src/mql/parser.rs:123-144 | a success starts at the type name of the first token and is followed by a token, unread, that is not an arrow |
| MqlParser.PathLoop | src/mql/parser.rs:127-141 | a success keeps the source, extends the hops read so far and stops before a token that is not an arrow |
| MqlParser.SelectSpec | src/mql/parser.rs:52-76 | a success consumes at least the keyword and has no filter; the only unimplemented routine reached is the filter condition |
| MqlParser.SelectAfterKeyword | src/mql/parser.rs:54-76 | a success has no filter and its projection is All exactly when the token after `select` is `*` |
| MqlParser.SelectAfterProjection | src/mql/parser.rs:55-76 | a success keeps the projection read, consumes at least one token and has no filter |
| MqlParser.SelectAfterFrom | src/mql/parser.rs:56-76 | a success ends at a consumed `;` and its path starts at the type name of the token after `from` |
| MqlParser.StatementEnd | src/mql/parser.rs:58-74 | success exactly at `;`, which is consumed; a filter condition, unconsumed, exactly at any other token; UnexpectedEOF at the end |
| MqlParser.ParseSpec | src/mql/parser.rs:41-50 | a success starts with `select` and has no filter; Unimplemented(Create) exactly at `create` and Unimplemented(Link) exactly at `link`; UnexpectedEOF without consuming only at the end |
| MqlParserProps.TokenTypeErrors | src/mql/parser.rs:172-178 | succeeds iff the next token has the asked kind; UnexpectedEOF iff at end of input; otherwise reports the token it consumed |
| MqlParserProps.EntityAt | src/mql/parser.rs:146-166 | a rendered entity description parses back to itself when no colon follows it |
| MqlParserProps.EntityParsed | src/mql/parser.rs:146-166 | whatever is accepted as an entity description is the rendering of the result, and a bare type name is not followed by a colon |
| MqlParserProps.EntityErrors | src/mql/parser.rs:146-166 | end of input is reported having consumed everything; an unexpected token is the last one consumed |
| MqlParserProps.HopsAt | src/mql/parser.rs:127-141 | the hop loop reads back rendered hops up to a token that is neither an arrow nor a colon |
| MqlParserProps.HopsParsed | src/mql/parser.rs:127-141 | whatever the hop loop accepts is a rendering of the hops it adds, followed by a token that is not an arrow |
| MqlParserProps.PathAt | src/mql/parser.rs:123-144 | a rendered path parses back to itself, and the token after it is not consumed |
| MqlParserProps.PathParsed | src/mql/parser.rs:123-144 | whatever is accepted as a path is the rendering of the result, and a token that is not an arrow follows it |
| MqlParserProps.PathLoopErrors | src/mql/parser.rs:127-141 | the hop loop's errors follow the end-of-input and last-token conventions |
| MqlParserProps.PathErrors | src/mql/parser.rs:123-144 | the path's errors follow the end-of-input and last-token conventions |
| MqlParserProps.ProjectionAllAt | src/mql/parser.rs:91-94 | `*` is the whole projection and consumes one token |
| MqlParserProps.FieldsAt | src/mql/parser.rs:98-111 | the field loop reads back comma-separated names, consuming the token that ends them |
| MqlParserProps.FieldsProjectionAt | src/mql/parser.rs:86-121 | comma-separated names parse back to themselves when followed by a token that is neither an identifier nor a comma, and that token is consumed |
| MqlParserProps.UnseparatedFieldsAt | src/mql/parser.rs:98-111 | the field loop also reads names written without commas |
| MqlParserProps.FieldsWithoutCommas | src/mql/parser.rs:98-111 | commas between fields are optional |
| MqlParserProps.FieldsParsed | src/mql/parser.rs:98-117 | the field list is the names read, in order, and is never empty |
| MqlParserProps.FieldsStop | src/mql/parser.rs:98-111 | the loop stops right after a token that is not a name |
| MqlParserProps.ProjectionParsed | src/mql/parser.rs:86-121 | a projection is All iff it starts with `*`; a field list is the identifiers read up to and including the first token that ends it |
| MqlParserProps.FieldsNeverInvalid | src/mql/parser.rs:113-115 | once a field has been read, InvalidProjection cannot occur |
| MqlParserProps.InvalidProjectionExactly | src/mql/parser.rs:86-121 | InvalidProjection is reported iff the projection starts with a token that is neither `*` nor an identifier |
| MqlParserProps.FieldsLoopErrors | src/mql/parser.rs:98-111 | the field loop never reports a token, and UnexpectedEOF only at the end of input |
| MqlParserProps.ProjectionErrors | src/mql/parser.rs:86-121 | a projection never reports a token, and UnexpectedEOF only at the end of input |
| MqlParserProps.KeywordKinds | src/mql/parser.rs:53-55 | asking for kind Select or From accepts exactly the token `select` or `from` |
| MqlParserProps.SelectAt | src/mql/parser.rs:52-76 | keyword, projection, `from`, path and `;` give the statement without filter |
| MqlParserProps.SelectAllRoundTrip | src/mql/parser.rs:52-76 | a rendered `select * from <path> ;` parses to the statement it spells and consumes it |
| MqlParserProps.SelectFieldsRoundTrip | src/mql/parser.rs:52-121 | a field projection round-trips when a token other than an identifier or a comma stands between the last field and `from` |
| MqlParserProps.SelectFieldsFromIsRejected | src/mql/parser.rs:98-111 | `select <fields> from <path>` is rejected, naming the path's first type name where `from` was expected |
| MqlParserProps.FromMissingAt | src/mql/parser.rs:55 | a name where `from` belongs is reported, having been consumed |
| MqlParserProps.SelectWithFilterIsUnimplemented | src/mql/parser.rs:66-70 | a token after the path other than `;` starts the unimplemented filter condition |
| MqlParserProps.SelectKeywordNeeded | src/mql/parser.rs:53 | an accepted statement starts with `select` |
| MqlParserProps.ProjectionNeeded | src/mql/parser.rs:54 | an accepted statement has an accepted projection |
| MqlParserProps.FromNeeded | src/mql/parser.rs:55-56 | an accepted statement has `from` and an accepted path after its projection |
| MqlParserProps.SemicolonNeeded | src/mql/parser.rs:58-74 | an accepted statement ends with `;`, consumed, and carries no filter |
| MqlParserProps.AfterProjectionAccepted | src/mql/parser.rs:55-74 | an accepted rest of statement is `from`, a rendered path and `;` |
| MqlParserProps.AfterKeywordAccepted | src/mql/parser.rs:54-74 | an accepted statement body is a projection, `from`, a rendered path and `;` |
| MqlParserProps.SelectAccepted | src/mql/parser.rs:52-76 | every accepted statement is `select`, a projection, `from`, a rendered path and `;`, without filter |
| MqlParserProps.StatementEndNotAtEOF | src/mql/parser.rs:74 | after a parsed path the end-of-input branch is never taken |
| MqlParserProps.StatementEndErrors | src/mql/parser.rs:58-74 | the only error after the path is UnexpectedEOF at the end of input |
| MqlParserProps.AfterProjectionErrors | src/mql/parser.rs:55-76 | the rest of the statement follows the end-of-input and last-token conventions |
| MqlParserProps.AfterKeywordErrors | src/mql/parser.rs:54-76 | the statement body follows the end-of-input and last-token conventions |
| MqlParserProps.SelectErrors | src/mql/parser.rs:52-76 | a select statement reports UnexpectedEOF only at the end of input, and an unexpected token is the last one consumed |
| MqlParserProps.ParseDispatch | src/mql/parser.rs:41-50 | empty input is UnexpectedEOF; `select` is parsed; `create` and `link` are unimplemented; any other first token is reported without being consumed |
| MqlParserProps.ParseErrors | src/mql/parser.rs:41-50 | a reported token is the unconsumed first token or the last consumed one; UnexpectedEOF means the input was used up |
| MqlParserProps.ParseAccepted | src/mql/parser.rs:41-76 | every statement accepted is a `select` statement without filter |
| MqlQueries.SelectAllEndToEnd | src/mql/parser.rs:41-76 | `select * from author;` parses to the select of every field from `author`, without filter |
| MqlQueries.SelectAllTokens | src/mql/lexer.rs:146-300 | `select * from author;` scans as `select`, `*`, `from`, `author`, `;` |
| MqlQueries.SelectWithRelationTokens | src/main.rs:19 | the statement `main` parses scans as eleven tokens, `author -> book` and the literal `Harry Potter` among them |
| MqlQueries.SelectWithRelationParses | src/mql/parser.rs:52-76 | those tokens reach the path `author -> book`, and the `where` after it stops the parse as an unimplemented filter condition |
| MqlQueries.SelectWithRelationEndToEnd | src/main.rs:19 | from text to outcome, that statement is an unimplemented filter condition |
| MqlQueries.RunMain | src/main.rs:19-29 | a lexer over that statement, a parser over the lexer and one `parse` give Unimplemented(FilterCondition) |
| MqlQueries.SelectWithIdTokens | src/main.rs:18 | `select title from book:hp1;` scans as seven tokens |
| MqlQueries.SelectWithIdParses | src/mql/parser.rs:98-111 | the field loop consumes `from`, so `book` is reported where `from` is expected |
| MqlQueries.SelectWithIdEndToEnd | src/main.rs:18 | from text to outcome, `select title from book:hp1;` is rejected with the token `book` |
| MqlQueries.PathOfOneHop | src/mql/parser.rs:123-144 | two entity types joined by an arrow, followed by a token that continues neither, parse as a one-hop path |
| MqlQueries.ProjectionOfOneField | src/mql/parser.rs:98-117 | one field followed by a token that is neither a name nor a comma is a one-field list, and that token is consumed |
| GraphStore.Graph.constructor | src/graph/graph.rs:22-28 | an empty store whose ids start at 0 |
| GraphStore.Graph.AddNode | src/graph/graph.rs:30-43 | the node is stored under the next id, which was free, and the counter moves on; edges are unchanged |
| GraphStore.Graph.AddEdge | src/graph/graph.rs:45-61 | succeeds iff both ends are nodes; then appends the edge to its source's list, so that source's successors gain `to` at the end and no one else's change; otherwise nothing changes |
| GraphStore.Graph.GetNode | src/graph/graph.rs:63-65 | the node stored under the id, if any; it carries that id, which is below the counter |
| GraphStore.Graph.GetNeighbors | src/graph/graph.rs:67-69 | None iff no edge was ever added from the id; otherwise the targets in insertion order |
| GraphStore.Graph.NeighborsAreNodes | src/graph/graph.rs:45-69 | neighbours are only reported for a node with at least one edge, and all of them are nodes |
| GraphStore.Graph.Search | src/graph/graph.rs:82-111 | the reference search only adds to the visited set, finds something exactly when it returns a walk, and a walk found runs from the current node to `to` |
| GraphStore.Graph.SearchEdges | src/graph/graph.rs:100-106 | the edge loop only adds to the visited set, finds something exactly when it returns a walk, and a walk found ends at `to` |
| GraphStore.Graph.Dfs | src/graph/graph.rs:71-80 | returns the reference search's walk; Some iff `to` is reachable from `from`; the walk is a simple path from `from` to `to`; a search for the start itself returns it alone |
| GraphStore.Graph.MDfs | src/graph/graph.rs:82-111 | found flag and visited set as the reference search gives them; the path is extended by the walk found, or left as it was |
| GraphStore.Graph.TryEdges | src/graph/graph.rs:100-106 | the edge loop tries the edges in insertion order and stops at the first success, as the reference search does |
| GraphStore.Graph.SearchSound | src/graph/graph.rs:82-111 | a walk found is a simple path along edges through unvisited ids; when none is found, the ids newly visited are closed under successors and exclude `to` |
| GraphStore.Graph.SearchEdgesSound | src/graph/graph.rs:100-106 | a walk found from the edge loop starts at a successor; when none is found, every target tried is visited |
| GraphStore.Graph.ClosedHoldsWalk | src/graph/graph.rs:89-91 | every walk from a member of a successor-closed set stays inside it |
| GraphStore.Graph.ClosedHoldsPaths | src/graph/graph.rs:75-77 | a successor-closed set holding `from` and not `to` shows `to` is unreachable |

## Left out

- Character classes: `is_alphabetic`, `is_numeric` and `is_alphanumeric` are modelled on ASCII only. Letters and digits outside ASCII scan as `Unknown` here, unlike in Rust, because the Unicode tables are not modelled. `is_whitespace` is the full White_Space list.
- MqlLexer.ScanNumber: an integer literal carries its unbounded value. The `usize` parse that would panic on overflow is not modelled.
- MqlLexer.ScanNumber: a float literal carries its text instead of an `f64`, because floating point is not modelled.
- Byte offsets are unbounded `nat`s. `usize` overflow of the position is not modelled.
- `Peekable<Chars>` is modelled as the input and a cursor index. `Peekable<Lexer>` is modelled as the token sequence the lexer yields and a position in it. Lookahead clones are positions.
- Spans are dropped by the parser, as in the source, which destructures them away. The parser model therefore works on tokens alone.
- `todo!()` is modelled as the `Unimplemented` outcome naming the routine. It stops the parse the way the source's panic does.
- The `unreachable!()` branches of `expect_entity_description` are impossible by construction: the spec function builds the entity directly from identifier tokens.
- Node ids are unbounded `nat`s. The `usize` wrap of `next_id` is not modelled.
- The visited `HashMap<usize, bool>` is modelled as a set, since only its keys are ever read. The store's hash maps are Dafny maps. The only order the source fixes, edge insertion order, is kept.
- Of `main.rs`, only the statement it parses and the commented-out `select title from book:hp1;` are modelled. Its printing is left out. The `Debug`, `Clone` and `PartialEq` derives become Dafny value equality.
