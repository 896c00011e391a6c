/** The MQL parser of src/mql/parser.rs: the syntax tree, a specification of
    every parsing routine as a function over the token sequence and a
    position in it, and the Parser object whose methods are proved to follow
    those functions. The Rust parser reads a peekable lexer; here it reads
    the sequence of tokens that lexer yields, and the position of the next
    unread token plays the part of the peekable iterator. */
module MqlParser {
  import Wrappers
  import opened MqlLexer

  datatype ParseError =
    | UnexpectedEOF
    | UnexpectedToken(token: Token)
    | InvalidProjection

  /** The routines the source leaves as `todo!()`. Reaching one of them
      aborts the program; the model records which one was reached. */
  datatype Todo = CreateStatement | LinkStatement | FilterCondition

  /** What a parsing routine comes to: a value, a ParseError, or a stop at
      an unimplemented routine. It supports `:-` in the way the source's
      `?` propagates both an error and (by unwinding) a `todo!()`. */
  datatype Outcome<+T> =
    | Ok(value: T)
    | Err(error: ParseError)
    | Unimplemented(at: Todo)
  {
    predicate IsFailure() {
      !Ok?
    }

    function PropagateFailure<U>(): Outcome<U>
      requires IsFailure()
    {
      if Err? then Err(error) else Unimplemented(at)
    }

    function Extract(): T
      requires Ok?
    {
      value
    }
  }

  datatype Projection = All | Fields(names: seq<string>)

  /** `type` or `type:id`. The id comes first in WithId, as in the source. */
  datatype EntityDescription =
    | NoId(typeName: string)
    | WithId(id: string, typeName: string)

  /** A source entity and the entities reached by each `->` hop. */
  datatype PathExpression = PathExpression(source: EntityDescription, hops: seq<EntityDescription>)

  /** The only statement the parser builds; the filter is always absent,
      since a filter condition is never parsed. */
  datatype AST = Select(projection: Projection, path: PathExpression, filter: Wrappers.Option<()>)

  // ---------------------------------------------------------------------
  // The parsing routines as functions of the tokens and a position. Each
  // yields its outcome and the position of the next unread token.

  /** `expect_token_type`: consume one token, which must have kind `kind`.
      At end of input nothing is consumed. */
  function TokenTypeSpec(ts: seq<Token>, i: nat, kind: TokenKind): (r: (Outcome<Token>, nat))
    requires i <= |ts|
    ensures r.0.Ok? ==> i < |ts| && r.1 == i + 1 && r.0.value == ts[i]
    ensures r.0.Ok? && kind == TokenKind.Identifier ==> ts[i].Identifier?
    ensures i <= r.1 <= |ts|
  {
    if i == |ts| then (Err(UnexpectedEOF), i)
    else if ts[i].Kind() == kind then (Ok(ts[i]), i + 1)
    else (Err(UnexpectedToken(ts[i])), i + 1)
  }

  /** `expect_entity_description`: an identifier, then `: identifier` if
      the next token is a colon. */
  function EntitySpec(ts: seq<Token>, i: nat): (r: (Outcome<EntityDescription>, nat))
    requires i <= |ts|
    ensures i <= r.1 <= |ts|
    ensures r.0.Ok? ==> i < r.1 && ts[i] == Token.Identifier(r.0.value.typeName)
    ensures r.0.Ok? && r.0.value.WithId? ==> r.1 == i + 3 && ts[i + 1].Colon? && ts[i + 2] == Token.Identifier(r.0.value.id)
    ensures r.0.Ok? && r.0.value.NoId? ==> r.1 == i + 1 && (i + 1 == |ts| || !ts[i + 1].Colon?)
    ensures !r.0.Unimplemented?
  {
    var (typeName, j) := TokenTypeSpec(ts, i, TokenKind.Identifier);
    if !typeName.Ok? then (typeName.PropagateFailure(), j)
    else if i + 1 < |ts| && ts[i + 1].Colon? then
      var (id, k) := TokenTypeSpec(ts, i + 2, TokenKind.Identifier);
      if !id.Ok? then (id.PropagateFailure(), k)
      else (Ok(WithId(ts[i + 2].name, ts[i].name)), i + 3)
    else (Ok(NoId(ts[i].name)), i + 1)
  }

  /** `expect_projection`: `*`, or a list of field names. */
  function ProjectionSpec(ts: seq<Token>, i: nat): (r: (Outcome<Projection>, nat))
    requires i <= |ts|
    ensures i <= r.1 <= |ts|
    ensures r.0.Ok? ==> i < r.1 && (r.0.value.All? <==> ts[i].Asterisk?)
    ensures r.0 == Err(InvalidProjection) <==> i < |ts| && !ts[i].Asterisk? && !ts[i].Identifier?
    ensures !r.0.Unimplemented?
  {
    if i == |ts| then (Err(UnexpectedEOF), i)
    else if ts[i].Asterisk? then (Ok(All), i + 1)
    else FieldsLoop(ts, i, [])
  }

  /** The field loop of `expect_projection`, having collected `fields`:
      each round consumes one token; an identifier is a field, and a comma
      right after it is consumed too; the first other token is consumed and
      ends the list. */
  function FieldsLoop(ts: seq<Token>, j: nat, fields: seq<string>): (r: (Outcome<Projection>, nat))
    requires j <= |ts|
    ensures j <= r.1 <= |ts|
    ensures r.0.Ok? ==> j < r.1 && r.0.value.Fields? && r.0.value.names != [] && fields <= r.0.value.names
    ensures r.0 == Err(InvalidProjection) <==> fields == [] && j < |ts| && !ts[j].Identifier?
    ensures !r.0.Unimplemented? && !(r.0.Err? && r.0.error.UnexpectedToken?)
    decreases |ts| - j
  {
    if j == |ts| then (Err(UnexpectedEOF), j)
    else if ts[j].Identifier? then
      var more := fields + [ts[j].name];
      if j + 1 < |ts| && ts[j + 1].Comma? then FieldsLoop(ts, j + 2, more)
      else FieldsLoop(ts, j + 1, more)
    else if fields == [] then (Err(InvalidProjection), j + 1)
    else (Ok(Fields(fields)), j + 1)
  }

  /** `expect_path_expression`: an entity, then `-> entity` hops for as long
      as the next token is an arrow. The token after the path is looked at
      but not consumed, and there must be one. */
  function PathSpec(ts: seq<Token>, i: nat): (r: (Outcome<PathExpression>, nat))
    requires i <= |ts|
    ensures i <= r.1 <= |ts|
    ensures r.0.Ok? ==> i < r.1 < |ts| && !ts[r.1].ArrowRight? && ts[i] == Token.Identifier(r.0.value.source.typeName)
    ensures !r.0.Unimplemented?
  {
    var (source, j) := EntitySpec(ts, i);
    if !source.Ok? then (source.PropagateFailure(), j)
    else PathLoop(ts, j, source.value, [])
  }

  function PathLoop(ts: seq<Token>, j: nat, source: EntityDescription, hops: seq<EntityDescription>)
    : (r: (Outcome<PathExpression>, nat))
    requires j <= |ts|
    ensures j <= r.1 <= |ts|
    ensures r.0.Ok? ==> r.1 < |ts| && !ts[r.1].ArrowRight?
    ensures r.0.Ok? ==> r.0.value.source == source && hops <= r.0.value.hops
    ensures !r.0.Unimplemented?
    decreases |ts| - j
  {
    if j == |ts| then (Err(UnexpectedEOF), j)
    else if ts[j].ArrowRight? then
      var (step, k) := EntitySpec(ts, j + 1);
      if !step.Ok? then (step.PropagateFailure(), k)
      else PathLoop(ts, k, source, hops + [step.value])
    else (Ok(PathExpression(source, hops)), j)
  }

  /** `expect_select_statement`: `select projection from path`, then `;`.
      Any other token after the path starts a filter condition, which is
      unimplemented. */
  function SelectSpec(ts: seq<Token>, i: nat): (r: (Outcome<AST>, nat))
    requires i <= |ts|
    ensures i <= r.1 <= |ts|
    ensures r.0.Ok? ==> i < r.1 && r.0.value.filter.None?
    ensures r.0.Unimplemented? ==> r.0.at == FilterCondition
  {
    var (kw, j) := TokenTypeSpec(ts, i, TokenKind.Select);
    if !kw.Ok? then (kw.PropagateFailure(), j)
    else SelectAfterKeyword(ts, i + 1)
  }

  function SelectAfterKeyword(ts: seq<Token>, j: nat): (r: (Outcome<AST>, nat))
    requires j <= |ts|
    ensures j <= r.1 <= |ts|
    ensures r.0.Ok? ==> r.0.value.filter.None? && j < |ts| && (r.0.value.projection.All? <==> ts[j].Asterisk?)
    ensures r.0.Unimplemented? ==> r.0.at == FilterCondition
  {
    var (projection, k) := ProjectionSpec(ts, j);
    if !projection.Ok? then (projection.PropagateFailure(), k)
    else SelectAfterProjection(ts, k, projection.value)
  }

  function SelectAfterProjection(ts: seq<Token>, k: nat, projection: Projection): (r: (Outcome<AST>, nat))
    requires k <= |ts|
    ensures k <= r.1 <= |ts|
    ensures r.0.Ok? ==> k < r.1 && r.0.value.projection == projection && r.0.value.filter.None?
    ensures r.0.Unimplemented? ==> r.0.at == FilterCondition
  {
    var (from, l) := TokenTypeSpec(ts, k, TokenKind.From);
    if !from.Ok? then (from.PropagateFailure(), l)
    else SelectAfterFrom(ts, k + 1, projection)
  }

  function SelectAfterFrom(ts: seq<Token>, l: nat, projection: Projection): (r: (Outcome<AST>, nat))
    requires l <= |ts|
    ensures l <= r.1 <= |ts|
    ensures r.0.Ok? ==> r.0.value.projection == projection && r.0.value.filter.None?
    ensures r.0.Ok? ==> l < r.1 && ts[r.1 - 1].Semicolon? && l < |ts| && ts[l] == Token.Identifier(r.0.value.path.source.typeName)
    ensures r.0.Unimplemented? ==> r.0.at == FilterCondition
  {
    var (path, m) := PathSpec(ts, l);
    if !path.Ok? then (path.PropagateFailure(), m)
    else StatementEnd(ts, m, projection, path.value)
  }

  /** After the path: `;` ends the statement, anything else would be a
      filter condition, and end of input is an error. */
  function StatementEnd(ts: seq<Token>, m: nat, projection: Projection, path: PathExpression)
    : (r: (Outcome<AST>, nat))
    requires m <= |ts|
    ensures m <= r.1 <= |ts|
    ensures r.0.Ok? <==> m < |ts| && ts[m].Semicolon?
    ensures r.0.Ok? ==> r.0.value == AST.Select(projection, path, Wrappers.None) && r.1 == m + 1
    ensures r.0.Unimplemented? <==> m < |ts| && !ts[m].Semicolon?
    ensures r.0.Unimplemented? ==> r.0.at == FilterCondition && r.1 == m
  {
    if m < |ts| then
      if ts[m].Semicolon? then (Ok(AST.Select(projection, path, Wrappers.None)), m + 1)
      else (Unimplemented(FilterCondition), m)
    else (Err(UnexpectedEOF), m)
  }

  /** `parse`: dispatch on the first token without consuming it. */
  function ParseSpec(ts: seq<Token>, i: nat): (r: (Outcome<AST>, nat))
    requires i <= |ts|
    ensures i <= r.1 <= |ts|
    ensures r.0.Ok? ==> i < |ts| && ts[i].Select? && r.0.value.filter.None?
    ensures r.0.Unimplemented? && r.0.at == CreateStatement <==> i < |ts| && ts[i].Create?
    ensures r.0.Unimplemented? && r.0.at == LinkStatement <==> i < |ts| && ts[i].Link?
    ensures r.0 == Err(UnexpectedEOF) && r.1 == i ==> i == |ts|
  {
    if i == |ts| then (Err(UnexpectedEOF), i)
    else match ts[i]
      case Select => SelectSpec(ts, i)
      case Create => (Unimplemented(CreateStatement), i)
      case Link => (Unimplemented(LinkStatement), i)
      case _ => (Err(UnexpectedToken(ts[i])), i)
  }

  // ---------------------------------------------------------------------
  // The Parser object

  /** A parser over the tokens of one lexer, with the position of the next
      unread token. */
  class Parser {
    const tokens: seq<Token>
    var cursor: nat

    ghost predicate Valid()
      reads this
    {
      cursor <= |tokens|
    }

    /** `Parser::new`: take over a lexer; the tokens are those the lexer
        still has to yield. */
    constructor(lexer: Lexer)
      requires lexer.Valid()
      ensures Valid() && tokens == TokensFrom(lexer.input, lexer.cursor) && cursor == 0
    {
      tokens := TokensFrom(lexer.input, lexer.cursor);
      cursor := 0;
    }

    /** `peek`: the next token, not consumed. */
    function Peek(): (r: Wrappers.Option<Token>)
      requires Valid()
      reads this
      ensures r.Some? <==> cursor < |tokens|
      ensures r.Some? ==> r.value == tokens[cursor]
    {
      if cursor < |tokens| then Wrappers.Some(tokens[cursor]) else Wrappers.None
    }

    /** `next`: the next token, consumed; nothing at end of input. */
    method Next() returns (r: Wrappers.Option<Token>)
      requires Valid()
      modifies this
      ensures Valid()
      ensures r == old(Peek())
      ensures cursor == if r.Some? then old(cursor) + 1 else old(cursor)
    {
      r := Peek();
      if r.Some? {
        cursor := cursor + 1;
      }
    }

    method Parse() returns (r: Outcome<AST>)
      requires Valid()
      modifies this
      ensures Valid() && (r, cursor) == ParseSpec(tokens, old(cursor))
    {
      var first := Peek();
      if first.None? {
        return Err(UnexpectedEOF);
      }
      match first.value
      case Select => r := ExpectSelectStatement();
      case Create => r := ExpectCreateStatement();
      case Link => r := ExpectLinkStatement();
      case _ => r := Err(UnexpectedToken(first.value));
    }

    method ExpectSelectStatement() returns (r: Outcome<AST>)
      requires Valid()
      modifies this
      ensures Valid() && (r, cursor) == SelectSpec(tokens, old(cursor))
    {
      var _ :- ExpectTokenType(TokenKind.Select);
      r := ExpectSelectBody();
    }

    /** `expect_select_statement` after the `select` keyword. */
    method ExpectSelectBody() returns (r: Outcome<AST>)
      requires Valid()
      modifies this
      ensures Valid() && (r, cursor) == SelectAfterKeyword(tokens, old(cursor))
    {
      var projection :- ExpectProjection();
      r := ExpectSelectSource(projection);
    }

    /** `expect_select_statement` after the projection: `from`, the path
        and what follows it. */
    method ExpectSelectSource(projection: Projection) returns (r: Outcome<AST>)
      requires Valid()
      modifies this
      ensures Valid() && (r, cursor) == SelectAfterProjection(tokens, old(cursor), projection)
    {
      var _ :- ExpectTokenType(TokenKind.From);
      r := ExpectSelectPath(projection);
    }

    /** `expect_select_statement` after `from`: the path and what follows
        it. */
    method ExpectSelectPath(projection: Projection) returns (r: Outcome<AST>)
      requires Valid()
      modifies this
      ensures Valid() && (r, cursor) == SelectAfterFrom(tokens, old(cursor), projection)
    {
      var path :- ExpectPathExpression();
      r := FinishSelectStatement(projection, path);
    }

    /** The end of `expect_select_statement`, once the path is parsed. */
    method FinishSelectStatement(projection: Projection, path: PathExpression) returns (r: Outcome<AST>)
      requires Valid()
      modifies this
      ensures Valid() && (r, cursor) == StatementEnd(tokens, old(cursor), projection, path)
    {
      var next := Peek();
      if next.Some? {
        if next.value.Semicolon? {
          var _ := Next();
          return Ok(AST.Select(projection, path, Wrappers.None));
        } else {
          var filter := ExpectFilterCondition();
          if filter.IsFailure() {
            return filter.PropagateFailure();
          }
          return Ok(AST.Select(projection, path, Wrappers.Some(())));
        }
      }
      return Err(UnexpectedEOF);
    }

    /** `expect_create_statement` is `todo!()`. */
    method ExpectCreateStatement() returns (r: Outcome<AST>)
      ensures r == Unimplemented(CreateStatement)
    {
      r := Unimplemented(CreateStatement);
    }

    /** `expect_link_statement` is `todo!()`. */
    method ExpectLinkStatement() returns (r: Outcome<AST>)
      ensures r == Unimplemented(LinkStatement)
    {
      r := Unimplemented(LinkStatement);
    }

    method ExpectProjection() returns (r: Outcome<Projection>)
      requires Valid()
      modifies this
      ensures Valid() && (r, cursor) == ProjectionSpec(tokens, old(cursor))
    {
      var next := Peek();
      if next.None? {
        return Err(UnexpectedEOF);
      }
      if next.value.Asterisk? {
        var _ := Next();
        return Ok(All);
      }
      var fields: seq<string> := [];
      while true
        invariant Valid()
        invariant ProjectionSpec(tokens, old(cursor)) == FieldsLoop(tokens, cursor, fields)
        decreases |tokens| - cursor
      {
        var token := Next();
        if token.None? {
          return Err(UnexpectedEOF);
        }
        if token.value.Identifier? {
          fields := fields + [token.value.name];
          var peeked := Peek();
          if peeked.Some? && peeked.value.Comma? {
            var _ := Next();
            continue;
          }
        } else {
          break;
        }
      }
      if fields == [] {
        return Err(InvalidProjection);
      }
      return Ok(Fields(fields));
    }

    method ExpectPathExpression() returns (r: Outcome<PathExpression>)
      requires Valid()
      modifies this
      ensures Valid() && (r, cursor) == PathSpec(tokens, old(cursor))
    {
      var source :- ExpectEntityDescription();
      var path: seq<EntityDescription> := [];
      while true
        invariant Valid()
        invariant PathSpec(tokens, old(cursor)) == PathLoop(tokens, cursor, source, path)
        decreases |tokens| - cursor
      {
        var next := Peek();
        if next.Some? {
          if next.value.ArrowRight? {
            var _ := Next();
            var step :- ExpectEntityDescription();
            path := path + [step];
            continue;
          } else {
            break;
          }
        } else {
          return Err(UnexpectedEOF);
        }
      }
      return Ok(PathExpression(source, path));
    }

    method ExpectEntityDescription() returns (r: Outcome<EntityDescription>)
      requires Valid()
      modifies this
      ensures Valid() && (r, cursor) == EntitySpec(tokens, old(cursor))
    {
      var typeName :- ExpectTokenType(TokenKind.Identifier);
      var next := Peek();
      if next.Some? && next.value.Colon? {
        var _ := Next();
        var id :- ExpectTokenType(TokenKind.Identifier);
        if id.Identifier? && typeName.Identifier? {
          return Ok(WithId(id.name, typeName.name));
        }
        assert false;
      }
      if typeName.Identifier? {
        return Ok(NoId(typeName.name));
      }
      assert false;
    }

    /** `expect_filter_condition` is `todo!()`. */
    method ExpectFilterCondition() returns (r: Outcome<()>)
      ensures r == Unimplemented(FilterCondition)
    {
      r := Unimplemented(FilterCondition);
    }

    method ExpectTokenType(kind: TokenKind) returns (r: Outcome<Token>)
      requires Valid()
      modifies this
      ensures Valid() && (r, cursor) == TokenTypeSpec(tokens, old(cursor), kind)
    {
      var next := Next();
      if next.None? {
        return Err(UnexpectedEOF);
      }
      if next.value.Kind() == kind {
        return Ok(next.value);
      }
      return Err(UnexpectedToken(next.value));
    }
  }
}
