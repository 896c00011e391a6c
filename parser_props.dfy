/** What the MQL parser accepts and what it builds: each routine read back
    against a renderer of the syntax tree into tokens (round trips, and the
    converse that whatever is accepted is such a rendering), the errors it
    reports, and the behaviour of the projection loop, which consumes the
    token that ends the field list. */
module MqlParserProps {
  import Wrappers
  import opened MqlLexer
  import opened MqlParser
  import MqlLexerProps

  // ---------------------------------------------------------------------
  // Renderers: the tokens that spell a syntax tree

  function EntityTokens(e: EntityDescription): (ts: seq<Token>)
    ensures ts != [] && ts[0] == Token.Identifier(e.typeName)
  {
    match e
    case NoId(t) => [Token.Identifier(t)]
    case WithId(id, t) => [Token.Identifier(t), Token.Colon, Token.Identifier(id)]
  }

  function HopTokens(hops: seq<EntityDescription>): seq<Token> {
    if hops == [] then [] else [Token.ArrowRight] + EntityTokens(hops[0]) + HopTokens(hops[1..])
  }

  function PathTokens(p: PathExpression): seq<Token> {
    EntityTokens(p.source) + HopTokens(p.hops)
  }

  /** Field names separated by commas. */
  function FieldTokens(names: seq<string>): seq<Token> {
    if names == [] then []
    else if |names| == 1 then [Token.Identifier(names[0])]
    else [Token.Identifier(names[0]), Token.Comma] + FieldTokens(names[1..])
  }

  /** Field names one after the other, without commas. */
  function IdentifierTokens(names: seq<string>): (r: seq<Token>)
    ensures |r| == |names|
  {
    if names == [] then [] else [Token.Identifier(names[0])] + IdentifierTokens(names[1..])
  }

  /** A select statement without a filter, its projection rendered as
      `projection`. */
  function StatementTokens(projection: seq<Token>, p: PathExpression): seq<Token> {
    [Token.Select] + projection + [Token.From] + PathTokens(p) + [Token.Semicolon]
  }

  /** The names of the identifier tokens among ts[a..b], in order. */
  function NamesIn(ts: seq<Token>, a: nat, b: nat): seq<string>
    requires a <= b <= |ts|
    decreases b - a
  {
    if a == b then []
    else (if ts[a].Identifier? then [ts[a].name] else []) + NamesIn(ts, a + 1, b)
  }

  // ---------------------------------------------------------------------
  // Where a rendering occurs in a token sequence

  /** `xs` occurs in `ts` from index `i` on. */
  ghost predicate Spells<T>(ts: seq<T>, i: nat, xs: seq<T>)
    decreases xs
  {
    i + |xs| <= |ts| && (xs == [] || (ts[i] == xs[0] && Spells(ts, i + 1, xs[1..])))
  }

  /** Index `m` is the end of input or holds a token other than `t`. */
  predicate NotAt(ts: seq<Token>, m: nat, t: Token) {
    m >= |ts| || ts[m] != t
  }

  /** A rendering fits in the sequence and agrees with it token by token. */
  lemma {:induction false} SpellsIndex<T>(ts: seq<T>, i: nat, xs: seq<T>)
    ensures Spells(ts, i, xs) <==> i + |xs| <= |ts| && forall k :: 0 <= k < |xs| ==> ts[i + k] == xs[k]
    decreases xs
  {
    if xs != [] {
      SpellsIndex(ts, i + 1, xs[1..]);
      if Spells(ts, i, xs) {
        forall k | 0 <= k < |xs|
          ensures ts[i + k] == xs[k]
        {
          if k > 0 {
            assert ts[(i + 1) + (k - 1)] == xs[1..][k - 1];
          }
        }
      }
      if i + |xs| <= |ts| && forall k :: 0 <= k < |xs| ==> ts[i + k] == xs[k] {
        assert ts[i + 0] == xs[0];
        forall k | 0 <= k < |xs[1..]|
          ensures ts[(i + 1) + k] == xs[1..][k]
        {
          assert ts[i + (k + 1)] == xs[k + 1];
        }
      }
    }
  }

  lemma {:induction false} SpellsConcat<T>(ts: seq<T>, i: nat, xs: seq<T>, ys: seq<T>)
    ensures Spells(ts, i, xs + ys) <==> Spells(ts, i, xs) && Spells(ts, i + |xs|, ys)
    decreases xs
  {
    if xs == [] {
      assert xs + ys == ys;
      if Spells(ts, i, ys) {
        SpellsIndex(ts, i, ys);
      }
    } else {
      assert (xs + ys)[1..] == xs[1..] + ys;
      SpellsConcat(ts, i + 1, xs[1..], ys);
    }
  }

  /** A one-token rendering. */
  lemma SpellsOne<T>(ts: seq<T>, i: nat, t: T)
    ensures Spells(ts, i, [t]) <==> i < |ts| && ts[i] == t
  {
    assert [t][1..] == [];
  }

  /** A rendering followed by one more token. */
  lemma SpellsThen<T>(ts: seq<T>, i: nat, xs: seq<T>, t: T)
    requires Spells(ts, i, xs + [t])
    ensures Spells(ts, i, xs) && i + |xs| < |ts| && ts[i + |xs|] == t
  {
    SpellsConcat(ts, i, xs, [t]);
    SpellsOne(ts, i + |xs|, t);
  }

  // ---------------------------------------------------------------------
  // Where the pieces of a rendering sit

  lemma EntitySplit(ts: seq<Token>, i: nat, e: EntityDescription)
    requires Spells(ts, i, EntityTokens(e))
    ensures i < |ts| && ts[i] == Token.Identifier(e.typeName)
    ensures e.WithId? ==> i + 2 < |ts| && ts[i + 1] == Token.Colon && ts[i + 2] == Token.Identifier(e.id)
    ensures |EntityTokens(e)| == if e.WithId? then 3 else 1
  {
    SpellsIndex(ts, i, EntityTokens(e));
    assert ts[i + 0] == EntityTokens(e)[0];
    if e.WithId? {
      assert ts[i + 1] == EntityTokens(e)[1];
      assert ts[i + 2] == EntityTokens(e)[2];
    }
  }

  lemma HopsSplit(ts: seq<Token>, j: nat, hops: seq<EntityDescription>)
    requires hops != [] && Spells(ts, j, HopTokens(hops))
    ensures j < |ts| && ts[j] == Token.ArrowRight
    ensures Spells(ts, j + 1, EntityTokens(hops[0]))
    ensures Spells(ts, j + 1 + |EntityTokens(hops[0])|, HopTokens(hops[1..]))
    ensures |HopTokens(hops)| == 1 + |EntityTokens(hops[0])| + |HopTokens(hops[1..])|
  {
    var e := EntityTokens(hops[0]);
    SpellsConcat(ts, j, [Token.ArrowRight] + e, HopTokens(hops[1..]));
    SpellsConcat(ts, j, [Token.ArrowRight], e);
    SpellsOne(ts, j, Token.ArrowRight);
  }

  lemma PathSplit(ts: seq<Token>, i: nat, p: PathExpression)
    requires Spells(ts, i, PathTokens(p))
    ensures i < |ts| && ts[i] == Token.Identifier(p.source.typeName)
    ensures Spells(ts, i, EntityTokens(p.source))
    ensures Spells(ts, i + |EntityTokens(p.source)|, HopTokens(p.hops))
    ensures |PathTokens(p)| == |EntityTokens(p.source)| + |HopTokens(p.hops)|
  {
    SpellsConcat(ts, i, EntityTokens(p.source), HopTokens(p.hops));
    EntitySplit(ts, i, p.source);
  }

  lemma StatementKeywords(ts: seq<Token>, i: nat, projection: seq<Token>, p: PathExpression, k: nat, m: nat)
    requires Spells(ts, i, StatementTokens(projection, p))
    requires k == i + 1 + |projection| && m == k + 1 + |PathTokens(p)|
    ensures i < |ts| && ts[i] == Token.Select
    ensures k < |ts| && ts[k] == Token.From
    ensures m < |ts| && ts[m] == Token.Semicolon
    ensures m + 1 == i + |StatementTokens(projection, p)|
  {
    var front := [Token.Select] + projection;
    SpellsThen(ts, i, front + [Token.From] + PathTokens(p), Token.Semicolon);
    SpellsConcat(ts, i, front + [Token.From], PathTokens(p));
    SpellsThen(ts, i, front, Token.From);
    SpellsConcat(ts, i, [Token.Select], projection);
    SpellsOne(ts, i, Token.Select);
  }

  lemma StatementProjection(ts: seq<Token>, i: nat, projection: seq<Token>, p: PathExpression)
    requires Spells(ts, i, StatementTokens(projection, p))
    ensures Spells(ts, i + 1, projection)
  {
    var front := [Token.Select] + projection;
    SpellsConcat(ts, i, front + [Token.From] + PathTokens(p), [Token.Semicolon]);
    SpellsConcat(ts, i, front + [Token.From], PathTokens(p));
    SpellsConcat(ts, i, front, [Token.From]);
    SpellsConcat(ts, i, [Token.Select], projection);
  }

  lemma StatementPath(ts: seq<Token>, i: nat, projection: seq<Token>, p: PathExpression, k: nat)
    requires Spells(ts, i, StatementTokens(projection, p)) && k == i + 1 + |projection|
    ensures Spells(ts, k + 1, PathTokens(p))
  {
    var front := [Token.Select] + projection + [Token.From];
    SpellsConcat(ts, i, front + PathTokens(p), [Token.Semicolon]);
    SpellsConcat(ts, i, front, PathTokens(p));
  }

  // ---------------------------------------------------------------------
  // Entity descriptions

  /** EntitySpec reads back an entity description where it occurs, unless a
      colon follows it. */
  lemma EntityAt(ts: seq<Token>, i: nat, e: EntityDescription)
    requires Spells(ts, i, EntityTokens(e)) && NotAt(ts, i + |EntityTokens(e)|, Token.Colon)
    ensures EntitySpec(ts, i) == (Ok(e), i + |EntityTokens(e)|)
  {
    EntitySplit(ts, i, e);
  }

  /** Whatever EntitySpec accepts is the rendering of what it returns, and
      a bare type name is not followed by a colon. */
  lemma EntityParsed(ts: seq<Token>, i: nat)
    requires i <= |ts| && EntitySpec(ts, i).0.Ok?
    ensures var (o, j) := EntitySpec(ts, i);
            j == i + |EntityTokens(o.value)| && Spells(ts, i, EntityTokens(o.value)) &&
            (o.value.NoId? ==> NotAt(ts, j, Token.Colon))
  {
    var (o, j) := EntitySpec(ts, i);
    SpellsIndex(ts, i, EntityTokens(o.value));
    if o.value.WithId? {
      assert EntityTokens(o.value) == [ts[i], ts[i + 1], ts[i + 2]];
    } else {
      assert EntityTokens(o.value) == [ts[i]];
    }
  }

  // ---------------------------------------------------------------------
  // Path expressions

  /** One round of the hop loop: an arrow and an entity description. */
  lemma PathLoopStep(ts: seq<Token>, j: nat, source: EntityDescription, done: seq<EntityDescription>,
                     step: EntityDescription, k: nat)
    requires j < |ts| && ts[j] == Token.ArrowRight && EntitySpec(ts, j + 1) == (Ok(step), k)
    ensures PathLoop(ts, j, source, done) == PathLoop(ts, k, source, done + [step])
  {
  }

  /** The loop ends at a token that is not an arrow, without consuming it. */
  lemma PathLoopEnd(ts: seq<Token>, j: nat, source: EntityDescription, done: seq<EntityDescription>)
    requires j < |ts| && ts[j] != Token.ArrowRight
    ensures PathLoop(ts, j, source, done) == (Ok(PathExpression(source, done)), j)
  {
  }

  /** One hop read back: the arrow and the entity description after it. */
  lemma HopStep(ts: seq<Token>, j: nat, source: EntityDescription, done: seq<EntityDescription>,
                hops: seq<EntityDescription>)
    requires hops != [] && Spells(ts, j, HopTokens(hops))
    requires NotAt(ts, j + 1 + |EntityTokens(hops[0])|, Token.Colon)
    ensures PathLoop(ts, j, source, done) ==
            PathLoop(ts, j + 1 + |EntityTokens(hops[0])|, source, done + [hops[0]])
  {
    HopsSplit(ts, j, hops);
    EntityAt(ts, j + 1, hops[0]);
    PathLoopStep(ts, j, source, done, hops[0], j + 1 + |EntityTokens(hops[0])|);
  }

  /** The hop loop reads back the hops spelled from `j` up to `end`, when
      the token at `end` neither continues the path nor qualifies its last
      entity. */
  /** What follows an entity description in a path: the arrow of the next
      hop, or the token at `end`. */
  lemma HopFollower(ts: seq<Token>, k: nat, end: nat, hops: seq<EntityDescription>)
    requires Spells(ts, k, HopTokens(hops)) && end == k + |HopTokens(hops)|
    requires end < |ts| && ts[end] != Token.Colon
    ensures NotAt(ts, k, Token.Colon)
  {
    if hops != [] {
      HopsSplit(ts, k, hops);
    }
  }

  lemma {:induction false} HopsAt(ts: seq<Token>, j: nat, end: nat, source: EntityDescription,
                                   done: seq<EntityDescription>, hops: seq<EntityDescription>)
    requires Spells(ts, j, HopTokens(hops)) && end == j + |HopTokens(hops)|
    requires end < |ts| && ts[end] != Token.ArrowRight && ts[end] != Token.Colon
    ensures PathLoop(ts, j, source, done) == (Ok(PathExpression(source, done + hops)), end)
    decreases |hops|
  {
    if hops == [] {
      PathLoopEnd(ts, end, source, done);
      assert done + hops == done;
    } else {
      var k := j + 1 + |EntityTokens(hops[0])|;
      HopsSplit(ts, j, hops);
      HopFollower(ts, k, end, hops[1..]);
      HopStep(ts, j, source, done, hops);
      HopsAt(ts, k, end, source, done + [hops[0]], hops[1..]);
      MqlLexerProps.AppendFirst(done, hops);
    }
  }

  /** PathSpec reads back the path spelled from `i` up to `end`, when the
      token at `end` neither continues it (an arrow) nor qualifies its last
      entity (a colon); that token is not consumed. */
  lemma PathAt(ts: seq<Token>, i: nat, end: nat, p: PathExpression)
    requires Spells(ts, i, PathTokens(p)) && end == i + |PathTokens(p)|
    requires end < |ts| && ts[end] != Token.ArrowRight && ts[end] != Token.Colon
    ensures PathSpec(ts, i) == (Ok(p), end)
  {
    var j := i + |EntityTokens(p.source)|;
    PathSplit(ts, i, p);
    HopFollower(ts, j, end, p.hops);
    EntityAt(ts, i, p.source);
    HopsAt(ts, j, end, p.source, [], p.hops);
    assert [] + p.hops == p.hops;
  }

  /** One hop as the loop reads it, with the tokens that spell it. */
  lemma HopParsedStep(ts: seq<Token>, j: nat, source: EntityDescription, done: seq<EntityDescription>)
    returns (h: EntityDescription, k: nat)
    requires j < |ts| && ts[j] == Token.ArrowRight && PathLoop(ts, j, source, done).0.Ok?
    ensures k == j + 1 + |EntityTokens(h)| <= |ts|
    ensures Spells(ts, j, [Token.ArrowRight] + EntityTokens(h))
    ensures PathLoop(ts, j, source, done) == PathLoop(ts, k, source, done + [h])
  {
    h := EntitySpec(ts, j + 1).0.value;
    k := EntitySpec(ts, j + 1).1;
    EntityParsed(ts, j + 1);
    SpellsOne(ts, j, Token.ArrowRight);
    SpellsConcat(ts, j, [Token.ArrowRight], EntityTokens(h));
    PathLoopStep(ts, j, source, done, h, k);
  }

  lemma HopsCons(ts: seq<Token>, j: nat, h: EntityDescription, rest: seq<EntityDescription>)
    requires Spells(ts, j, [Token.ArrowRight] + EntityTokens(h))
    requires Spells(ts, j + 1 + |EntityTokens(h)|, HopTokens(rest))
    ensures Spells(ts, j, HopTokens([h] + rest))
    ensures |HopTokens([h] + rest)| == 1 + |EntityTokens(h)| + |HopTokens(rest)|
  {
    assert ([h] + rest)[0] == h && ([h] + rest)[1..] == rest;
    SpellsConcat(ts, j, [Token.ArrowRight] + EntityTokens(h), HopTokens(rest));
  }

  /** The tokens of a hop at `j`, followed by those of more hops. */
  lemma HopsJoin(ts: seq<Token>, j: nat, h: EntityDescription, k: nat, rest: seq<EntityDescription>, end: nat)
    requires k == j + 1 + |EntityTokens(h)| && Spells(ts, j, [Token.ArrowRight] + EntityTokens(h))
    requires Spells(ts, k, HopTokens(rest)) && end == k + |HopTokens(rest)|
    ensures Spells(ts, j, HopTokens([h] + rest)) && end == j + |HopTokens([h] + rest)|
  {
    HopsCons(ts, j, h, rest);
  }

  /** Whatever the hop loop accepts after `done` is a rendering of the hops
      it adds, up to a token at `end` that is not an arrow. */
  lemma {:induction false} HopsParsed(ts: seq<Token>, j: nat, source: EntityDescription,
                                       done: seq<EntityDescription>)
    returns (hops: seq<EntityDescription>, end: nat)
    requires j <= |ts| && PathLoop(ts, j, source, done).0.Ok?
    ensures PathLoop(ts, j, source, done) == (Ok(PathExpression(source, done + hops)), end)
    ensures Spells(ts, j, HopTokens(hops)) && end == j + |HopTokens(hops)|
    ensures end < |ts| && ts[end] != Token.ArrowRight
    decreases |ts| - j
  {
    if ts[j] == Token.ArrowRight {
      var h, k := HopParsedStep(ts, j, source, done);
      var rest;
      rest, end := HopsParsed(ts, k, source, done + [h]);
      hops := [h] + rest;
      HopsJoin(ts, j, h, k, rest, end);
      assert done + [h] + rest == done + hops;
    } else {
      hops, end := [], j;
      assert done + hops == done;
    }
  }

  /** Whatever PathSpec accepts is the rendering of what it returns, and it
      is followed by a token that is not an arrow. So a path never ends the
      input, and the parser's `UnexpectedEOF` after a parsed path can never
      be reached. */
  lemma PathParsed(ts: seq<Token>, i: nat) returns (p: PathExpression, end: nat)
    requires i <= |ts| && PathSpec(ts, i).0.Ok?
    ensures PathSpec(ts, i) == (Ok(p), end)
    ensures Spells(ts, i, PathTokens(p)) && end == i + |PathTokens(p)|
    ensures end < |ts| && ts[end] != Token.ArrowRight
  {
    var source := EntitySpec(ts, i).0.value;
    var j := EntitySpec(ts, i).1;
    EntityParsed(ts, i);
    var hops;
    hops, end := HopsParsed(ts, j, source, []);
    p := PathExpression(source, hops);
    assert [] + hops == hops;
    SpellsConcat(ts, i, EntityTokens(source), HopTokens(hops));
  }

  // ---------------------------------------------------------------------
  // Projections

  /** `*` is the whole projection. */
  lemma ProjectionAllAt(ts: seq<Token>, i: nat)
    requires i < |ts| && ts[i] == Token.Asterisk
    ensures ProjectionSpec(ts, i) == (Ok(All), i + 1)
  {
  }

  /** One round of the field loop: a name followed by a comma. */
  lemma FieldsCommaStep(ts: seq<Token>, j: nat, done: seq<string>, name: string)
    requires j + 1 < |ts| && ts[j] == Token.Identifier(name) && ts[j + 1] == Token.Comma
    ensures FieldsLoop(ts, j, done) == FieldsLoop(ts, j + 2, done + [name])
  {
  }

  /** One round of the field loop: a name not followed by a comma. */
  lemma FieldsNameStep(ts: seq<Token>, j: nat, done: seq<string>, name: string)
    requires j < |ts| && ts[j] == Token.Identifier(name) && NotAt(ts, j + 1, Token.Comma)
    ensures FieldsLoop(ts, j, done) == FieldsLoop(ts, j + 1, done + [name])
  {
  }

  /** The field loop ends at the first token that is not a name, and
      consumes it. */
  lemma FieldsEndStep(ts: seq<Token>, j: nat, done: seq<string>)
    requires j < |ts| && !ts[j].Identifier? && done != []
    ensures FieldsLoop(ts, j, done) == (Ok(Fields(done)), j + 1)
  {
  }

  lemma FieldsSplit(ts: seq<Token>, j: nat, names: seq<string>)
    requires |names| > 1 && Spells(ts, j, FieldTokens(names))
    ensures j + 1 < |ts| && ts[j] == Token.Identifier(names[0]) && ts[j + 1] == Token.Comma
    ensures Spells(ts, j + 2, FieldTokens(names[1..]))
    ensures |FieldTokens(names)| == 2 + |FieldTokens(names[1..])|
  {
    SpellsConcat(ts, j, [Token.Identifier(names[0]), Token.Comma], FieldTokens(names[1..]));
    SpellsIndex(ts, j, [Token.Identifier(names[0]), Token.Comma]);
    assert ts[j + 0] == [Token.Identifier(names[0]), Token.Comma][0];
    assert ts[j + 1] == [Token.Identifier(names[0]), Token.Comma][1];
  }

  lemma FieldsFirst(ts: seq<Token>, j: nat, names: seq<string>)
    requires names != [] && Spells(ts, j, FieldTokens(names))
    ensures j < |ts| && ts[j] == Token.Identifier(names[0])
  {
    SpellsIndex(ts, j, FieldTokens(names));
    assert ts[j + 0] == FieldTokens(names)[0];
  }

  lemma IdentifiersFirst(ts: seq<Token>, j: nat, names: seq<string>)
    requires names != [] && Spells(ts, j, IdentifierTokens(names))
    ensures j < |ts| && ts[j] == Token.Identifier(names[0])
  {
    SpellsIndex(ts, j, IdentifierTokens(names));
    assert ts[j + 0] == IdentifierTokens(names)[0];
  }

  lemma IdentifiersSplit(ts: seq<Token>, j: nat, names: seq<string>)
    requires names != [] && Spells(ts, j, IdentifierTokens(names))
    ensures j < |ts| && ts[j] == Token.Identifier(names[0])
    ensures Spells(ts, j + 1, IdentifierTokens(names[1..]))
  {
    SpellsConcat(ts, j, [Token.Identifier(names[0])], IdentifierTokens(names[1..]));
    SpellsOne(ts, j, Token.Identifier(names[0]));
  }

  /** A projection that starts with a name is a field list. */
  lemma ProjectionOfFields(ts: seq<Token>, i: nat)
    requires i < |ts| && ts[i].Identifier?
    ensures ProjectionSpec(ts, i) == FieldsLoop(ts, i, [])
  {
  }

  /** The field loop reads back the comma-separated names spelled from `j`
      up to `end`, and the token `t` at `end` with them. */
  lemma {:induction false} FieldsAt(ts: seq<Token>, j: nat, end: nat, done: seq<string>,
                                     names: seq<string>, t: Token)
    requires names != [] && !t.Identifier? && t != Token.Comma
    requires Spells(ts, j, FieldTokens(names)) && end == j + |FieldTokens(names)|
    requires end < |ts| && ts[end] == t
    ensures FieldsLoop(ts, j, done) == (Ok(Fields(done + names)), end + 1)
    decreases |names|
  {
    var name := names[0];
    if |names| == 1 {
      SpellsOne(ts, j, Token.Identifier(name));
      FieldsNameStep(ts, j, done, name);
      FieldsEndStep(ts, end, done + [name]);
      assert done + [name] == done + names;
    } else {
      FieldsSplit(ts, j, names);
      FieldsCommaStep(ts, j, done, name);
      FieldsAt(ts, j + 2, end, done + [name], names[1..], t);
      MqlLexerProps.AppendFirst(done, names);
    }
  }

  /** Comma-separated field names parse back to themselves, provided the
      token after the last name is neither an identifier nor a comma. That
      token is consumed along with the list. */
  lemma FieldsProjectionAt(ts: seq<Token>, i: nat, end: nat, names: seq<string>, t: Token)
    requires names != [] && !t.Identifier? && t != Token.Comma
    requires Spells(ts, i, FieldTokens(names) + [t]) && end == i + |FieldTokens(names)|
    ensures ProjectionSpec(ts, i) == (Ok(Fields(names)), end + 1)
  {
    SpellsThen(ts, i, FieldTokens(names), t);
    FieldsFirst(ts, i, names);
    ProjectionOfFields(ts, i);
    FieldsAt(ts, i, end, [], names, t);
    assert [] + names == names;
  }

  /** The field loop reads back names written one after the other from `j`
      up to `end`, and the token `t` at `end` with them. */
  lemma {:induction false} UnseparatedFieldsAt(ts: seq<Token>, j: nat, end: nat, done: seq<string>,
                                               names: seq<string>, t: Token)
    requires names != [] && !t.Identifier? && t != Token.Comma
    requires Spells(ts, j, IdentifierTokens(names)) && end == j + |names|
    requires end < |ts| && ts[end] == t
    ensures FieldsLoop(ts, j, done) == (Ok(Fields(done + names)), end + 1)
    decreases |names|
  {
    var name := names[0];
    IdentifiersSplit(ts, j, names);
    if |names| == 1 {
      FieldsNameStep(ts, j, done, name);
      FieldsEndStep(ts, end, done + [name]);
      assert done + [name] == done + names;
    } else {
      IdentifiersFirst(ts, j + 1, names[1..]);
      FieldsNameStep(ts, j, done, name);
      UnseparatedFieldsAt(ts, j + 1, end, done + [name], names[1..], t);
      MqlLexerProps.AppendFirst(done, names);
    }
  }

  /** Commas between fields are optional: names written one after the
      other give the same projection as with commas. */
  lemma FieldsWithoutCommas(ts: seq<Token>, i: nat, end: nat, names: seq<string>, t: Token)
    requires names != [] && !t.Identifier? && t != Token.Comma
    requires Spells(ts, i, IdentifierTokens(names) + [t]) && end == i + |names|
    ensures ProjectionSpec(ts, i) == (Ok(Fields(names)), end + 1)
  {
    SpellsThen(ts, i, IdentifierTokens(names), t);
    IdentifiersFirst(ts, i, names);
    ProjectionOfFields(ts, i);
    UnseparatedFieldsAt(ts, i, end, [], names, t);
    assert [] + names == names;
  }

  lemma NamesInStep(ts: seq<Token>, a: nat, b: nat)
    requires a < b <= |ts|
    ensures NamesIn(ts, a, b) == (if ts[a].Identifier? then [ts[a].name] else []) + NamesIn(ts, a + 1, b)
  {
  }

  /** One round of the field loop, whichever way it goes. */
  lemma FieldsRound(ts: seq<Token>, j: nat, fields: seq<string>) returns (next: nat)
    requires j < |ts| && ts[j].Identifier?
    ensures next == j + 1 || (next == j + 2 && j + 1 < |ts| && ts[j + 1] == Token.Comma)
    ensures next <= |ts| && FieldsLoop(ts, j, fields) == FieldsLoop(ts, next, fields + [ts[j].name])
  {
    if j + 1 < |ts| && ts[j + 1] == Token.Comma {
      next := j + 2;
      FieldsCommaStep(ts, j, fields, ts[j].name);
    } else {
      next := j + 1;
      FieldsNameStep(ts, j, fields, ts[j].name);
    }
  }

  /** The field loop stops right after a token that is not a name, having
      read only names and commas before it. */
  lemma {:induction false} FieldsStop(ts: seq<Token>, j: nat, fields: seq<string>)
    requires j <= |ts| && FieldsLoop(ts, j, fields).0.Ok?
    ensures var k := FieldsLoop(ts, j, fields).1;
            j < k && !ts[k - 1].Identifier? &&
            forall x :: j <= x < k - 1 ==> ts[x].Identifier? || ts[x] == Token.Comma
    decreases |ts| - j
  {
    if ts[j].Identifier? {
      var next := FieldsRound(ts, j, fields);
      FieldsStop(ts, next, fields + [ts[j].name]);
    }
  }

  /** The field list is the names read, in order. */
  lemma {:induction false} FieldsParsed(ts: seq<Token>, j: nat, fields: seq<string>)
    requires j <= |ts| && FieldsLoop(ts, j, fields).0.Ok?
    ensures var (o, k) := FieldsLoop(ts, j, fields);
            j < k && o.value == Fields(fields + NamesIn(ts, j, k - 1)) && o.value.names != []
    decreases |ts| - j
  {
    FieldsStop(ts, j, fields);
    var k := FieldsLoop(ts, j, fields).1;
    if ts[j].Identifier? {
      var name := ts[j].name;
      var more := fields + [name];
      var next := FieldsRound(ts, j, fields);
      FieldsParsed(ts, next, more);
      NamesInStep(ts, j, k - 1);
      if next == j + 2 {
        NamesInStep(ts, j + 1, k - 1);
      }
      assert NamesIn(ts, j, k - 1) == [name] + NamesIn(ts, next, k - 1);
      assert more + NamesIn(ts, next, k - 1) == fields + NamesIn(ts, j, k - 1);
    } else {
      FieldsEndStep(ts, j, fields);
      assert fields + NamesIn(ts, j, k - 1) == fields;
    }
  }

  /** A field list is the names of the identifiers read up to the first
      token that is neither an identifier nor a comma following one; that
      token is consumed with the list. */
  lemma ProjectionParsed(ts: seq<Token>, i: nat)
    requires i <= |ts| && ProjectionSpec(ts, i).0.Ok?
    ensures var (o, k) := ProjectionSpec(ts, i);
            i < k && !ts[k - 1].Identifier? &&
            (o.value == All <==> ts[i] == Token.Asterisk) &&
            (o.value.Fields? ==>
               o.value.names == NamesIn(ts, i, k - 1) && o.value.names != [] &&
               forall x :: i <= x < k - 1 ==> ts[x].Identifier? || ts[x] == Token.Comma)
  {
    if ts[i] != Token.Asterisk {
      FieldsStop(ts, i, []);
      FieldsParsed(ts, i, []);
      var k := ProjectionSpec(ts, i).1;
      assert [] + NamesIn(ts, i, k - 1) == NamesIn(ts, i, k - 1);
    }
  }

  lemma {:induction false} FieldsNeverInvalid(ts: seq<Token>, j: nat, fields: seq<string>)
    requires j <= |ts| && fields != []
    ensures FieldsLoop(ts, j, fields).0 != Err(InvalidProjection)
    decreases |ts| - j
  {
    if j < |ts| && ts[j].Identifier? {
      var next := FieldsRound(ts, j, fields);
      FieldsNeverInvalid(ts, next, fields + [ts[j].name]);
    }
  }

  /** InvalidProjection is reported exactly when the projection starts
      with a token that is neither `*` nor an identifier. */
  lemma InvalidProjectionExactly(ts: seq<Token>, i: nat)
    requires i <= |ts|
    ensures ProjectionSpec(ts, i).0 == Err(InvalidProjection) <==>
            i < |ts| && ts[i] != Token.Asterisk && !ts[i].Identifier?
  {
    if i < |ts| && ts[i].Identifier? {
      var none: seq<string> := [];
      var next := FieldsRound(ts, i, none);
      FieldsNeverInvalid(ts, next, none + [ts[i].name]);
    }
  }

  // ---------------------------------------------------------------------
  // Select statements

  /** The kinds the select statement asks for are payload-free. */
  lemma KeywordKinds(t: Token)
    ensures t.Kind() == TokenKind.Select <==> t == Token.Select
    ensures t.Kind() == TokenKind.From <==> t == Token.From
  {
  }

  lemma SelectKeywordStep(ts: seq<Token>, i: nat)
    requires i < |ts| && ts[i] == Token.Select
    ensures SelectSpec(ts, i) == SelectAfterKeyword(ts, i + 1)
  {
  }

  lemma SelectProjectionStep(ts: seq<Token>, j: nat, projection: Projection, k: nat)
    requires j <= |ts| && ProjectionSpec(ts, j) == (Ok(projection), k)
    ensures SelectAfterKeyword(ts, j) == SelectAfterProjection(ts, k, projection)
  {
  }

  lemma SelectPathStep(ts: seq<Token>, k: nat, projection: Projection, path: PathExpression, m: nat)
    requires k < |ts| && ts[k] == Token.From && PathSpec(ts, k + 1) == (Ok(path), m)
    ensures SelectAfterProjection(ts, k, projection) == StatementEnd(ts, m, projection, path)
  {
    KeywordKinds(ts[k]);
  }

  /** A select statement is read stage by stage: keyword, projection,
      `from`, path, terminator. */
  lemma SelectAt(ts: seq<Token>, i: nat, projection: Projection, k: nat, p: PathExpression, m: nat)
    requires i < |ts| && ts[i] == Token.Select && ProjectionSpec(ts, i + 1) == (Ok(projection), k)
    requires k < |ts| && ts[k] == Token.From && PathSpec(ts, k + 1) == (Ok(p), m)
    requires m < |ts| && ts[m] == Token.Semicolon
    ensures SelectSpec(ts, i) == (Ok(AST.Select(projection, p, Wrappers.None)), m + 1)
  {
    SelectKeywordStep(ts, i);
    SelectProjectionStep(ts, i + 1, projection, k);
    SelectPathStep(ts, k, projection, p, m);
  }

  /** The path of a statement read back, up to the `;` after it. */
  lemma StatementPathAt(ts: seq<Token>, i: nat, projection: seq<Token>, p: PathExpression, k: nat, m: nat)
    requires Spells(ts, i, StatementTokens(projection, p))
    requires k == i + 1 + |projection| && m == k + 1 + |PathTokens(p)|
    ensures PathSpec(ts, k + 1) == (Ok(p), m)
  {
    StatementKeywords(ts, i, projection, p, k, m);
    StatementPath(ts, i, projection, p, k);
    PathAt(ts, k + 1, m, p);
  }

  /** The field list of a statement read back, with the token after it. */
  lemma StatementFieldsAt(ts: seq<Token>, i: nat, names: seq<string>, t: Token, p: PathExpression, k: nat)
    requires names != [] && !t.Identifier? && t != Token.Comma
    requires Spells(ts, i, StatementTokens(FieldTokens(names) + [t], p))
    requires k == i + 2 + |FieldTokens(names)|
    ensures ProjectionSpec(ts, i + 1) == (Ok(Fields(names)), k)
  {
    StatementProjection(ts, i, FieldTokens(names) + [t], p);
    FieldsProjectionAt(ts, i + 1, i + 1 + |FieldTokens(names)|, names, t);
  }

  lemma SelectAllPieces(ts: seq<Token>, i: nat, end: nat, p: PathExpression) returns (k: nat, m: nat)
    requires Spells(ts, i, StatementTokens([Token.Asterisk], p)) && end == i + |StatementTokens([Token.Asterisk], p)|
    ensures i < |ts| && ts[i] == Token.Select && ProjectionSpec(ts, i + 1) == (Ok(All), k)
    ensures k < |ts| && ts[k] == Token.From && PathSpec(ts, k + 1) == (Ok(p), m)
    ensures m < |ts| && ts[m] == Token.Semicolon && m + 1 == end
  {
    k := i + 2;
    m := k + 1 + |PathTokens(p)|;
    StatementKeywords(ts, i, [Token.Asterisk], p, k, m);
    StatementProjection(ts, i, [Token.Asterisk], p);
    SpellsOne(ts, i + 1, Token.Asterisk);
    ProjectionAllAt(ts, i + 1);
    StatementPathAt(ts, i, [Token.Asterisk], p, k, m);
  }

  /** `select * from <path> ;` parses to the statement it spells. */
  lemma SelectAllRoundTrip(ts: seq<Token>, i: nat, end: nat, p: PathExpression)
    requires Spells(ts, i, StatementTokens([Token.Asterisk], p)) && end == i + |StatementTokens([Token.Asterisk], p)|
    ensures SelectSpec(ts, i) == (Ok(AST.Select(All, p, Wrappers.None)), end)
  {
    var k, m := SelectAllPieces(ts, i, end, p);
    SelectAt(ts, i, All, k, p, m);
  }

  /** A field projection is accepted only with a token between the last
      field and `from` that is neither an identifier nor a comma, since the
      field loop consumes the token that ends it. */
  lemma SelectFieldsRoundTrip(ts: seq<Token>, i: nat, end: nat, names: seq<string>, t: Token, p: PathExpression)
    requires names != [] && !t.Identifier? && t != Token.Comma
    requires Spells(ts, i, StatementTokens(FieldTokens(names) + [t], p))
    requires end == i + |StatementTokens(FieldTokens(names) + [t], p)|
    ensures SelectSpec(ts, i) == (Ok(AST.Select(Fields(names), p, Wrappers.None)), end)
  {
    var k, m := SelectFieldsPieces(ts, i, end, names, t, p);
    SelectAt(ts, i, Fields(names), k, p, m);
  }

  lemma SelectFieldsPieces(ts: seq<Token>, i: nat, end: nat, names: seq<string>, t: Token, p: PathExpression)
    returns (k: nat, m: nat)
    requires names != [] && !t.Identifier? && t != Token.Comma
    requires Spells(ts, i, StatementTokens(FieldTokens(names) + [t], p))
    requires end == i + |StatementTokens(FieldTokens(names) + [t], p)|
    ensures i < |ts| && ts[i] == Token.Select && ProjectionSpec(ts, i + 1) == (Ok(Fields(names)), k)
    ensures k < |ts| && ts[k] == Token.From && PathSpec(ts, k + 1) == (Ok(p), m)
    ensures m < |ts| && ts[m] == Token.Semicolon && m + 1 == end
  {
    var projection := FieldTokens(names) + [t];
    k := i + 1 + |projection|;
    m := k + 1 + |PathTokens(p)|;
    StatementKeywords(ts, i, projection, p, k, m);
    StatementFieldsAt(ts, i, names, t, p, k);
    StatementPathAt(ts, i, projection, p, k, m);
  }

  /** Where `from` is required, any other token is reported. */
  lemma FromMissing(ts: seq<Token>, k: nat, projection: Projection)
    requires k < |ts| && ts[k].Identifier?
    ensures SelectAfterProjection(ts, k, projection) == (Err(UnexpectedToken(ts[k])), k + 1)
  {
  }

  lemma FromRejectedSplit(ts: seq<Token>, i: nat, names: seq<string>, p: PathExpression, k: nat)
    requires Spells(ts, i, [Token.Select] + (FieldTokens(names) + [Token.From]) + PathTokens(p))
    requires k == i + 1 + |FieldTokens(names)|
    ensures i < |ts| && ts[i] == Token.Select
    ensures Spells(ts, i + 1, FieldTokens(names) + [Token.From])
    ensures k + 1 < |ts| && ts[k + 1] == Token.Identifier(p.source.typeName)
  {
    var projection := FieldTokens(names) + [Token.From];
    SpellsConcat(ts, i, [Token.Select] + projection, PathTokens(p));
    SpellsConcat(ts, i, [Token.Select], projection);
    SpellsOne(ts, i, Token.Select);
    PathSplit(ts, k + 1, p);
  }

  /** `select a, b from <path>` written as the grammar intends is rejected:
      `from` ends the field list and is consumed with it, so the first type
      name of the path is reported where `from` was expected. */
  lemma SelectFieldsFromIsRejected(ts: seq<Token>, i: nat, names: seq<string>, p: PathExpression)
    requires names != []
    requires Spells(ts, i, [Token.Select] + (FieldTokens(names) + [Token.From]) + PathTokens(p))
    ensures SelectSpec(ts, i).0 == Err(UnexpectedToken(Token.Identifier(p.source.typeName)))
  {
    var k := i + 1 + |FieldTokens(names)|;
    FromRejectedSplit(ts, i, names, p, k);
    FieldsProjectionAt(ts, i + 1, k, names, Token.From);
    FromMissingAt(ts, i, Fields(names), k + 1);
  }

  /** A projection followed by a name where `from` belongs. */
  lemma FromMissingAt(ts: seq<Token>, i: nat, projection: Projection, k: nat)
    requires i < |ts| && ts[i] == Token.Select && ProjectionSpec(ts, i + 1) == (Ok(projection), k)
    requires k < |ts| && ts[k].Identifier?
    ensures SelectSpec(ts, i) == (Err(UnexpectedToken(ts[k])), k + 1)
  {
    SelectKeywordStep(ts, i);
    SelectProjectionStep(ts, i + 1, projection, k);
    FromMissing(ts, k, projection);
  }

  lemma FilterSplit(ts: seq<Token>, i: nat, p: PathExpression, k: nat)
    requires Spells(ts, i, [Token.Select, Token.Asterisk, Token.From] + PathTokens(p)) && k == i + 2
    ensures k < |ts| && ts[i] == Token.Select && ts[i + 1] == Token.Asterisk && ts[k] == Token.From
    ensures Spells(ts, k + 1, PathTokens(p))
  {
    var head := [Token.Select, Token.Asterisk, Token.From];
    SpellsConcat(ts, i, head, PathTokens(p));
    SpellsIndex(ts, i, head);
    assert ts[i + 0] == head[0] && ts[i + 1] == head[1] && ts[i + 2] == head[2];
  }

  /** A path followed by a token other than `;` starts a filter condition,
      which is unimplemented. */
  lemma SelectWithFilterIsUnimplemented(ts: seq<Token>, i: nat, p: PathExpression, m: nat)
    requires Spells(ts, i, [Token.Select, Token.Asterisk, Token.From] + PathTokens(p))
    requires m == i + 3 + |PathTokens(p)| && m < |ts|
    requires ts[m] != Token.Semicolon && ts[m] != Token.ArrowRight && ts[m] != Token.Colon
    ensures SelectSpec(ts, i).0 == Unimplemented(FilterCondition)
  {
    var k := i + 2;
    FilterSplit(ts, i, p, k);
    PathAt(ts, k + 1, m, p);
    ProjectionAllAt(ts, i + 1);
    SelectKeywordStep(ts, i);
    SelectProjectionStep(ts, i + 1, All, k);
    SelectPathStep(ts, k, All, p, m);
  }

  lemma SelectKeywordNeeded(ts: seq<Token>, i: nat)
    requires i <= |ts| && SelectSpec(ts, i).0.Ok?
    ensures i < |ts| && ts[i] == Token.Select && SelectSpec(ts, i) == SelectAfterKeyword(ts, i + 1)
  {
    KeywordKinds(ts[i]);
  }

  lemma ProjectionNeeded(ts: seq<Token>, j: nat)
    requires j <= |ts| && SelectAfterKeyword(ts, j).0.Ok?
    ensures ProjectionSpec(ts, j).0.Ok?
    ensures var (projection, k) := ProjectionSpec(ts, j);
            SelectAfterKeyword(ts, j) == SelectAfterProjection(ts, k, projection.value)
  {
  }

  lemma FromNeeded(ts: seq<Token>, k: nat, projection: Projection)
    requires k <= |ts| && SelectAfterProjection(ts, k, projection).0.Ok?
    ensures k < |ts| && ts[k] == Token.From && PathSpec(ts, k + 1).0.Ok?
    ensures var (path, n) := PathSpec(ts, k + 1);
            SelectAfterProjection(ts, k, projection) == StatementEnd(ts, n, projection, path.value)
  {
    KeywordKinds(ts[k]);
  }

  lemma SemicolonNeeded(ts: seq<Token>, n: nat, projection: Projection, path: PathExpression)
    requires n <= |ts| && StatementEnd(ts, n, projection, path).0.Ok?
    ensures n < |ts| && ts[n] == Token.Semicolon
    ensures StatementEnd(ts, n, projection, path) == (Ok(AST.Select(projection, path, Wrappers.None)), n + 1)
  {
  }

  /** The rest of an accepted statement after its projection. */
  lemma AfterProjectionAccepted(ts: seq<Token>, k: nat, projection: Projection)
    returns (path: PathExpression, m: nat)
    requires k <= |ts| && SelectAfterProjection(ts, k, projection).0.Ok?
    ensures SelectAfterProjection(ts, k, projection) == (Ok(AST.Select(projection, path, Wrappers.None)), m)
    ensures k < |ts| && ts[k] == Token.From
    ensures m == k + 2 + |PathTokens(path)| <= |ts|
    ensures Spells(ts, k + 1, PathTokens(path)) && ts[m - 1] == Token.Semicolon
  {
    FromNeeded(ts, k, projection);
    var n;
    path, n := PathParsed(ts, k + 1);
    SemicolonNeeded(ts, n, projection, path);
    m := n + 1;
  }

  /** An accepted statement is, in order: `select`, a projection that
      ends before position k, `from` at k, the tokens that spell its path,
      and the `;` that closes it. It never has a filter. */
  lemma SelectAccepted(ts: seq<Token>, i: nat) returns (st: AST, k: nat, m: nat)
    requires i <= |ts| && SelectSpec(ts, i).0.Ok?
    ensures SelectSpec(ts, i) == (Ok(st), m) && st.filter == Wrappers.None
    ensures i < |ts| && ts[i] == Token.Select
    ensures ProjectionSpec(ts, i + 1) == (Ok(st.projection), k)
    ensures k < |ts| && ts[k] == Token.From
    ensures m == k + 2 + |PathTokens(st.path)| <= |ts|
    ensures Spells(ts, k + 1, PathTokens(st.path)) && ts[m - 1] == Token.Semicolon
  {
    SelectKeywordNeeded(ts, i);
    var j := i + 1;
    st, k, m := AfterKeywordAccepted(ts, j);
  }

  lemma AfterKeywordAccepted(ts: seq<Token>, j: nat) returns (st: AST, k: nat, m: nat)
    requires j <= |ts| && SelectAfterKeyword(ts, j).0.Ok?
    ensures SelectAfterKeyword(ts, j) == (Ok(st), m) && st.Select? && st.filter == Wrappers.None
    ensures ProjectionSpec(ts, j) == (Ok(st.projection), k)
    ensures k < |ts| && ts[k] == Token.From
    ensures m == k + 2 + |PathTokens(st.path)| <= |ts|
    ensures Spells(ts, k + 1, PathTokens(st.path)) && ts[m - 1] == Token.Semicolon
  {
    ProjectionNeeded(ts, j);
    var projection := ProjectionSpec(ts, j).0.value;
    k := ProjectionSpec(ts, j).1;
    var path;
    path, m := AfterProjectionAccepted(ts, k, projection);
    st := AST.Select(projection, path, Wrappers.None);
  }

  /** The `UnexpectedEOF` at the end of `expect_select_statement` cannot be
      reached: a parsed path is always followed by a token. */
  lemma StatementEndNotAtEOF(ts: seq<Token>, l: nat, projection: Projection)
    requires l <= |ts| && PathSpec(ts, l).0.Ok?
    ensures var (path, m) := PathSpec(ts, l);
            StatementEnd(ts, m, projection, path.value).0 != Err(UnexpectedEOF)
  {
    var _, _ := PathParsed(ts, l);
  }

  // ---------------------------------------------------------------------
  // Errors

  /** The error conventions of the routines: end of input is reported
      having consumed everything, and an unexpected token is the last token
      consumed. */
  ghost predicate ReportsLastRead<T>(ts: seq<Token>, i: nat, r: (Outcome<T>, nat)) {
    (r.0 == Err(UnexpectedEOF) ==> r.1 == |ts|) &&
    (r.0.Err? && r.0.error.UnexpectedToken? ==> i < r.1 <= |ts| && ts[r.1 - 1] == r.0.error.token)
  }

  /** `expect_token_type` succeeds exactly on a token of the asked kind; at
      end of input it reports UnexpectedEOF, and otherwise the token it
      consumed. */
  lemma TokenTypeErrors(ts: seq<Token>, i: nat, kind: TokenKind)
    requires i <= |ts|
    ensures var r := TokenTypeSpec(ts, i, kind);
            (r.0.Ok? <==> i < |ts| && ts[i].Kind() == kind) &&
            (r.0 == Err(UnexpectedEOF) <==> i == |ts|) &&
            !r.0.Unimplemented? && ReportsLastRead(ts, i, r)
  {
  }

  lemma EntityErrors(ts: seq<Token>, i: nat)
    requires i <= |ts|
    ensures !EntitySpec(ts, i).0.Unimplemented? && ReportsLastRead(ts, i, EntitySpec(ts, i))
  {
    TokenTypeErrors(ts, i, TokenKind.Identifier);
    if i < |ts| && ts[i].Identifier? && i + 1 < |ts| && ts[i + 1] == Token.Colon {
      TokenTypeErrors(ts, i + 2, TokenKind.Identifier);
    }
  }

  lemma {:induction false} PathLoopErrors(ts: seq<Token>, j: nat, source: EntityDescription,
                                           done: seq<EntityDescription>)
    requires j <= |ts|
    ensures !PathLoop(ts, j, source, done).0.Unimplemented?
    ensures ReportsLastRead(ts, j, PathLoop(ts, j, source, done))
    decreases |ts| - j
  {
    if j < |ts| && ts[j] == Token.ArrowRight {
      EntityErrors(ts, j + 1);
      if EntitySpec(ts, j + 1).0.Ok? {
        PathLoopErrors(ts, EntitySpec(ts, j + 1).1, source, done + [EntitySpec(ts, j + 1).0.value]);
      }
    }
  }

  lemma PathErrors(ts: seq<Token>, i: nat)
    requires i <= |ts|
    ensures !PathSpec(ts, i).0.Unimplemented? && ReportsLastRead(ts, i, PathSpec(ts, i))
  {
    EntityErrors(ts, i);
    if EntitySpec(ts, i).0.Ok? {
      PathLoopErrors(ts, EntitySpec(ts, i).1, EntitySpec(ts, i).0.value, []);
    }
  }

  lemma {:induction false} FieldsLoopErrors(ts: seq<Token>, j: nat, fields: seq<string>)
    requires j <= |ts|
    ensures var r := FieldsLoop(ts, j, fields);
            !r.0.Unimplemented? && !(r.0.Err? && r.0.error.UnexpectedToken?) &&
            (r.0 == Err(UnexpectedEOF) ==> r.1 == |ts|)
    decreases |ts| - j
  {
    if j < |ts| && ts[j].Identifier? {
      var next := FieldsRound(ts, j, fields);
      FieldsLoopErrors(ts, next, fields + [ts[j].name]);
    }
  }

  /** The projection never reports a token: a bad first token is
      InvalidProjection, and running out of tokens is UnexpectedEOF. */
  lemma ProjectionErrors(ts: seq<Token>, i: nat)
    requires i <= |ts|
    ensures var r := ProjectionSpec(ts, i);
            !r.0.Unimplemented? && !(r.0.Err? && r.0.error.UnexpectedToken?) &&
            (r.0 == Err(UnexpectedEOF) ==> r.1 == |ts|)
  {
    FieldsLoopErrors(ts, i, []);
  }

  lemma StatementEndErrors(ts: seq<Token>, m: nat, projection: Projection, path: PathExpression)
    requires m <= |ts|
    ensures var r := StatementEnd(ts, m, projection, path);
            r.0.Err? ==> r.0.error == UnexpectedEOF && r.1 == |ts|
  {
  }

  lemma AfterProjectionErrors(ts: seq<Token>, k: nat, projection: Projection)
    requires k <= |ts|
    ensures ReportsLastRead(ts, k, SelectAfterProjection(ts, k, projection))
  {
    TokenTypeErrors(ts, k, TokenKind.From);
    if TokenTypeSpec(ts, k, TokenKind.From).0.Ok? {
      var l := k + 1;
      AfterFromErrors(ts, l, projection);
    }
  }

  lemma AfterFromErrors(ts: seq<Token>, l: nat, projection: Projection)
    requires l <= |ts|
    ensures ReportsLastRead(ts, l, SelectAfterFrom(ts, l, projection))
  {
    PathErrors(ts, l);
    if PathSpec(ts, l).0.Ok? {
      StatementEndErrors(ts, PathSpec(ts, l).1, projection, PathSpec(ts, l).0.value);
    }
  }

  lemma AfterKeywordErrors(ts: seq<Token>, j: nat)
    requires j <= |ts|
    ensures ReportsLastRead(ts, j, SelectAfterKeyword(ts, j))
  {
    ProjectionErrors(ts, j);
    if ProjectionSpec(ts, j).0.Ok? {
      AfterProjectionErrors(ts, ProjectionSpec(ts, j).1, ProjectionSpec(ts, j).0.value);
    }
  }

  /** A select statement reports UnexpectedEOF only at the end of input,
      and an unexpected token is always the last one it consumed. */
  lemma SelectErrors(ts: seq<Token>, i: nat)
    requires i <= |ts|
    ensures ReportsLastRead(ts, i, SelectSpec(ts, i))
  {
    TokenTypeErrors(ts, i, TokenKind.Select);
    if TokenTypeSpec(ts, i, TokenKind.Select).0.Ok? {
      AfterKeywordErrors(ts, i + 1);
    }
  }

  // ---------------------------------------------------------------------
  // Parse

  /** `parse` looks at the first token only to choose a statement: select
      is parsed, create and link are unimplemented, and any other first
      token is reported without being consumed. */
  lemma ParseDispatch(ts: seq<Token>)
    ensures ts == [] ==> ParseSpec(ts, 0) == (Err(UnexpectedEOF), 0)
    ensures ts != [] && ts[0] == Token.Select ==> ParseSpec(ts, 0) == SelectSpec(ts, 0)
    ensures ts != [] && ts[0] == Token.Create ==> ParseSpec(ts, 0) == (Unimplemented(CreateStatement), 0)
    ensures ts != [] && ts[0] == Token.Link ==> ParseSpec(ts, 0) == (Unimplemented(LinkStatement), 0)
    ensures ts != [] && ts[0] != Token.Select && ts[0] != Token.Create && ts[0] != Token.Link ==>
              ParseSpec(ts, 0) == (Err(UnexpectedToken(ts[0])), 0)
  {
  }

  /** The token `parse` reports is either the first one, which it did not
      consume, or the last one it consumed; UnexpectedEOF means the input
      was used up. */
  lemma ParseErrors(ts: seq<Token>, i: nat)
    requires i <= |ts|
    ensures var r := ParseSpec(ts, i);
            (r.0 == Err(UnexpectedEOF) ==> r.1 == |ts|) &&
            (r.0.Err? && r.0.error.UnexpectedToken? ==>
               i < |ts| && ((r.1 == i && ts[i] == r.0.error.token) ||
                            (i < r.1 && ts[r.1 - 1] == r.0.error.token)))
  {
    if i < |ts| && ts[i] == Token.Select {
      SelectErrors(ts, i);
    }
  }

  /** Every statement `parse` accepts is a `select` statement as described
      by SelectAccepted. */
  lemma ParseAccepted(ts: seq<Token>)
    requires ParseSpec(ts, 0).0.Ok?
    ensures ts != [] && ts[0] == Token.Select && ParseSpec(ts, 0) == SelectSpec(ts, 0)
    ensures ParseSpec(ts, 0).0.value.filter == Wrappers.None
  {
    var _, _, _ := SelectAccepted(ts, 0);
  }
}
