/** `parse_spdx`: the token loop and the three mutually recursive closures over one
    cursor. */
module SpdxParser {
  import opened Options
  import opened SpdxText
  import opened Spdx
  import opened SpdxCanonical

  class Parser {
    const tokens: seq<string>
    var cursor: nat

    constructor (tokens: seq<string>)
      ensures this.tokens == tokens && cursor == 0
    {
      this.tokens, cursor := tokens, 0;
    }

    method Primary() returns (r: Result<string>, ghost tree: Expr)
      requires cursor <= |tokens|
      modifies this`cursor
      ensures match ParsePrimary(tokens, old(cursor))
              case Err(error) => r == Failure(error)
              case Ok(e, d) => r == Success(Print(e)) && tree == e && cursor == d
      decreases |tokens| - cursor, 0
    {
      tree := Id("");
      if cursor == |tokens| {
        r := Failure(Malformed);
        return;
      }
      if tokens[cursor] == "(" {
        cursor := cursor + 1;
        var value;
        value, tree := Disjunction();
        if value.Failure? {
          r := value;
          return;
        }
        if cursor == |tokens| || tokens[cursor] != ")" {
          r := Failure(Malformed);
          return;
        }
        cursor := cursor + 1;
        tree := Group(tree);
        r := Success("(" + value.value + ")");
        return;
      }
      var identifier := tokens[cursor];
      if Is(identifier, "AND") || Is(identifier, "OR") || Is(identifier, "WITH") || identifier == ")" {
        r := Failure(Malformed);
        return;
      }
      cursor := cursor + 1;
      if identifier !in APPROVED {
        r := Failure(NotApproved);
        return;
      }
      if cursor < |tokens| && Is(tokens[cursor], "WITH") {
        cursor := cursor + 1;
        r := Failure(if cursor == |tokens| then MalformedException else ExceptionUsed);
        return;
      }
      tree := Id(identifier);
      r := Success(identifier);
    }

    method Conjunction() returns (r: Result<string>, ghost tree: Expr)
      requires cursor <= |tokens|
      modifies this`cursor
      ensures match ParseConjunction(tokens, old(cursor))
              case Err(error) => r == Failure(error)
              case Ok(e, d) => r == Success(Print(e)) && tree == e && cursor == d
      decreases |tokens| - cursor, 1
    {
      hide ParsePrimary, UpperAll;
      r, tree := Primary();
      if r.Failure? {
        return;
      }
      while cursor < |tokens| && Is(tokens[cursor], "AND")
        invariant old(cursor) < cursor <= |tokens|
        invariant r == Success(Print(tree))
        invariant ParseConjunction(tokens, old(cursor)) == MoreAnds(tokens, tree, cursor)
        decreases |tokens| - cursor
      {
        cursor := cursor + 1;
        var right;
        ghost var rightTree;
        right, rightTree := Primary();
        if right.Failure? {
          r := right;
          return;
        }
        r := Success(r.value + " AND " + right.value);
        tree := And(tree, rightTree);
      }
    }

    method Disjunction() returns (r: Result<string>, ghost tree: Expr)
      requires cursor <= |tokens|
      modifies this`cursor
      ensures match ParseDisjunction(tokens, old(cursor))
              case Err(error) => r == Failure(error)
              case Ok(e, d) => r == Success(Print(e)) && tree == e && cursor == d
      decreases |tokens| - cursor, 3
    {
      hide ParsePrimary, UpperAll, ParseConjunction;
      r, tree := Conjunction();
      if r.Failure? {
        return;
      }
      while cursor < |tokens| && Is(tokens[cursor], "OR")
        invariant old(cursor) < cursor <= |tokens|
        invariant r == Success(Print(tree))
        invariant ParseDisjunction(tokens, old(cursor)) == MoreOrs(tokens, tree, cursor)
        decreases |tokens| - cursor
      {
        cursor := cursor + 1;
        var right;
        ghost var rightTree;
        right, rightTree := Conjunction();
        if right.Failure? {
          r := right;
          return;
        }
        r := Success(r.value + " OR " + right.value);
        tree := Or(tree, rightTree);
      }
    }
  }

  function Prepend(found: seq<string>, more: Option<seq<string>>): Option<seq<string>> {
    match more case Some(rest) => Some(found + rest) case None => None
  }

  lemma PrependOne(found: seq<string>, token: string, more: Option<seq<string>>)
    ensures Prepend(found, Prepend([token], more)) == Prepend(found + [token], more)
    ensures Prepend([], more) == more
  {
    if more.Some? {
      assert found + ([token] + more.value) == found + [token] + more.value;
      assert [] + more.value == more.value;
    }
  }

  /** The token loop. */
  method Tokenise(expression: string) returns (tokens: Option<seq<string>>)
    ensures tokens == Tokens(expression)
  {
    var rest := expression;
    var found: seq<string> := [];
    PrependOne([], "", Tokens(rest));
    while rest != ""
      invariant Tokens(expression) == Prepend(found, Tokens(rest))
      decreases |rest|
    {
      var t := SkipSpace(rest);
      SkipSpaceShortens(rest);
      var n := TokenLength(t);
      if n == 0 {
        return None;
      }
      TokensStep(rest, t, n);
      PrependOne(found, t[..n], Tokens(t[n..]));
      found := found + [t[..n]];
      rest := t[n..];
    }
    assert found + [] == found;
    tokens := Some(found);
  }

  /** The canonical text of an accepted expression, or why it is refused. */
  method ParseSpdx(expression: string) returns (r: Result<string>)
    ensures match ParseText(expression)
            case Failure(error) => r == Failure(error)
            case Success(e) => r == Success(Print(e))
  {
    var tokens := Tokenise(expression);
    if tokens.None? {
      return Failure(Malformed);
    }
    if tokens.value == [] {
      return Failure(Empty);
    }
    var parser := new Parser(tokens.value);
    ghost var tree;
    r, tree := parser.Disjunction();
    if r.Success? && parser.cursor != |tokens.value| {
      r := Failure(Malformed);
    }
  }
}
