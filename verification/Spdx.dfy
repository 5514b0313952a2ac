/** The licence expression grammar, its recursive-descent parser and the canonical
    text. */
module Spdx {
  import opened Options
  import opened SpdxText

  datatype Expr = Id(name: string) | Group(inner: Expr) | And(left: Expr, right: Expr) | Or(left: Expr, right: Expr)

  datatype SpdxError = Empty | Malformed | NotApproved | ExceptionUsed | MalformedException

  datatype Parsed = Ok(tree: Expr, next: nat) | Err(error: SpdxError)

  datatype Result<+T> = Success(value: T) | Failure(error: SpdxError)

  const APPROVED: set<string> := {"MIT", "Apache-2.0", "BSD-2-Clause", "BSD-3-Clause", "ISC"}

  // ---- the grammar: AND binds tighter than OR, both to the left ----

  predicate IsPrimary(e: Expr)
    decreases e, 0
  {
    match e
    case Id(name) => name in APPROVED
    case Group(inner) => IsDisjunction(inner)
    case _ => false
  }

  predicate IsConjunction(e: Expr)
    decreases e, 1
  {
    if e.And? then IsConjunction(e.left) && IsPrimary(e.right) else IsPrimary(e)
  }

  predicate IsDisjunction(e: Expr)
    decreases e, 2
  {
    if e.Or? then IsDisjunction(e.left) && IsConjunction(e.right) else IsConjunction(e)
  }

  predicate Is(token: string, keyword: string) { UpperAll(token) == keyword }

  /** The tokens from c up to d spell the tree, keywords in any case. */
  ghost predicate Spells(e: Expr, t: seq<string>, c: nat, d: nat) {
    c < d <= |t| &&
    match e
    case Id(name) => d == c + 1 && t[c] == name
    case Group(inner) => c + 2 < d && t[c] == "(" && t[d - 1] == ")" && Spells(inner, t, c + 1, d - 1)
    case And(l, r) => exists k: nat :: c < k < d && Is(t[k], "AND") && Spells(l, t, c, k) && Spells(r, t, k + 1, d)
    case Or(l, r) => exists k: nat :: c < k < d && Is(t[k], "OR") && Spells(l, t, c, k) && Spells(r, t, k + 1, d)
  }

  // ---- the parser on values ----

  predicate AtKeyword(t: seq<string>, c: nat, keyword: string) { c < |t| && Is(t[c], keyword) }

  function ParsePrimary(t: seq<string>, c: nat): (p: Parsed)
    requires c <= |t|
    ensures p.Ok? ==> c < p.next <= |t|
    decreases |t| - c, 0
  {
    if c == |t| then Err(Malformed)
    else if t[c] == "(" then
      match ParseDisjunction(t, c + 1)
      case Err(error) => Err(error)
      case Ok(e, d) => if d == |t| || t[d] != ")" then Err(Malformed) else Ok(Group(e), d + 1)
    else if Is(t[c], "AND") || Is(t[c], "OR") || Is(t[c], "WITH") || t[c] == ")" then Err(Malformed)
    else if t[c] !in APPROVED then Err(NotApproved)
    else if AtKeyword(t, c + 1, "WITH") then Err(if c + 2 == |t| then MalformedException else ExceptionUsed)
    else Ok(Id(t[c]), c + 1)
  }

  function ParseConjunction(t: seq<string>, c: nat): (p: Parsed)
    requires c <= |t|
    ensures p.Ok? ==> c < p.next <= |t|
    decreases |t| - c, 1
  {
    match ParsePrimary(t, c)
    case Err(error) => Err(error)
    case Ok(e, d) => MoreAnds(t, e, d)
  }

  function MoreAnds(t: seq<string>, acc: Expr, d: nat): (p: Parsed)
    requires d <= |t|
    ensures p.Ok? ==> d <= p.next <= |t|
    decreases |t| - d, 2
  {
    if AtKeyword(t, d, "AND") then
      match ParsePrimary(t, d + 1)
      case Err(error) => Err(error)
      case Ok(e, d') => MoreAnds(t, And(acc, e), d')
    else Ok(acc, d)
  }

  function ParseDisjunction(t: seq<string>, c: nat): (p: Parsed)
    requires c <= |t|
    ensures p.Ok? ==> c < p.next <= |t|
    decreases |t| - c, 3
  {
    match ParseConjunction(t, c)
    case Err(error) => Err(error)
    case Ok(e, d) => MoreOrs(t, e, d)
  }

  function MoreOrs(t: seq<string>, acc: Expr, d: nat): (p: Parsed)
    requires d <= |t|
    ensures p.Ok? ==> d <= p.next <= |t|
    decreases |t| - d, 4
  {
    if AtKeyword(t, d, "OR") then
      match ParseConjunction(t, d + 1)
      case Err(error) => Err(error)
      case Ok(e, d') => MoreOrs(t, Or(acc, e), d')
    else Ok(acc, d)
  }

  function ParseTokens(t: seq<string>): Result<Expr> {
    if t == [] then Failure(Empty)
    else
      match ParseDisjunction(t, 0)
      case Err(error) => Failure(error)
      case Ok(e, d) => if d == |t| then Success(e) else Failure(Malformed)
  }

  function ParseText(s: string): Result<Expr> {
    match Tokens(s)
    case None => Failure(Malformed)
    case Some(t) => ParseTokens(t)
  }

  // ---- accepted means in the grammar ----

  lemma {:induction false} PrimarySound(t: seq<string>, c: nat)
    requires c <= |t| && ParsePrimary(t, c).Ok?
    ensures var p := ParsePrimary(t, c); IsPrimary(p.tree) && Spells(p.tree, t, c, p.next)
    decreases |t| - c, 0
  {
    if t[c] == "(" {
      DisjunctionSound(t, c + 1);
    }
  }

  lemma {:induction false} ConjunctionSound(t: seq<string>, c: nat)
    requires c <= |t| && ParseConjunction(t, c).Ok?
    ensures var p := ParseConjunction(t, c); IsConjunction(p.tree) && Spells(p.tree, t, c, p.next)
    decreases |t| - c, 1
  {
    PrimarySound(t, c);
    var p := ParsePrimary(t, c);
    MoreAndsSound(t, c, p.tree, p.next);
  }

  lemma {:induction false} MoreAndsSound(t: seq<string>, c: nat, acc: Expr, d: nat)
    requires c < d <= |t| && MoreAnds(t, acc, d).Ok? && IsConjunction(acc) && Spells(acc, t, c, d)
    ensures var p := MoreAnds(t, acc, d); IsConjunction(p.tree) && Spells(p.tree, t, c, p.next)
    decreases |t| - d, 2
  {
    if AtKeyword(t, d, "AND") {
      PrimarySound(t, d + 1);
      var p := ParsePrimary(t, d + 1);
      assert Spells(And(acc, p.tree), t, c, p.next);
      MoreAndsSound(t, c, And(acc, p.tree), p.next);
    }
  }

  lemma {:induction false} DisjunctionSound(t: seq<string>, c: nat)
    requires c <= |t| && ParseDisjunction(t, c).Ok?
    ensures var p := ParseDisjunction(t, c); IsDisjunction(p.tree) && Spells(p.tree, t, c, p.next)
    decreases |t| - c, 3
  {
    ConjunctionSound(t, c);
    var p := ParseConjunction(t, c);
    MoreOrsSound(t, c, p.tree, p.next);
  }

  lemma {:induction false} MoreOrsSound(t: seq<string>, c: nat, acc: Expr, d: nat)
    requires c < d <= |t| && MoreOrs(t, acc, d).Ok? && IsDisjunction(acc) && Spells(acc, t, c, d)
    ensures var p := MoreOrs(t, acc, d); IsDisjunction(p.tree) && Spells(p.tree, t, c, p.next)
    decreases |t| - d, 4
  {
    if AtKeyword(t, d, "OR") {
      ConjunctionSound(t, d + 1);
      var p := ParseConjunction(t, d + 1);
      assert Spells(Or(acc, p.tree), t, c, p.next);
      MoreOrsSound(t, c, Or(acc, p.tree), p.next);
    }
  }

  // ---- in the grammar means accepted ----

  lemma ApprovedAreNoKeywords(name: string)
    requires name in APPROVED
    ensures name != "(" && name != ")" && !Is(name, "AND") && !Is(name, "OR") && !Is(name, "WITH")
  {
    assert |UpperAll(name)| == |name|;
    if |name| == 3 {
      assert UpperAll(name)[0] == Upper(name[0]) && UpperAll(name)[0] != 'A';
    }
  }

  lemma ParensAreNoKeywords(keyword: string)
    requires keyword == "AND" || keyword == "OR" || keyword == "WITH"
    ensures !Is("(", keyword) && !Is(")", keyword)
  {
    assert |UpperAll("(")| == 1 && |UpperAll(")")| == 1;
  }

  /** A spelled primary is parsed to itself, unless a WITH follows it. */
  lemma {:induction false} PrimaryComplete(e: Expr, t: seq<string>, c: nat, d: nat)
    requires IsPrimary(e) && Spells(e, t, c, d) && !AtKeyword(t, d, "WITH")
    ensures ParsePrimary(t, c) == Ok(e, d)
    decreases e, 0
  {
    match e {
      case Id(name) => ApprovedAreNoKeywords(name);
      case Group(inner) =>
        ParensAreNoKeywords("AND");
        ParensAreNoKeywords("OR");
        ParensAreNoKeywords("WITH");
        DisjunctionComplete(inner, t, c + 1, d - 1);
        assert !AtKeyword(t, d - 1, "OR");
        assert MoreOrs(t, inner, d - 1) == Ok(inner, d - 1);
    }
  }

  /** After a spelled conjunction the parser is where it would be had it just read
      that tree. */
  lemma {:induction false} ConjunctionComplete(e: Expr, t: seq<string>, c: nat, d: nat)
    requires IsConjunction(e) && Spells(e, t, c, d) && !AtKeyword(t, d, "WITH")
    ensures ParseConjunction(t, c) == MoreAnds(t, e, d)
    decreases e, 1
  {
    if e.And? {
      var k: nat :| c < k < d && Is(t[k], "AND") && Spells(e.left, t, c, k) && Spells(e.right, t, k + 1, d);
      ConjunctionComplete(e.left, t, c, k);
      PrimaryComplete(e.right, t, k + 1, d);
    } else {
      PrimaryComplete(e, t, c, d);
    }
  }

  lemma {:induction false} DisjunctionComplete(e: Expr, t: seq<string>, c: nat, d: nat)
    requires IsDisjunction(e) && Spells(e, t, c, d) && !AtKeyword(t, d, "WITH") && !AtKeyword(t, d, "AND")
    ensures ParseDisjunction(t, c) == MoreOrs(t, e, d)
    decreases e, 2
  {
    if e.Or? {
      var k: nat :| c < k < d && Is(t[k], "OR") && Spells(e.left, t, c, k) && Spells(e.right, t, k + 1, d);
      DisjunctionComplete(e.left, t, c, k);
      ConjunctionComplete(e.right, t, k + 1, d);
    } else {
      ConjunctionComplete(e, t, c, d);
    }
  }

  /** The parser accepts exactly the token lists that the grammar spells, and finds
      the one tree they spell. */
  lemma ParsesIff(t: seq<string>, e: Expr)
    ensures ParseTokens(t) == Success(e) <==> IsDisjunction(e) && Spells(e, t, 0, |t|)
  {
    if ParseTokens(t) == Success(e) {
      DisjunctionSound(t, 0);
    }
    if IsDisjunction(e) && Spells(e, t, 0, |t|) {
      DisjunctionComplete(e, t, 0, |t|);
    }
  }

  lemma OneTree(t: seq<string>, a: Expr, b: Expr)
    requires IsDisjunction(a) && Spells(a, t, 0, |t|) && IsDisjunction(b) && Spells(b, t, 0, |t|)
    ensures a == b
  {
    ParsesIff(t, a);
    ParsesIff(t, b);
  }

  // ---- why a text is refused ----

  /** What the parser says of a primary that is none: nothing there, a keyword in any
      case or a closing bracket is malformed; another identifier is not approved; and
      an approved one before WITH asks for an exception, complete or not. */
  lemma PrimaryRefusals(t: seq<string>, c: nat)
    requires c <= |t|
    ensures c == |t| ==> ParsePrimary(t, c) == Err(Malformed)
    ensures c < |t| && (UpperAll(t[c]) in {"AND", "OR", "WITH"} || t[c] == ")") ==> ParsePrimary(t, c) == Err(Malformed)
    ensures c < |t| && UpperAll(t[c]) !in {"AND", "OR", "WITH"} && t[c] !in {"(", ")"} ==>
              && (t[c] !in APPROVED <==> ParsePrimary(t, c) == Err(NotApproved))
              && (t[c] in APPROVED && c + 1 < |t| && UpperAll(t[c + 1]) == "WITH" ==>
                    ParsePrimary(t, c) == if c + 2 == |t| then Err(MalformedException) else Err(ExceptionUsed))
              && (t[c] in APPROVED && (c + 1 == |t| || UpperAll(t[c + 1]) != "WITH") ==>
                    ParsePrimary(t, c) == Ok(Id(t[c]), c + 1))
  {
    assert UpperAll("(")[0] == '(' && "AND"[0] == 'A' && "OR"[0] == 'O' && "WITH"[0] == 'W';
  }

  /** An empty text, trailing tokens and an open bracket. */
  lemma ExpressionRefusals(t: seq<string>)
    ensures t == [] <==> ParseTokens(t) == Failure(Empty)
    ensures t != [] && ParseDisjunction(t, 0).Ok? && ParseDisjunction(t, 0).next < |t| ==>
            ParseTokens(t) == Failure(Malformed)
    ensures t != [] && t[0] == "(" && ParseDisjunction(t, 1).Ok? && ParseDisjunction(t, 1).next == |t| ==>
              ParsePrimary(t, 0) == Err(Malformed)
  {
    NotEmptyError(t);
  }

  lemma NotEmptyError(t: seq<string>)
    ensures t != [] ==> ParseDisjunction(t, 0) != Err(Empty)
  {
    if t != [] {
      NeverEmpty(t, 0);
    }
  }

  /** Only a text without tokens is called empty. */
  lemma {:induction false} NeverEmpty(t: seq<string>, c: nat)
    requires c <= |t|
    ensures ParsePrimary(t, c) != Err(Empty) && ParseConjunction(t, c) != Err(Empty)
            && ParseDisjunction(t, c) != Err(Empty)
    decreases |t| - c, 3
  {
    PrimaryNeverEmpty(t, c);
    var p := ParsePrimary(t, c);
    if p.Ok? {
      AndsNeverEmpty(t, p.tree, p.next);
    }
    var q := ParseConjunction(t, c);
    if q.Ok? {
      OrsNeverEmpty(t, q.tree, q.next);
    }
  }

  lemma {:induction false} PrimaryNeverEmpty(t: seq<string>, c: nat)
    requires c <= |t|
    ensures ParsePrimary(t, c) != Err(Empty)
    decreases |t| - c, 0
  {
    if c < |t| && t[c] == "(" {
      NeverEmpty(t, c + 1);
    }
  }

  lemma {:induction false} AndsNeverEmpty(t: seq<string>, acc: Expr, d: nat)
    requires d <= |t|
    ensures MoreAnds(t, acc, d) != Err(Empty)
    decreases |t| - d, 1
  {
    if AtKeyword(t, d, "AND") {
      PrimaryNeverEmpty(t, d + 1);
      var p := ParsePrimary(t, d + 1);
      if p.Ok? {
        AndsNeverEmpty(t, And(acc, p.tree), p.next);
      }
    }
  }

  lemma {:induction false} OrsNeverEmpty(t: seq<string>, acc: Expr, d: nat)
    requires d <= |t|
    ensures MoreOrs(t, acc, d) != Err(Empty)
    decreases |t| - d, 2
  {
    if AtKeyword(t, d, "OR") {
      NeverEmpty(t, d + 1);
      var p := ParseConjunction(t, d + 1);
      if p.Ok? {
        OrsNeverEmpty(t, Or(acc, p.tree), p.next);
      }
    }
  }
}
