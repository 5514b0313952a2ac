/** The canonical text of an expression, and joining the texts of several files. */
module SpdxCanonical {
  import opened Options
  import opened SpdxText
  import opened Spdx

  function Print(e: Expr): string {
    match e
    case Id(name) => name
    case Group(inner) => "(" + Print(inner) + ")"
    case And(l, r) => Print(l) + " AND " + Print(r)
    case Or(l, r) => Print(l) + " OR " + Print(r)
  }

  function Flat(e: Expr): seq<string> {
    match e
    case Id(name) => [name]
    case Group(inner) => ["("] + Flat(inner) + [")"]
    case And(l, r) => Flat(l) + ["AND"] + Flat(r)
    case Or(l, r) => Flat(l) + ["OR"] + Flat(r)
  }

  /** Approved identifiers at the leaves. */
  predicate Leaves(e: Expr) {
    match e
    case Id(name) => name in APPROVED
    case Group(inner) => Leaves(inner)
    case And(l, r) => Leaves(l) && Leaves(r)
    case Or(l, r) => Leaves(l) && Leaves(r)
  }

  lemma {:induction false} GrammarHasLeaves(e: Expr)
    requires IsDisjunction(e) || IsConjunction(e) || IsPrimary(e)
    ensures Leaves(e)
  {
    assert IsDisjunction(e) && !e.Or? ==> IsConjunction(e);
    assert IsConjunction(e) && !e.And? ==> IsPrimary(e);
    match e
    case Id(_) =>
    case Group(inner) => GrammarHasLeaves(inner);
    case And(l, r) => GrammarHasLeaves(l); GrammarHasLeaves(r);
    case Or(l, r) => GrammarHasLeaves(l); GrammarHasLeaves(r);
  }

  // ---- the canonical text has the canonical tokens ----

  lemma ApprovedIsOneToken(name: string)
    requires name in APPROVED
    ensures Tokens(name) == Some([name]) && name != "" && !Space(name[0])
  {
    hide Tokens, StartsKeyword, APPROVED;
    ApprovedStart(name);
    ApprovedChars(name);
    TokensOfId(name);
  }

  lemma ApprovedChars(name: string)
    requires name in APPROVED
    ensures name != "" && forall i | 0 <= i < |name| :: IdChar(name[i])
  {}

  lemma ApprovedStart(name: string)
    requires name in APPROVED
    ensures !StartsKeyword(name, "AND") && !StartsKeyword(name, "OR") && !StartsKeyword(name, "WITH")
  {
    assert |name| >= 3;
    var two, three := UpperAll(name[..2]), UpperAll(name[..3]);
    assert two[0] == Upper(name[0]) && three[1] == Upper(name[1]);
    assert two[0] != 'O';
    assert three[0] == Upper(name[0]) && (three[0] == 'A' ==> three[1] == 'P');
    if |name| >= 4 {
      assert UpperAll(name[..4])[0] == Upper(name[0]) != 'W';
    }
  }

  lemma {:induction false} PrintTokens(e: Expr)
    requires Leaves(e)
    ensures Tokens(Print(e)) == Some(Flat(e)) && Print(e) != "" && !Space(Print(e)[0])
  {
    hide Tokens, APPROVED;
    match e
    case Id(name) => ApprovedIsOneToken(name);
    case Group(inner) => PrintTokens(inner); TokensInParens(Print(inner));
    case And(l, r) => PrintTokens(l); PrintTokens(r); JoinedTokens(Print(l), "AND", Print(r));
    case Or(l, r) => PrintTokens(l); PrintTokens(r); JoinedTokens(Print(l), "OR", Print(r));
  }

  lemma JoinedTokens(a: string, keyword: string, b: string)
    requires keyword == "AND" || keyword == "OR"
    requires Tokens(a).Some? && Tokens(b).Some? && a != "" && b != "" && !Space(a[0]) && !Space(b[0])
    ensures var joined := a + (if keyword == "AND" then " AND " else " OR ") + b;
            Tokens(joined) == Some(Tokens(a).value + [keyword] + Tokens(b).value) && joined != "" && !Space(joined[0])
  {
    hide Tokens;
    TokensJoined(a, keyword, b);
    assert a + (if keyword == "AND" then " AND " else " OR ") + b == a + " " + keyword + " " + b;
  }

  /** What a stretch of tokens spells does not depend on what is around it. */
  lemma {:induction false} SpellsMoves(e: Expr, t: seq<string>, c: nat, d: nat, u: seq<string>, o: nat)
    requires Spells(e, t, c, d) && o + (d - c) <= |u| && u[o..o + (d - c)] == t[c..d]
    ensures Spells(e, u, o, o + (d - c))
    decreases e, 1
  {
    SameAt(t, c, d, u, o);
    match e {
      case Id(name) =>
      case Group(inner) =>
        SameWithin(t, c, d, u, o, c + 1, d - 1);
        SpellsMoves(inner, t, c + 1, d - 1, u, o + 1);
      case And(l, r) =>
        var k: nat :| c < k < d && Is(t[k], "AND") && Spells(l, t, c, k) && Spells(r, t, k + 1, d);
        SidesMove(e, l, r, t, c, k, d, u, o);
      case Or(l, r) =>
        var k: nat :| c < k < d && Is(t[k], "OR") && Spells(l, t, c, k) && Spells(r, t, k + 1, d);
        SidesMove(e, l, r, t, c, k, d, u, o);
    }
  }

  lemma SidesMove(e: Expr, l: Expr, r: Expr, t: seq<string>, c: nat, k: nat, d: nat, u: seq<string>, o: nat)
    requires (e == And(l, r) || e == Or(l, r)) && c < k < d && Spells(l, t, c, k) && Spells(r, t, k + 1, d)
    requires d <= |t| && o + (d - c) <= |u| && u[o..o + (d - c)] == t[c..d]
    ensures var m: nat := o + (k - c);
            o < m < o + (d - c) && u[m] == t[k] && Spells(l, u, o, m) && Spells(r, u, m + 1, o + (d - c))
    decreases e, 0
  {
    hide Spells;
    SameAt(t, c, d, u, o);
    SameWithin(t, c, d, u, o, c, k);
    SameWithin(t, c, d, u, o, k + 1, d);
    SpellsMoves(l, t, c, k, u, o);
    SpellsMoves(r, t, k + 1, d, u, o + (k + 1 - c));
  }

  lemma SameAt(t: seq<string>, c: nat, d: nat, u: seq<string>, o: nat)
    requires c <= d <= |t| && o + (d - c) <= |u| && u[o..o + (d - c)] == t[c..d]
    ensures forall i | c <= i < d :: u[o + (i - c)] == t[i]
  {
    forall i | c <= i < d ensures u[o + (i - c)] == t[i] {
      assert u[o..o + (d - c)][i - c] == t[c..d][i - c];
    }
  }

  lemma SliceOfSlice<T>(s: seq<T>, lo: nat, hi: nat, i: nat, j: nat)
    requires lo <= hi <= |s| && i <= j <= hi - lo
    ensures s[lo..hi][i..j] == s[lo + i..lo + j]
  {
    var a, b := s[lo..hi][i..j], s[lo + i..lo + j];
    assert |a| == |b|;
    forall k | 0 <= k < |a| ensures a[k] == b[k] {
      assert a[k] == s[lo..hi][i + k] == s[lo + (i + k)] && b[k] == s[lo + i + k];
    }
  }

  lemma SameWithin(t: seq<string>, c: nat, d: nat, u: seq<string>, o: nat, a: nat, b: nat)
    requires c <= a <= b <= d <= |t| && o + (d - c) <= |u| && u[o..o + (d - c)] == t[c..d]
    ensures u[o + (a - c)..o + (b - c)] == t[a..b]
  {
    SliceOfSlice(u, o, o + (d - c), a - c, b - c);
    SliceOfSlice(t, c, d, a - c, b - c);
  }

  lemma {:induction false} FlatSpells(e: Expr)
    requires Leaves(e)
    ensures |Flat(e)| > 0 && Spells(e, Flat(e), 0, |Flat(e)|)
  {
    var t := Flat(e);
    match e
    case Id(name) =>
    case Group(inner) => FlatSpells(inner); GroupSpells(inner, Flat(inner));
    case And(l, r) => FlatSpells(l); FlatSpells(r); BothSpell(l, Flat(l), "AND", r, Flat(r));
    case Or(l, r) => FlatSpells(l); FlatSpells(r); BothSpell(l, Flat(l), "OR", r, Flat(r));
  }

  lemma GroupSpells(e: Expr, a: seq<string>)
    requires Spells(e, a, 0, |a|)
    ensures var t := ["("] + a + [")"]; |a| > 0 && Spells(e, t, 1, |t| - 1)
  {
    hide Spells;
    var t := ["("] + a + [")"];
    assert t[1..1 + |a|] == a == a[0..|a|];
    SpellsNonEmpty(e, a, 0, |a|);
    SpellsMoves(e, a, 0, |a|, t, 1);
  }

  lemma SpellsNonEmpty(e: Expr, t: seq<string>, c: nat, d: nat)
    requires Spells(e, t, c, d)
    ensures c < d <= |t|
  {}

  lemma BothSpell(l: Expr, a: seq<string>, keyword: string, r: Expr, b: seq<string>)
    requires Spells(l, a, 0, |a|) && Spells(r, b, 0, |b|) && (keyword == "AND" || keyword == "OR")
    ensures var t := a + [keyword] + b;
            0 < |a| < |t| && Is(t[|a|], keyword) && Spells(l, t, 0, |a|) && Spells(r, t, |a| + 1, |t|)
  {
    hide Spells;
    var t := a + [keyword] + b;
    assert t[0..|a|] == a == a[0..|a|];
    assert t[|a| + 1..|t|] == b == b[0..|b|];
    SpellsNonEmpty(l, a, 0, |a|);
    SpellsMoves(l, a, 0, |a|, t, 0);
    SpellsMoves(r, b, 0, |b|, t, |a| + 1);
    assert UpperAll(keyword) == keyword;
  }

  /** Every tree of the grammar is what its canonical text parses to. */
  lemma CanonicalReparses(e: Expr)
    requires IsDisjunction(e)
    ensures ParseText(Print(e)) == Success(e)
  {
    hide Tokens, ParseTokens, Spells, IsDisjunction;
    GrammarHasLeaves(e);
    PrintTokens(e);
    FlatSpells(e);
    ParsesIff(Flat(e), e);
  }

  /** The canonical text of an accepted expression is accepted, means the same tree
      and is its own canonical text. */
  lemma CanonicalIsFixed(s: string)
    requires ParseText(s).Success?
    ensures ParseText(Print(ParseText(s).value)) == ParseText(s)
  {
    hide Spells;
    var t := Tokens(s).value;
    ParsesIff(t, ParseText(s).value);
    CanonicalReparses(ParseText(s).value);
  }

  // ---- what an expression grants ----

  /** Whether accepting the given licences satisfies the expression. */
  predicate Grants(e: Expr, accepted: set<string>) {
    match e
    case Id(name) => name in accepted
    case Group(inner) => Grants(inner, accepted)
    case And(l, r) => Grants(l, accepted) && Grants(r, accepted)
    case Or(l, r) => Grants(l, accepted) || Grants(r, accepted)
  }

  // ---- " AND ".join ----

  function JoinTexts(texts: seq<string>): string
    requires texts != []
  {
    if |texts| == 1 then texts[0] else JoinTexts(texts[..|texts| - 1]) + " AND " + texts[|texts| - 1]
  }

  /** Where a conjunction lands when its text is put after another's. */
  function AndOnto(acc: Expr, e: Expr): Expr {
    if e.And? then And(AndOnto(acc, e.left), e.right) else And(acc, e)
  }

  /** The tree of two texts with AND between them: AND binds the last conjunction
      of the first to the first conjunction of the second. */
  function Onto(acc: Expr, e: Expr): Expr
    decreases e, acc
  {
    if e.Or? then Or(Onto(acc, e.left), e.right)
    else if acc.Or? then Or(acc.left, AndOnto(acc.right, e))
    else AndOnto(acc, e)
  }

  lemma {:induction false} AndOntoPrints(acc: Expr, e: Expr)
    requires IsConjunction(acc) && IsConjunction(e)
    ensures IsConjunction(AndOnto(acc, e)) && Print(AndOnto(acc, e)) == Print(acc) + " AND " + Print(e)
    ensures forall accepted :: Grants(AndOnto(acc, e), accepted) <==> Grants(acc, accepted) && Grants(e, accepted)
  {
    if e.And? {
      AndOntoPrints(acc, e.left);
      assert Print(acc) + " AND " + Print(e.left) + " AND " + Print(e.right)
          == Print(acc) + " AND " + (Print(e.left) + " AND " + Print(e.right));
    }
  }

  lemma {:induction false} OntoPrints(acc: Expr, e: Expr)
    requires IsDisjunction(acc) && IsDisjunction(e)
    ensures IsDisjunction(Onto(acc, e)) && Print(Onto(acc, e)) == Print(acc) + " AND " + Print(e)
    ensures Onto(acc, e).Or? <==> acc.Or? || e.Or?
    decreases e
  {
    if e.Or? {
      OntoPrints(acc, e.left);
      assert Print(acc) + " AND " + Print(e.left) + " OR " + Print(e.right)
          == Print(acc) + " AND " + (Print(e.left) + " OR " + Print(e.right));
    } else if acc.Or? {
      AndOntoPrints(acc.right, e);
      assert Print(acc.left) + " OR " + (Print(acc.right) + " AND " + Print(e))
          == Print(acc.left) + " OR " + Print(acc.right) + " AND " + Print(e);
    } else {
      AndOntoPrints(acc, e);
    }
  }

  function OntoAll(parts: seq<Expr>): Expr
    requires parts != []
  {
    if |parts| == 1 then parts[0] else Onto(OntoAll(parts[..|parts| - 1]), parts[|parts| - 1])
  }

  function Prints(parts: seq<Expr>): seq<string> {
    seq(|parts|, i requires 0 <= i < |parts| => Print(parts[i]))
  }

  lemma {:induction false} OntoAllPrints(parts: seq<Expr>)
    requires parts != [] && forall i | 0 <= i < |parts| :: IsDisjunction(parts[i])
    ensures IsDisjunction(OntoAll(parts)) && Print(OntoAll(parts)) == JoinTexts(Prints(parts))
    ensures OntoAll(parts).Or? <==> exists i :: 0 <= i < |parts| && parts[i].Or?
  {
    if |parts| > 1 {
      var front, last := parts[..|parts| - 1], parts[|parts| - 1];
      OntoAllPrints(front);
      OntoPrints(OntoAll(front), last);
      assert Prints(parts)[..|parts| - 1] == Prints(front);
      if exists i :: 0 <= i < |parts| && parts[i].Or? {
        var i :| 0 <= i < |parts| && parts[i].Or?;
        assert i < |front| ==> front[i].Or?;
      }
    }
  }

  /** The joined text of several files' canonical expressions always parses; it is
      a conjunction exactly when none of them has a top-level OR. */
  lemma JoinIsConjunctionIff(parts: seq<Expr>)
    requires |parts| > 0 && forall i | 0 <= i < |parts| :: IsDisjunction(parts[i])
    ensures ParseText(JoinTexts(Prints(parts))) == Success(OntoAll(parts))
    ensures IsConjunction(OntoAll(parts)) <==> forall i | 0 <= i < |parts| :: !parts[i].Or?
  {
    hide ParseText, Print, OntoAll, IsDisjunction, IsConjunction, JoinTexts;
    OntoAllPrints(parts);
    CanonicalReparses(OntoAll(parts));
    ConjunctionIff(OntoAll(parts));
  }

  lemma ConjunctionIff(e: Expr)
    requires IsDisjunction(e)
    ensures IsConjunction(e) <==> !e.Or?
  {}

  lemma {:induction false} OntoAllGrants(parts: seq<Expr>, accepted: set<string>)
    requires |parts| > 0 && forall i | 0 <= i < |parts| :: IsDisjunction(parts[i]) && !parts[i].Or?
    ensures Grants(OntoAll(parts), accepted) <==> forall i | 0 <= i < |parts| :: Grants(parts[i], accepted)
  {
    if |parts| > 1 {
      hide Grants, IsDisjunction, IsConjunction, Print;
      var front, last := parts[..|parts| - 1], parts[|parts| - 1];
      OntoAllGrants(front, accepted);
      OntoAllPrints(front);
      ConjunctionIff(OntoAll(front));
      ConjunctionIff(last);
      AndOntoPrints(OntoAll(front), last);
      assert forall i | 0 <= i < |front| :: parts[i] == front[i];
    }
  }

  /** The join asks for all of its parts when there is one part or none of them
      has a top-level OR. */
  lemma JoinGrantsAll(parts: seq<Expr>, accepted: set<string>)
    requires |parts| > 0 && forall i | 0 <= i < |parts| :: IsDisjunction(parts[i])
    requires |parts| == 1 || forall i | 0 <= i < |parts| :: !parts[i].Or?
    ensures ParseText(JoinTexts(Prints(parts))) == Success(OntoAll(parts))
    ensures Grants(OntoAll(parts), accepted) <==> forall i | 0 <= i < |parts| :: Grants(parts[i], accepted)
  {
    hide ParseText, Print, IsDisjunction, IsConjunction, Grants, JoinTexts;
    JoinIsConjunctionIff(parts);
    if |parts| > 1 {
      OntoAllGrants(parts, accepted);
    }
  }

  /** With an OR it may ask for less: a file offering MIT or ISC beside one that is
      Apache-2.0 joins to a text that MIT alone satisfies. */
  lemma JoinCanLoseAPart()
    ensures var parts := [Or(Id("MIT"), Id("ISC")), Id("Apache-2.0")];
            && IsDisjunction(parts[0]) && IsDisjunction(parts[1])
            && ParseText(JoinTexts(Prints(parts))).Success?
            && Grants(ParseText(JoinTexts(Prints(parts))).value, {"MIT"})
            && !Grants(parts[1], {"MIT"})
  {
    var parts := [Or(Id("MIT"), Id("ISC")), Id("Apache-2.0")];
    assert IsPrimary(Id("MIT")) && IsPrimary(Id("ISC")) && IsPrimary(Id("Apache-2.0"));
    assert IsConjunction(Id("MIT")) && IsConjunction(Id("ISC")) && IsConjunction(Id("Apache-2.0"));
    assert IsDisjunction(Id("MIT")) && IsDisjunction(parts[0]) && IsDisjunction(parts[1]);
    JoinIsConjunctionIff(parts);
    assert parts[..1] == [parts[0]];
    assert OntoAll(parts) == Onto(parts[0], parts[1]) == Or(Id("MIT"), And(Id("ISC"), Id("Apache-2.0")));
  }

  // ---- exactly when the join asks for all of its parts ----

  predicate GrantsAll(es: seq<Expr>, accepted: set<string>) { forall e | e in es :: Grants(e, accepted) }

  ghost predicate SomeGranted(groups: seq<seq<Expr>>, accepted: set<string>) {
    exists g :: g in groups && GrantsAll(g, accepted)
  }

  /** The alternatives of a top-level OR. */
  function Branches(e: Expr): (bs: seq<Expr>)
    ensures bs != []
  {
    if e.Or? then Branches(e.left) + [e.right] else [e]
  }

  function Singles(es: seq<Expr>): seq<seq<Expr>> { seq(|es|, i requires 0 <= i < |es| => [es[i]]) }

  /** AND takes the last alternative before it and the first one after it together. */
  function Splice(groups: seq<seq<Expr>>, branches: seq<Expr>): (spliced: seq<seq<Expr>>)
    requires groups != [] && branches != []
    ensures spliced != []
  {
    var last := |groups| - 1;
    groups[..last] + [groups[last] + [branches[0]]] + Singles(branches[1..])
  }

  /** The alternatives of the join, each as the parts' alternatives that it asks
      for together. */
  function JoinBranches(parts: seq<Expr>): (groups: seq<seq<Expr>>)
    requires parts != []
    ensures groups != []
  {
    if |parts| == 1 then Singles(Branches(parts[0]))
    else Splice(JoinBranches(parts[..|parts| - 1]), Branches(parts[|parts| - 1]))
  }

  /** A tree and the groups agree on the last alternative and on the ones before. */
  ghost predicate Matches(e: Expr, groups: seq<seq<Expr>>, accepted: set<string>) {
    && groups != []
    && var last := |groups| - 1;
       if e.Or? then
         && (Grants(e.left, accepted) <==> SomeGranted(groups[..last], accepted))
         && (Grants(e.right, accepted) <==> GrantsAll(groups[last], accepted))
       else last == 0 && (Grants(e, accepted) <==> GrantsAll(groups[0], accepted))
  }

  lemma SomeGrantedSnoc(groups: seq<seq<Expr>>, g: seq<Expr>, accepted: set<string>)
    ensures SomeGranted(groups + [g], accepted) <==> SomeGranted(groups, accepted) || GrantsAll(g, accepted)
  {
    if SomeGranted(groups, accepted) {
      var h :| h in groups && GrantsAll(h, accepted);
      assert h in groups + [g];
    }
    if GrantsAll(g, accepted) {
      assert g in groups + [g];
    }
  }

  lemma MatchesGrants(e: Expr, groups: seq<seq<Expr>>, accepted: set<string>)
    requires Matches(e, groups, accepted)
    ensures Grants(e, accepted) <==> SomeGranted(groups, accepted)
  {
    var last := |groups| - 1;
    assert groups == groups[..last] + [groups[last]];
    SomeGrantedSnoc(groups[..last], groups[last], accepted);
    if last == 0 {
      assert groups[..0] == [];
    }
  }

  lemma MatchesOr(l: Expr, groups: seq<seq<Expr>>, r: Expr, accepted: set<string>)
    requires Matches(l, groups, accepted)
    ensures Matches(Or(l, r), groups + [[r]], accepted)
  {
    MatchesGrants(l, groups, accepted);
    assert (groups + [[r]])[..|groups|] == groups;
  }

  lemma SpliceSnoc(groups: seq<seq<Expr>>, branches: seq<Expr>, r: Expr)
    requires groups != [] && branches != []
    ensures Splice(groups, branches + [r]) == Splice(groups, branches) + [[r]]
  {
    assert (branches + [r])[1..] == branches[1..] + [r];
    assert Singles(branches[1..] + [r]) == Singles(branches[1..]) + [[r]];
  }

  lemma {:induction false} BranchesMatch(e: Expr, accepted: set<string>)
    ensures Matches(e, Singles(Branches(e)), accepted)
  {
    if e.Or? {
      BranchesMatch(e.left, accepted);
      MatchesOr(e.left, Singles(Branches(e.left)), e.right, accepted);
      assert Singles(Branches(e)) == Singles(Branches(e.left)) + [[e.right]];
    }
  }

  lemma {:induction false} OntoMatches(acc: Expr, groups: seq<seq<Expr>>, e: Expr, accepted: set<string>)
    requires IsDisjunction(acc) && IsDisjunction(e) && Matches(acc, groups, accepted)
    ensures Matches(Onto(acc, e), Splice(groups, Branches(e)), accepted)
    decreases e
  {
    if e.Or? {
      OntoMatches(acc, groups, e.left, accepted);
      MatchesOr(Onto(acc, e.left), Splice(groups, Branches(e.left)), e.right, accepted);
      SpliceSnoc(groups, Branches(e.left), e.right);
    } else {
      var last := |groups| - 1;
      AndOntoPrints(if acc.Or? then acc.right else acc, e);
      assert Splice(groups, Branches(e)) == groups[..last] + [groups[last] + [e]];
      assert Splice(groups, Branches(e))[..last] == groups[..last];
      assert GrantsAll(groups[last] + [e], accepted) <==> GrantsAll(groups[last], accepted) && Grants(e, accepted);
    }
  }

  /** What the join asks for: all of some group. */
  lemma {:induction false} JoinAsksForAGroup(parts: seq<Expr>, accepted: set<string>)
    requires |parts| > 0 && forall i | 0 <= i < |parts| :: IsDisjunction(parts[i])
    ensures Matches(OntoAll(parts), JoinBranches(parts), accepted)
    ensures Grants(OntoAll(parts), accepted) <==> SomeGranted(JoinBranches(parts), accepted)
  {
    hide Matches, IsDisjunction, Branches, Singles, Splice, Grants, Print, JoinTexts;
    if |parts| == 1 {
      BranchesMatch(parts[0], accepted);
    } else {
      var front, last := parts[..|parts| - 1], parts[|parts| - 1];
      JoinAsksForAGroup(front, accepted);
      OntoAllPrints(front);
      OntoMatches(OntoAll(front), JoinBranches(front), last, accepted);
    }
    MatchesGrants(OntoAll(parts), JoinBranches(parts), accepted);
  }

  lemma {:induction false} OntoGrants(acc: Expr, e: Expr, accepted: set<string>)
    requires IsDisjunction(acc) && IsDisjunction(e) && Grants(acc, accepted) && Grants(e, accepted)
    ensures Grants(Onto(acc, e), accepted)
    decreases e
  {
    if e.Or? {
      if Grants(e.left, accepted) {
        OntoGrants(acc, e.left, accepted);
      }
    } else {
      AndOntoPrints(if acc.Or? then acc.right else acc, e);
    }
  }

  /** Licences that satisfy every part always satisfy the join: it can only ask for
      less. */
  lemma {:induction false} PartsGrantJoin(parts: seq<Expr>, accepted: set<string>)
    requires |parts| > 0 && forall i | 0 <= i < |parts| :: IsDisjunction(parts[i])
    requires GrantsAll(parts, accepted)
    ensures Grants(OntoAll(parts), accepted)
  {
    hide Grants, IsDisjunction, Print, JoinTexts;
    if |parts| > 1 {
      var front, last := parts[..|parts| - 1], parts[|parts| - 1];
      PartsGrantJoin(front, accepted);
      OntoAllPrints(front);
      OntoGrants(OntoAll(front), last, accepted);
    }
  }

  function Both(a: set<set<string>>, b: set<set<string>>): set<set<string>> {
    set u, v | u in a && v in b :: u + v
  }

  /** The licence sets that an expression spells out as enough. */
  function Ways(e: Expr): set<set<string>> {
    match e
    case Id(name) => {{name}}
    case Group(inner) => Ways(inner)
    case And(l, r) => Both(Ways(l), Ways(r))
    case Or(l, r) => Ways(l) + Ways(r)
  }

  function WaysOfAll(es: seq<Expr>): set<set<string>> {
    if es == [] then {{}} else Both(Ways(es[0]), WaysOfAll(es[1..]))
  }

  ghost predicate Covers(ways: set<set<string>>, accepted: set<string>) { exists w :: w in ways && w <= accepted }

  lemma BothCover(a: set<set<string>>, b: set<set<string>>, accepted: set<string>)
    ensures Covers(Both(a, b), accepted) <==> Covers(a, accepted) && Covers(b, accepted)
  {
    if Covers(Both(a, b), accepted) {
      var w :| w in Both(a, b) && w <= accepted;
      var u, v :| u in a && v in b && w == u + v;
      assert u <= accepted && v <= accepted;
    }
    if Covers(a, accepted) && Covers(b, accepted) {
      var u :| u in a && u <= accepted;
      var v :| v in b && v <= accepted;
      assert u + v in Both(a, b) && u + v <= accepted;
    }
  }

  lemma {:induction false} WaysGrant(e: Expr, accepted: set<string>)
    ensures Grants(e, accepted) <==> Covers(Ways(e), accepted)
  {
    match e
    case Id(name) => assert name in accepted ==> {name} in Ways(e) && {name} <= accepted;
    case Group(inner) => WaysGrant(inner, accepted);
    case And(l, r) =>
      WaysGrant(l, accepted);
      WaysGrant(r, accepted);
      BothCover(Ways(l), Ways(r), accepted);
    case Or(l, r) =>
      WaysGrant(l, accepted);
      WaysGrant(r, accepted);
      assert forall w :: w in Ways(e) <==> w in Ways(l) || w in Ways(r);
  }

  lemma {:induction false} WaysGrantAll(es: seq<Expr>, accepted: set<string>)
    ensures GrantsAll(es, accepted) <==> Covers(WaysOfAll(es), accepted)
  {
    if es == [] {
      assert {} in WaysOfAll(es) && {} <= accepted;
    } else {
      WaysGrant(es[0], accepted);
      WaysGrantAll(es[1..], accepted);
      BothCover(Ways(es[0]), WaysOfAll(es[1..]), accepted);
      assert es == [es[0]] + es[1..];
    }
  }

  lemma {:induction false} GrantsMore(e: Expr, fewer: set<string>, more: set<string>)
    requires fewer <= more && Grants(e, fewer)
    ensures Grants(e, more)
  {
    match e
    case Id(_) =>
    case Group(inner) => GrantsMore(inner, fewer, more);
    case And(l, r) => GrantsMore(l, fewer, more); GrantsMore(r, fewer, more);
    case Or(l, r) => if Grants(l, fewer) { GrantsMore(l, fewer, more); } else { GrantsMore(r, fewer, more); }
  }

  /** Every licence set that spells out one of the join's groups is enough for
      every part: finitely many sets to look at. */
  predicate GroupsCoverParts(parts: seq<Expr>)
    requires parts != []
  {
    forall k, w | 0 <= k < |JoinBranches(parts)| && w in WaysOfAll(JoinBranches(parts)[k]) :: GrantsAll(parts, w)
  }

  /** The join asks for all of its parts, whatever is accepted, if and only if each
      of its groups spells out only licence sets that are enough for every part. */
  lemma JoinKeepsPartsIff(parts: seq<Expr>)
    requires |parts| > 0 && forall i | 0 <= i < |parts| :: IsDisjunction(parts[i])
    ensures ParseText(JoinTexts(Prints(parts))) == Success(OntoAll(parts))
    ensures (forall accepted :: Grants(OntoAll(parts), accepted) <==> GrantsAll(parts, accepted))
            <==> GroupsCoverParts(parts)
  {
    hide ParseText, Prints, OntoAll, JoinBranches, Grants, IsDisjunction, IsConjunction, JoinTexts, WaysOfAll;
    JoinIsConjunctionIff(parts);
    var groups := JoinBranches(parts);
    if forall accepted :: Grants(OntoAll(parts), accepted) <==> GrantsAll(parts, accepted) {
      forall k, w | 0 <= k < |groups| && w in WaysOfAll(groups[k]) ensures GrantsAll(parts, w) {
        WaysGrantAll(groups[k], w);
        JoinAsksForAGroup(parts, w);
        assert Covers(WaysOfAll(groups[k]), w) && groups[k] in groups;
      }
    }
    if GroupsCoverParts(parts) {
      forall accepted ensures Grants(OntoAll(parts), accepted) <==> GrantsAll(parts, accepted) {
        if Grants(OntoAll(parts), accepted) {
          JoinAsksForAGroup(parts, accepted);
          CoveredGroupGrants(parts, accepted);
        }
        if GrantsAll(parts, accepted) {
          PartsGrantJoin(parts, accepted);
        }
      }
    }
  }

  lemma CoveredGroupGrants(parts: seq<Expr>, accepted: set<string>)
    requires parts != [] && GroupsCoverParts(parts) && SomeGranted(JoinBranches(parts), accepted)
    ensures GrantsAll(parts, accepted)
  {
    hide JoinBranches, WaysOfAll, Grants;
    var g :| g in JoinBranches(parts) && GrantsAll(g, accepted);
    WaysGrantAll(g, accepted);
    var w :| w in WaysOfAll(g) && w <= accepted;
    assert GrantsAll(parts, w);
    forall e | e in parts ensures Grants(e, accepted) {
      GrantsMore(e, w, accepted);
    }
  }

  /** A group that takes an alternative from every part needs no look: the loss is
      in the groups that leave a part out. */
  lemma WholeGroupCovers(parts: seq<Expr>, g: seq<Expr>, w: set<string>)
    requires w in WaysOfAll(g) && forall p | p in parts :: exists b :: b in g && b in Branches(p)
    ensures GrantsAll(parts, w)
  {
    hide Grants, WaysOfAll;
    WaysGrantAll(g, w);
    assert Covers(WaysOfAll(g), w);
    forall p | p in parts ensures Grants(p, w) {
      var b :| b in g && b in Branches(p);
      BranchGrants(p, b, w);
    }
  }

  lemma {:induction false} BranchGrants(e: Expr, b: Expr, accepted: set<string>)
    requires b in Branches(e) && Grants(b, accepted)
    ensures Grants(e, accepted)
  {
    if e.Or? && b in Branches(e.left) {
      BranchGrants(e.left, b, accepted);
    }
  }

  /** A top-level OR need not lose anything. */
  lemma OrCanKeepParts(accepted: set<string>)
    ensures var parts := [Or(Id("MIT"), Id("ISC")), Id("MIT")];
            && ParseText(JoinTexts(Prints(parts))).Success?
            && (Grants(ParseText(JoinTexts(Prints(parts))).value, accepted) <==> GrantsAll(parts, accepted))
  {
    var parts := [Or(Id("MIT"), Id("ISC")), Id("MIT")];
    assert IsPrimary(Id("MIT")) && IsPrimary(Id("ISC"));
    assert IsConjunction(Id("MIT")) && IsConjunction(Id("ISC"));
    assert IsDisjunction(Id("MIT")) && IsDisjunction(parts[0]);
    JoinIsConjunctionIff(parts);
    assert parts[..1] == [parts[0]];
    assert OntoAll(parts) == Onto(parts[0], parts[1]) == Or(Id("MIT"), And(Id("ISC"), Id("MIT")));
    assert Grants(parts[1], accepted) <==> "MIT" in accepted;
    assert Grants(parts[0], accepted) <==> "MIT" in accepted || "ISC" in accepted;
    assert GrantsAll(parts, accepted) <==> Grants(parts[0], accepted) && Grants(parts[1], accepted);
  }

  /** The approved identifiers by their text. */
  lemma ApprovedParse(name: string)
    ensures name in {"MIT", "Apache-2.0", "BSD-2-Clause", "BSD-3-Clause", "ISC"} ==>
            ParseText(name) == Success(Id(name))
    ensures name in APPROVED <==> name in {"MIT", "Apache-2.0", "BSD-2-Clause", "BSD-3-Clause", "ISC"}
  {
    if name in {"MIT", "Apache-2.0", "BSD-2-Clause", "BSD-3-Clause", "ISC"} {
      CanonicalReparses(Id(name));
    }
  }
}
