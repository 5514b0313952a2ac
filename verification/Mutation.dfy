/** Mutants of a syntax tree: the counter-threaded traversal against the list of
    mutants the tree has. */
module Mutation {
  import opened Options
  import Text

  datatype CmpOp = Eq | NotEq | Lt | LtE | Gt | GtE | Is | IsNot | In | NotIn

  datatype Literal = BoolLit(b: bool) | IntLit(i: int) | FloatLit(r: real) | NoneLit | TextLit(s: string)

  /** The node classes the traversal tells apart; `Other` is any other class. */
  datatype Kind =
    | Compare(ops: seq<CmpOp>)
    | BoolAnd | BoolOr
    | NotOp | OtherUnary(name: string)
    | Add | Sub | OtherBinary(name: string)
    | Constant(value: Literal)
    | If | While | Return | ExprStmt
    | Await | Call | Attribute(attr: string) | Name(id: string) | Pass
    | Other(tag: string)

  /** A node with its children in field order. */
  datatype Node = Node(line: nat, kind: Kind, kids: seq<Node>)

  datatype Site = Site(line: nat, description: string)

  datatype Mutant = Mutant(site: Site, tree: Node)

  function Flipped(op: CmpOp): CmpOp {
    match op
    case Eq => NotEq
    case NotEq => Eq
    case Lt => LtE
    case LtE => Lt
    case Gt => GtE
    case GtE => Gt
    case Is => IsNot
    case IsNot => Is
    case In => NotIn
    case NotIn => In
  }

  function OpName(op: CmpOp): string {
    match op
    case Eq => "Eq"
    case NotEq => "NotEq"
    case Lt => "Lt"
    case LtE => "LtE"
    case Gt => "Gt"
    case GtE => "GtE"
    case Is => "Is"
    case IsNot => "IsNot"
    case In => "In"
    case NotIn => "NotIn"
  }

  // ---- logging calls are left alone ----

  const LOG_NAMES := {"log_event", "logger"}

  function Awaited(n: Node): Node {
    if n.kind == Await && |n.kids| > 0 then n.kids[0] else n
  }

  /** The name an attribute chain starts from. */
  function Base(n: Node): Node
    decreases n
  {
    if n.kind.Attribute? && |n.kids| > 0 then Base(n.kids[0]) else n
  }

  predicate IsLogging(call: Node) {
    call.kind == Call && |call.kids| > 0 && Base(call.kids[0]).kind.Name? && Base(call.kids[0]).kind.id in LOG_NAMES
  }

  // ---- what can be changed at one node ----

  function ShowBool(b: bool): string { if b then "True" else "False" }

  function ShowInt(i: int): string { if i < 0 then "-" + Text.Decimal(-i) else Text.Decimal(i) }

  /** A comparison with its i-th operator flipped. */
  function FlipOf(n: Node, i: nat): Mutant
    requires n.kind.Compare? && i < |n.kind.ops|
  {
    var op := n.kind.ops[i];
    Mutant(Site(n.line, OpName(op) + " -> " + OpName(Flipped(op))), n.(kind := Compare(n.kind.ops[i := Flipped(op)])))
  }

  function FlipOps(n: Node): (ms: seq<Mutant>)
    requires n.kind.Compare?
    ensures |ms| == |n.kind.ops| && forall i | 0 <= i < |ms| :: ms[i] == FlipOf(n, i)
  {
    seq(|n.kind.ops|, i requires 0 <= i < |n.kind.ops| => FlipOf(n, i))
  }

  function Negated(test: Node): Node { Node(test.line, NotOp, [test]) }

  /** The changes at a node itself, in the order the traversal offers them. */
  function Own(n: Node): seq<Mutant> {
    match n.kind
    case Compare(_) => FlipOps(n)
    case BoolAnd => [Mutant(Site(n.line, "And -> Or"), n.(kind := BoolOr))]
    case BoolOr => [Mutant(Site(n.line, "Or -> And"), n.(kind := BoolAnd))]
    case NotOp => if |n.kids| > 0 then [Mutant(Site(n.line, "remove not"), n.kids[0])] else []
    case Add => [Mutant(Site(n.line, "Add -> Sub"), n.(kind := Sub))]
    case Sub => [Mutant(Site(n.line, "Sub -> Add"), n.(kind := Add))]
    case Constant(BoolLit(b)) =>
        [Mutant(Site(n.line, ShowBool(b) + " -> " + ShowBool(!b)), n.(kind := Constant(BoolLit(!b))))]
    case Constant(IntLit(i)) =>
        [Mutant(Site(n.line, ShowInt(i) + " -> " + ShowInt(i + 1)), n.(kind := Constant(IntLit(i + 1))))]
    case Constant(FloatLit(r)) => [Mutant(Site(n.line, "add one"), n.(kind := Constant(FloatLit(r + 1.0))))]
    case If => if |n.kids| > 0
        then [Mutant(Site(n.line, "negate if condition"), n.(kids := n.kids[0 := Negated(n.kids[0])]))] else []
    case While => if |n.kids| > 0
        then [Mutant(Site(n.line, "negate while condition"), n.(kids := n.kids[0 := Negated(n.kids[0])]))] else []
    case Return =>
      if |n.kids| > 0 && n.kids[0].kind != Constant(NoneLit)
      then [Mutant(Site(n.line, "return None"), n.(kids := [Node(n.line, Constant(NoneLit), [])]))] else []
    case ExprStmt =>
      if |n.kids| > 0 && Awaited(n.kids[0]).kind == Call && !IsLogging(Awaited(n.kids[0]))
      then [Mutant(Site(n.line, "delete statement"), Node(n.line, Pass, []))] else []
    case _ => []
  }

  // ---- all mutants of a tree, each with one change ----

  function InKid(n: Node, i: nat, m: Mutant): Mutant
    requires i < |n.kids|
  {
    Mutant(m.site, n.(kids := n.kids[i := m.tree]))
  }

  function InKids(n: Node, i: nat, ms: seq<Mutant>): (out: seq<Mutant>)
    requires i < |n.kids|
    ensures |out| == |ms| && forall j | 0 <= j < |ms| :: out[j] == InKid(n, i, ms[j])
  {
    seq(|ms|, j requires 0 <= j < |ms| => InKid(n, i, ms[j]))
  }

  /** A constant's own value is its only site; other nodes offer their children's
      mutants first, in order. */
  function Mutants(n: Node): seq<Mutant>
    decreases n, 1
  {
    (if n.kind.Constant? then [] else KidMutants(n, |n.kids|)) + Own(n)
  }

  /** The mutants inside the first k children. */
  function KidMutants(n: Node, k: nat): seq<Mutant>
    requires k <= |n.kids|
    decreases n, 0, k
  {
    if k == 0 then [] else KidMutants(n, k - 1) + InKids(n, k - 1, Mutants(n.kids[k - 1]))
  }

  function Sites(ms: seq<Mutant>): (sites: seq<Site>)
    ensures |sites| == |ms| && forall j | 0 <= j < |ms| :: sites[j] == ms[j].site
  {
    seq(|ms|, j requires 0 <= j < |ms| => ms[j].site)
  }

  // ---- the traversal on values ----

  /** Offering a node's own changes: each is numbered by the counter, and the one
      with the wanted number is made. */
  function Offered(n: Node, apply: Option<nat>, sites: seq<Site>): (Node, seq<Site>) {
    var own := Own(n);
    var tree := if apply.Some? && |sites| <= apply.value < |sites| + |own| then own[apply.value - |sites|].tree else n;
    (tree, sites + Sites(own))
  }

  function Visit(n: Node, apply: Option<nat>, sites: seq<Site>): (Node, seq<Site>)
    decreases n, 1
  {
    if n.kind.Constant? then Offered(n, apply, sites)
    else
      var (kids, after) := VisitKids(n, |n.kids|, apply, sites);
      Offered(n.(kids := kids), apply, after)
  }

  /** The first k children visited, the others as they were. */
  function VisitKids(n: Node, k: nat, apply: Option<nat>, sites: seq<Site>): (r: (seq<Node>, seq<Site>))
    requires k <= |n.kids|
    ensures |r.0| == |n.kids| && r.0[k..] == n.kids[k..]
    decreases n, 0, k
  {
    if k == 0 then (n.kids, sites)
    else
      var (kids, before) := VisitKids(n, k - 1, apply, sites);
      var (kid, after) := Visit(n.kids[k - 1], apply, before);
      (kids[k - 1 := kid], after)
  }

  // ---- the traversal makes the wanted mutant ----

  /** What a visit with the counter at |sites| does to a stretch of mutants. */
  ghost predicate Makes(
    before: Node, ms: seq<Mutant>, apply: Option<nat>, sites: seq<Site>, after: Node, sites': seq<Site>) {
    if apply.Some? && |sites| <= apply.value < |sites| + |ms| then
      && after == ms[apply.value - |sites|].tree
      && apply.value < |sites'|
      && sites'[..apply.value + 1] == sites + Sites(ms)[..apply.value + 1 - |sites|]
    else
      after == before && sites' == sites + Sites(ms)
  }

  lemma {:induction false} VisitMakes(n: Node, apply: Option<nat>, sites: seq<Site>)
    ensures var (tree, after) := Visit(n, apply, sites); Makes(n, Mutants(n), apply, sites, tree, after)
    decreases n, 1
  {
    hide Makes, Own, Offered;
    if n.kind.Constant? {
      MakesNothing(n, apply, sites);
      OfferAfter(n, [], apply, sites, n, sites);
    } else {
      VisitKidsMakes(n, |n.kids|, apply, sites);
      var (kids, middle) := VisitKids(n, |n.kids|, apply, sites);
      OfferAfter(n, KidMutants(n, |n.kids|), apply, sites, n.(kids := kids), middle);
    }
  }

  lemma MakesNothing(n: Node, apply: Option<nat>, sites: seq<Site>)
    ensures Makes(n, [], apply, sites, n, sites)
  {
    assert sites + [] == sites;
  }

  lemma {:induction false} VisitKidsMakes(n: Node, k: nat, apply: Option<nat>, sites: seq<Site>)
    requires k <= |n.kids|
    ensures var (kids, after) := VisitKids(n, k, apply, sites);
            Makes(n, KidMutants(n, k), apply, sites, n.(kids := kids), after)
    decreases n, 0, k
  {
    hide Makes, Own, Offered;
    if k == 0 {
      MakesNothing(n, apply, sites);
    } else {
      VisitKidsMakes(n, k - 1, apply, sites);
      var (kids, middle) := VisitKids(n, k - 1, apply, sites);
      VisitMakes(n.kids[k - 1], apply, middle);
      var (kid, after) := Visit(n.kids[k - 1], apply, middle);
      assert kids[k - 1] == kids[k - 1..][0] == n.kids[k - 1..][0];
      NextKid(n, k - 1, KidMutants(n, k - 1), apply, sites, kids, middle, kid, after);
    }
  }

  /** A first stretch of mutants and then one more child's. */
  lemma NextKid(n: Node, i: nat, ms: seq<Mutant>, apply: Option<nat>, sites: seq<Site>,
                kids: seq<Node>, middle: seq<Site>, kid: Node, after: seq<Site>)
    requires i < |n.kids| && |kids| == |n.kids| && kids[i] == n.kids[i]
    requires Makes(n, ms, apply, sites, n.(kids := kids), middle)
    requires Makes(n.kids[i], Mutants(n.kids[i]), apply, middle, kid, after)
    ensures Makes(n, ms + InKids(n, i, Mutants(n.kids[i])), apply, sites, n.(kids := kids[i := kid]), after)
  {
    hide Mutants, Own;
    var own := Mutants(n.kids[i]);
    var all := ms + InKids(n, i, own);
    assert Sites(all) == Sites(ms) + Sites(own);
    assert sites + Sites(all) == (sites + Sites(ms)) + Sites(own);
    if apply.Some? && |sites| <= apply.value < |sites| + |ms| {
      assert kids[i := kid] == kids;
      assert Sites(all)[..apply.value + 1 - |sites|] == Sites(ms)[..apply.value + 1 - |sites|];
      assert after[..apply.value + 1] == middle[..apply.value + 1];
    } else if apply.Some? && |middle| <= apply.value < |middle| + |own| {
      assert all[apply.value - |sites|] == InKid(n, i, own[apply.value - |middle|]);
      assert sites + Sites(all)[..apply.value + 1 - |sites|] == middle + Sites(own)[..apply.value + 1 - |middle|];
    }
  }

  /** And then the node's own. */
  lemma OfferAfter(n: Node, ms: seq<Mutant>, apply: Option<nat>, sites: seq<Site>, visited: Node, middle: seq<Site>)
    requires Makes(n, ms, apply, sites, visited, middle)
    ensures var (tree, after) := Offered(visited, apply, middle); Makes(n, ms + Own(n), apply, sites, tree, after)
  {
    hide Own;
    var own := Own(n);
    var (tree, after) := Offered(visited, apply, middle);
    assert Sites(ms + own) == Sites(ms) + Sites(own);
    if apply.Some? && |sites| <= apply.value < |sites| + |ms| {
      assert Sites(ms + own)[..apply.value + 1 - |sites|] == Sites(ms)[..apply.value + 1 - |sites|];
      assert after[..apply.value + 1] == middle[..apply.value + 1];
    } else {
      assert sites + Sites(ms + own) == middle + Sites(own);
      if apply.Some? && |middle| <= apply.value < |middle| + |own| {
        assert after[..apply.value + 1] == (sites + Sites(ms + own))[..apply.value + 1];
        assert (sites + Sites(ms + own))[..apply.value + 1] == sites + Sites(ms + own)[..apply.value + 1 - |sites|];
      }
    }
  }

  // ---- a mutant is never the source ----

  lemma FlipsDiffer(n: Node)
    requires n.kind.Compare?
    ensures forall m | m in FlipOps(n) :: m.tree != n
  {
    forall i | 0 <= i < |n.kind.ops| ensures FlipOf(n, i).tree != n {
      assert n.kind.ops[i := Flipped(n.kind.ops[i])][i] != n.kind.ops[i];
    }
  }

  lemma OwnDiffers(n: Node)
    ensures forall m | m in Own(n) :: m.tree != n
  {
    match n.kind {
      case Compare(_) => FlipsDiffer(n);
      case NotOp => if |n.kids| > 0 { KidIsSmaller(n); }
      case If => if |n.kids| > 0 { NegatedDiffers(n.kids[0]); assert n.kids[0 := Negated(n.kids[0])][0] != n.kids[0]; }
      case While =>
        if |n.kids| > 0 {
          NegatedDiffers(n.kids[0]);
          assert n.kids[0 := Negated(n.kids[0])][0] != n.kids[0];
        }
      case _ =>
    }
  }

  function Size(n: Node): nat
    decreases n, 1
  {
    1 + SizeOf(n, |n.kids|)
  }

  function SizeOf(n: Node, k: nat): nat
    requires k <= |n.kids|
    decreases n, 0, k
  {
    if k == 0 then 0 else SizeOf(n, k - 1) + Size(n.kids[k - 1])
  }

  lemma {:induction false} SizeGrows(n: Node, k: nat)
    requires 1 <= k <= |n.kids|
    ensures SizeOf(n, k) >= Size(n.kids[0])
  {
    if k > 1 {
      SizeGrows(n, k - 1);
    }
  }

  lemma KidIsSmaller(n: Node)
    requires |n.kids| > 0
    ensures n.kids[0] != n
  {
    SizeGrows(n, |n.kids|);
  }

  lemma NegatedDiffers(test: Node)
    ensures Negated(test) != test
  {
    KidIsSmaller(Negated(test));
  }

  lemma {:induction false} MutantsDiffer(n: Node)
    ensures forall m | m in Mutants(n) :: m.tree != n
    decreases n, 1
  {
    OwnDiffers(n);
    if !n.kind.Constant? {
      KidMutantsDiffer(n, |n.kids|);
    }
  }

  lemma {:induction false} KidMutantsDiffer(n: Node, k: nat)
    requires k <= |n.kids|
    ensures forall m | m in KidMutants(n, k) :: m.tree != n
    decreases n, 0, k
  {
    hide Own;
    if k > 0 {
      KidMutantsDiffer(n, k - 1);
      MutantsDiffer(n.kids[k - 1]);
      var own := Mutants(n.kids[k - 1]);
      forall m | m in InKids(n, k - 1, own) ensures m.tree != n {
        var j :| 0 <= j < |own| && m == InKid(n, k - 1, own[j]);
        assert m.tree.kids[k - 1] == own[j].tree;
        assert own[j] in own;
      }
    }
  }

  // ---- enumeration and mutation ----

  /** `enumerate_sites`: the dry traversal lists the site of every mutant. */
  lemma DryRunListsMutants(t: Node)
    ensures Visit(t, None, []) == (t, Sites(Mutants(t)))
  {
    VisitMakes(t, None, []);
    assert [] + Sites(Mutants(t)) == Sites(Mutants(t));
  }

  /** For every tree and every enumerated index, the applying traversal makes
      exactly the mutant with that number: one change, at the site that the dry
      traversal numbered so, with a tree that is not the source. The two runs list
      the same sites up to and including it. */
  lemma MutatesTheNumberedSite(t: Node, i: nat)
    requires i < |Visit(t, None, []).1|
    ensures i < |Mutants(t)|
    ensures var (tree, sites) := Visit(t, Some(i), []);
            && tree == Mutants(t)[i].tree
            && tree != t
            && i < |sites|
            && sites[..i + 1] == Visit(t, None, []).1[..i + 1]
  {
    hide Visit, Mutants;
    DryRunListsMutants(t);
    VisitMakes(t, Some(i), []);
    MutantsDiffer(t);
    assert [] + Sites(Mutants(t))[..i + 1] == Sites(Mutants(t))[..i + 1];
    assert Mutants(t)[i] in Mutants(t);
  }

  /** Any other index leaves the tree as it is. */
  lemma OutOfRangeChangesNothing(t: Node, i: nat)
    requires i >= |Visit(t, None, []).1|
    ensures Visit(t, Some(i), []) == Visit(t, None, [])
  {
    DryRunListsMutants(t);
    VisitMakes(t, Some(i), []);
    assert [] + Sites(Mutants(t)) == Sites(Mutants(t));
  }

  /** The applying run may list more sites than the dry one: removing the `not` of
      a statement `not f()` leaves a call that can be deleted. */
  lemma ApplyingCanListMore()
    ensures var t := Node(1, ExprStmt, [Node(1, NotOp, [Node(1, Call, [Node(1, Name("f"), [])])])]);
            |Visit(t, Some(0), []).1| == 2 && |Visit(t, None, []).1| == 1
  {
    hide Visit;
    var f := Node(1, Name("f"), []);
    var call := Node(1, Call, [f]);
    var negated := Node(1, NotOp, [call]);
    var t, bare := Node(1, ExprStmt, [negated]), Node(1, ExprStmt, [call]);
    CallIsVisited(f, call, Some(0), []);
    CallIsVisited(f, call, None, []);
    OneKidVisit(negated, Some(0), []);
    OneKidVisit(negated, None, []);
    var removed := [Site(1, "remove not")];
    assert [] + removed == removed && Sites(Own(negated)) == removed;
    assert Visit(negated, Some(0), []) == (call, removed) && Visit(negated, None, []) == (negated, removed);
    OneKidVisit(t, Some(0), []);
    OneKidVisit(t, None, []);
    assert |Own(t)| == 0;
    CallCanBeDeleted(f, call, bare);
    assert t.(kids := [call]) == bare && t.(kids := [negated]) == t;
  }

  lemma CallIsVisited(f: Node, call: Node, apply: Option<nat>, sites: seq<Site>)
    requires f == Node(1, Name("f"), []) && call == Node(1, Call, [f])
    ensures Visit(call, apply, sites) == (call, sites)
  {
    LeafVisit(f, apply, sites);
    OneKidVisit(call, apply, sites);
    hide Visit;
    assert sites + [] == sites;
  }

  lemma CallCanBeDeleted(f: Node, call: Node, bare: Node)
    requires f == Node(1, Name("f"), []) && call == Node(1, Call, [f]) && bare == Node(1, ExprStmt, [call])
    ensures |Own(bare)| == 1
  {
    assert Base(f) == f;
    assert "f" !in LOG_NAMES;
  }

  lemma LeafVisit(n: Node, apply: Option<nat>, sites: seq<Site>)
    requires n.kids == []
    ensures Visit(n, apply, sites) == Offered(n, apply, sites)
  {}

  lemma OneKidVisit(n: Node, apply: Option<nat>, sites: seq<Site>)
    requires |n.kids| == 1 && !n.kind.Constant?
    ensures var (kid, after) := Visit(n.kids[0], apply, sites);
            Visit(n, apply, sites) == Offered(n.(kids := [kid]), apply, after)
  {
    var (kid, after) := Visit(n.kids[0], apply, sites);
    assert VisitKids(n, 0, apply, sites) == (n.kids, sites);
    assert n.kids[0 := kid] == [kid];
  }

  // ---- which change each node gets ----

  /** Comparisons as the flips see them: of equal, ordered, same and contained. */
  predicate Compares(op: CmpOp, x: int, y: int, same: bool, contained: bool) {
    match op
    case Eq => x == y
    case NotEq => x != y
    case Lt => x < y
    case LtE => x <= y
    case Gt => x > y
    case GtE => x >= y
    case Is => same
    case IsNot => !same
    case In => contained
    case NotIn => !contained
  }

  /** An order is flipped at the boundary alone, and every other comparison into its
      opposite; flipping twice changes nothing. */
  lemma FlippedMeans(op: CmpOp, x: int, y: int, same: bool, contained: bool)
    ensures Flipped(Flipped(op)) == op
    ensures var before, after := Compares(op, x, y, same, contained), Compares(Flipped(op), x, y, same, contained);
            if op in {Lt, LtE, Gt, GtE} then (before != after <==> x == y) else before != after
    ensures OpName(op) != OpName(Flipped(op))
  {}

  /** The one change that a node offers in itself, by its class. */
  ghost predicate Changes(n: Node, m: Mutant) {
    && m.site.line == n.line
    && match n.kind
       case Compare(ops) =>
         exists i :: 0 <= i < |ops| && m.tree == n.(kind := Compare(ops[..i] + [Flipped(ops[i])] + ops[i + 1..]))
                     && m.site.description == OpName(ops[i]) + " -> " + OpName(Flipped(ops[i]))
       case BoolAnd => m.tree == Node(n.line, BoolOr, n.kids) && m.site.description == "And -> Or"
       case BoolOr => m.tree == Node(n.line, BoolAnd, n.kids) && m.site.description == "Or -> And"
       case NotOp => [m.tree] <= n.kids && m.site.description == "remove not"
       case Add => m.tree == Node(n.line, Sub, n.kids) && m.site.description == "Add -> Sub"
       case Sub => m.tree == Node(n.line, Add, n.kids) && m.site.description == "Sub -> Add"
       case Constant(BoolLit(b)) =>
         && m.tree == Node(n.line, Constant(BoolLit(!b)), n.kids)
         && m.site.description == if b then "True -> False" else "False -> True"
       case Constant(IntLit(i)) =>
         && m.tree == Node(n.line, Constant(IntLit(i + 1)), n.kids)
         && m.site.description == ShowInt(i) + " -> " + ShowInt(i + 1)
       case Constant(FloatLit(r)) => m.tree == Node(n.line, Constant(FloatLit(r + 1.0)), n.kids)
       case If => NegatesTest(n, m.tree) && m.site.description == "negate if condition"
       case While => NegatesTest(n, m.tree) && m.site.description == "negate while condition"
       case Return =>
         && |n.kids| > 0 && n.kids[0].kind != Constant(NoneLit)
         && m.tree == Node(n.line, Return, [Node(n.line, Constant(NoneLit), [])]) && m.site.description == "return None"
       case ExprStmt => CallsOther(n) && m.tree == Node(n.line, Pass, []) && m.site.description == "delete statement"
       case _ => false
  }

  ghost predicate NegatesTest(n: Node, tree: Node) {
    n.kids != [] && tree == Node(n.line, n.kind, [Node(n.kids[0].line, NotOp, [n.kids[0]])] + n.kids[1..])
  }

  /** A statement that is a call, awaited or not, but of no logging name. */
  ghost predicate CallsOther(n: Node) {
    && |n.kids| > 0
    && var value := if n.kids[0].kind == Await && |n.kids[0].kids| > 0 then n.kids[0].kids[0] else n.kids[0];
       && value.kind == Call
       && (value.kids == [] || match Base(value.kids[0]).kind
                               case Name(id) => id != "log_event" && id != "logger"
                               case _ => true)
  }

  /** A node offers exactly the changes of its class, of a comparison one per operator
      and of any other class at most one. */
  lemma OwnMeans(n: Node, m: Mutant)
    ensures m in Own(n) ==> Changes(n, m)
  {
    if n.kind.Compare? {
      if m in Own(n) {
        FlipMeans(n, m);
      }
    } else if n.kind in {If, While} {
      if n.kids != [] {
        assert n.kids[0 := Negated(n.kids[0])] == [Negated(n.kids[0])] + n.kids[1..];
      }
    }
    hide OpName, Flipped, ShowInt, IsLogging;
  }

  lemma FlipMeans(n: Node, m: Mutant)
    requires n.kind.Compare? && m in Own(n)
    ensures Changes(n, m)
  {
    hide OpName, Flipped;
    var i :| 0 <= i < |Own(n)| && Own(n)[i] == m;
    assert m == FlipOf(n, i);
    var ops := n.kind.ops;
    assert ops[i := Flipped(ops[i])] == ops[..i] + [Flipped(ops[i])] + ops[i + 1..];
  }

  /** How many changes a node offers: one per operator of a comparison, and one or none
      of any other class. */
  lemma OwnCount(n: Node)
    ensures n.kind.Compare? ==> |Own(n)| == |n.kind.ops|
    ensures !n.kind.Compare? ==> |Own(n)| <= 1
    ensures n.kind in {BoolAnd, BoolOr, Add, Sub} ==> |Own(n)| == 1
    ensures n.kind.Constant? ==> |Own(n)| == if n.kind.value.NoneLit? || n.kind.value.TextLit? then 0 else 1
    ensures n.kind in {NotOp, If, While} ==> |Own(n)| == if n.kids == [] then 0 else 1
    ensures n.kind == Return ==> |Own(n)| == if n.kids == [] || n.kids[0].kind == Constant(NoneLit) then 0 else 1
    ensures n.kind == ExprStmt ==> |Own(n)| == if CallsOther(n) then 1 else 0
    ensures n.kind.OtherUnary? || n.kind.OtherBinary? || n.kind in {Await, Call, Pass} || n.kind.Other? ==> Own(n) == []
    ensures n.kind.Attribute? || n.kind.Name? ==> Own(n) == []
  {
    hide OpName, Flipped, ShowInt;
  }

  /** The sites' wording for the operators. */
  lemma OperatorsNamed(op: CmpOp)
    ensures var text := OpName(op) + " -> " + OpName(Flipped(op));
            text in {"Eq -> NotEq", "NotEq -> Eq", "Lt -> LtE", "LtE -> Lt", "Gt -> GtE", "GtE -> Gt",
                     "Is -> IsNot", "IsNot -> Is", "In -> NotIn", "NotIn -> In"}
    ensures op == Eq <==> OpName(op) == "Eq"
    ensures op == Lt <==> OpName(op) == "Lt"
    ensures op == Gt <==> OpName(op) == "Gt"
    ensures op == Is <==> OpName(op) == "Is"
    ensures op == In <==> OpName(op) == "In"
  {
    assert OpName(Eq) + " -> " + OpName(NotEq) == "Eq -> NotEq" && OpName(NotEq) + " -> " + OpName(Eq) == "NotEq -> Eq";
    assert OpName(Lt) + " -> " + OpName(LtE) == "Lt -> LtE" && OpName(LtE) + " -> " + OpName(Lt) == "LtE -> Lt";
    assert OpName(Gt) + " -> " + OpName(GtE) == "Gt -> GtE" && OpName(GtE) + " -> " + OpName(Gt) == "GtE -> Gt";
    assert OpName(Is) + " -> " + OpName(IsNot) == "Is -> IsNot" && OpName(IsNot) + " -> " + OpName(Is) == "IsNot -> Is";
    assert OpName(In) + " -> " + OpName(NotIn) == "In -> NotIn" && OpName(NotIn) + " -> " + OpName(In) == "NotIn -> In";
  }

  /** A number is shown by its digits, after a minus sign if it is negative. */
  lemma IntsShown(i: int)
    ensures i >= 0 ==> Text.DecimalValue(ShowInt(i)) == i
    ensures i < 0 ==> "-" <= ShowInt(i) && Text.DecimalValue(ShowInt(i)[1..]) == -i
  {
    Text.DecimalRoundTrip(if i < 0 then -i else i);
  }
}
