/** The traversal object: the counter, the site list and the wanted number. */
module Mutators {
  import opened Options
  import opened Mutation

  class Mutator {
    const apply: Option<nat>
    var count: nat
    var sites: seq<Site>

    constructor (apply: Option<nat>)
      ensures this.apply == apply && count == 0 && sites == []
    {
      this.apply, count, sites := apply, 0, [];
    }

    /** The counter is the number of sites listed. */
    predicate Valid()
      reads this
    {
      count == |sites|
    }

    method Hit(line: nat, description: string) returns (hit: bool)
      requires Valid()
      modifies this`count, this`sites
      ensures Valid() && sites == old(sites) + [Site(line, description)]
      ensures hit <==> apply == Some(old(count))
    {
      var index := count;
      count := count + 1;
      sites := sites + [Site(line, description)];
      hit := apply == Some(index);
    }

    /** One offer of a node with a single change. */
    method OfferOne(n: Node, description: string, change: Node) returns (tree: Node)
      requires Valid() && Own(n) == [Mutant(Site(n.line, description), change)]
      modifies this`count, this`sites
      ensures Valid() && (tree, sites) == Offered(n, apply, old(sites))
    {
      var hit := Hit(n.line, description);
      tree := if hit then change else n;
      assert Sites(Own(n)) == [Site(n.line, description)];
    }

    /** The operators after the wanted flip, if it is among the first i. */
    ghost function FlippedOps(n: Node, base: nat, i: nat): seq<CmpOp>
      requires n.kind.Compare? && i <= |n.kind.ops|
    {
      if apply.Some? && base <= apply.value < base + i
      then n.kind.ops[apply.value - base := Flipped(n.kind.ops[apply.value - base])] else n.kind.ops
    }

    method VisitCompare(n: Node) returns (tree: Node)
      requires Valid() && n.kind.Compare?
      modifies this`count, this`sites
      ensures Valid() && (tree, sites) == Offered(n, apply, old(sites))
    {
      hide OpName, Flipped;
      ghost var own, base := Own(n), |sites|;
      var ops := n.kind.ops;
      for i := 0 to |n.kind.ops|
        invariant Valid() && sites == old(sites) + Sites(own)[..i]
        invariant ops == FlippedOps(n, base, i)
      {
        var op := ops[i];
        assert op == n.kind.ops[i] && own[i] == FlipOf(n, i);
        var hit := Hit(n.line, OpName(op) + " -> " + OpName(Flipped(op)));
        assert Sites(own)[..i + 1] == Sites(own)[..i] + [own[i].site];
        if hit {
          ops := ops[i := Flipped(op)];
        }
      }
      tree := n.(kind := Compare(ops));
      assert Sites(own)[..|own|] == Sites(own);
    }

    /** The visitor of each node class, after its children. */
    method VisitOwn(n: Node) returns (tree: Node)
      requires Valid()
      modifies this`count, this`sites
      ensures Valid() && (tree, sites) == Offered(n, apply, old(sites))
    {
      match n.kind
      case Compare(_) => tree := VisitCompare(n);
      case BoolAnd => tree := OfferOne(n, "And -> Or", n.(kind := BoolOr));
      case BoolOr => tree := OfferOne(n, "Or -> And", n.(kind := BoolAnd));
      case Add => tree := OfferOne(n, "Add -> Sub", n.(kind := Sub));
      case Sub => tree := OfferOne(n, "Sub -> Add", n.(kind := Add));
      case NotOp =>
        if |n.kids| > 0 {
          tree := OfferOne(n, "remove not", n.kids[0]);
        } else {
          tree := Leave(n);
        }
      case Constant(BoolLit(b)) =>
        tree := OfferOne(n, ShowBool(b) + " -> " + ShowBool(!b), n.(kind := Constant(BoolLit(!b))));
      case Constant(IntLit(i)) =>
        tree := OfferOne(n, ShowInt(i) + " -> " + ShowInt(i + 1), n.(kind := Constant(IntLit(i + 1))));
      case Constant(FloatLit(r)) =>
        tree := OfferOne(n, "add one", n.(kind := Constant(FloatLit(r + 1.0))));
      case If =>
        if |n.kids| > 0 {
          tree := OfferOne(n, "negate if condition", n.(kids := n.kids[0 := Negated(n.kids[0])]));
        } else {
          tree := Leave(n);
        }
      case While =>
        if |n.kids| > 0 {
          tree := OfferOne(n, "negate while condition", n.(kids := n.kids[0 := Negated(n.kids[0])]));
        } else {
          tree := Leave(n);
        }
      case Return =>
        if |n.kids| > 0 && n.kids[0].kind != Constant(NoneLit) {
          tree := OfferOne(n, "return None", n.(kids := [Node(n.line, Constant(NoneLit), [])]));
        } else {
          tree := Leave(n);
        }
      case ExprStmt =>
        if |n.kids| > 0 && Awaited(n.kids[0]).kind == Call && !IsLogging(Awaited(n.kids[0])) {
          tree := OfferOne(n, "delete statement", Node(n.line, Pass, []));
        } else {
          tree := Leave(n);
        }
      case _ => tree := Leave(n);
    }

    /** A node without a change of its own. */
    method Leave(n: Node) returns (tree: Node)
      requires Valid() && Own(n) == []
      ensures (tree, sites) == Offered(n, apply, old(sites))
    {
      tree := n;
      assert sites + [] == sites;
    }

    /** `generic_visit`: the children in order, each replaced by what its visit
        returns. */
    method GenericVisit(n: Node) returns (kids: seq<Node>)
      requires Valid()
      modifies this`count, this`sites
      ensures Valid() && (kids, sites) == VisitKids(n, |n.kids|, apply, old(sites))
      decreases n, 0
    {
      kids := n.kids;
      for i := 0 to |n.kids|
        invariant Valid() && (kids, sites) == VisitKids(n, i, apply, old(sites))
      {
        var kid := VisitNode(n.kids[i]);
        kids := kids[i := kid];
      }
    }

    method VisitNode(n: Node) returns (tree: Node)
      requires Valid()
      modifies this`count, this`sites
      ensures Valid() && (tree, sites) == Visit(n, apply, old(sites))
      decreases n, 1
    {
      if n.kind.Constant? {
        tree := VisitOwn(n);
      } else {
        var kids := GenericVisit(n);
        tree := VisitOwn(n.(kids := kids));
      }
    }
  }

  /** `enumerate_sites` on a parsed tree: one entry per mutant. */
  method EnumerateSites(tree: Node) returns (sites: seq<Site>)
    ensures sites == Sites(Mutants(tree))
  {
    DryRunListsMutants(tree);
    var mutator := new Mutator(None);
    var _ := mutator.VisitNode(tree);
    sites := mutator.sites;
  }

  /** `mutate` on a parsed tree: the mutant with the given number, or the tree
      itself when there is none. */
  method Mutate(tree: Node, index: nat) returns (mutant: Node)
    ensures mutant == if index < |Mutants(tree)| then Mutants(tree)[index].tree else tree
    ensures mutant != tree <==> index < |Mutants(tree)|
  {
    DryRunListsMutants(tree);
    if index < |Mutants(tree)| {
      MutatesTheNumberedSite(tree, index);
    } else {
      OutOfRangeChangesNothing(tree, index);
    }
    var mutator := new Mutator(Some(index));
    mutant := mutator.VisitNode(tree);
  }
}
