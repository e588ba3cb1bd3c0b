/**
 * The builder: it holds a declaration pass and a reference pass over one shared context, and fills
 * the context from the syntax tree of a unit with either pass or with both, declarations first.
 */
module ContextBuilders {
  import opened Wrappers
  import opened Ast
  import opened Tables
  import opened CoreContext
  import opened Passes
  import opened DeclarationFinders
  import opened ReferenceFinders

  /** A unit's syntax tree as a traverser receives it: the nodes and the top-level statements. */
  ghost predicate Parsed(nodes: map<NodeId, Node>, roots: seq<NodeId>) {
    WellFormed(nodes) && forall r :: r in roots ==> r in nodes
  }

  /** The table after the declaration pass has traversed one tree. */
  function DeclsOf(nodes: map<NodeId, Node>, roots: seq<NodeId>, t: TableV): TableV
    requires Parsed(nodes, roots)
  {
    DeclRun(nodes, PassState([], t), Walk(nodes, roots)).table
  }

  /** The table after the reference pass has traversed one tree. */
  function RefsOf(nodes: map<NodeId, Node>, roots: seq<NodeId>, t: TableV): TableV
    requires Parsed(nodes, roots)
  {
    RefRun(nodes, PassState([], t), Walk(nodes, roots)).table
  }

  /** `ContextBuilder`: two traversers, each holding its own visitor, both visitors sharing the context. */
  class ContextBuilder {
    const declPass: DeclarationFinder
    const refPass: ReferenceFinder

    /** Both passes write to one context. */
    ghost predicate Valid()
      reads this
    {
      declPass.ctx == refPass.ctx
    }

    /** `new ContextBuilder($ctx)`: a fresh visitor of each kind over `ctx`. */
    constructor (ctx: Context)
      ensures declPass.ctx == ctx && refPass.ctx == ctx && Valid()
      ensures fresh(declPass) && fresh(refPass)
    {
      declPass := new DeclarationFinder(ctx);
      refPass := new ReferenceFinder(ctx);
    }

    /** `buildDecls($unit)`: the declaration pass over the unit's tree. */
    method BuildDecls(nodes: map<NodeId, Node>, roots: seq<NodeId>)
      requires Parsed(nodes, roots)
      modifies declPass, declPass.ctx
      ensures declPass.ctx.namespaces == DeclsOf(nodes, roots, old(declPass.ctx.namespaces))
    {
      declPass.Traverse(nodes, roots);
    }

    /** `buildRefs($unit)`: the reference pass over the unit's tree. */
    method BuildRefs(nodes: map<NodeId, Node>, roots: seq<NodeId>)
      requires Parsed(nodes, roots)
      modifies refPass, refPass.ctx
      ensures refPass.ctx.namespaces == RefsOf(nodes, roots, old(refPass.ctx.namespaces))
    {
      refPass.Traverse(nodes, roots);
    }

    /** `build($unit)`: the declaration pass, then the reference pass, over the same tree and context. */
    method Build(nodes: map<NodeId, Node>, roots: seq<NodeId>)
      requires Parsed(nodes, roots) && Valid()
      modifies declPass, refPass, declPass.ctx
      ensures declPass.ctx.namespaces == RefsOf(nodes, roots, DeclsOf(nodes, roots, old(declPass.ctx.namespaces)))
    {
      BuildDecls(nodes, roots);
      BuildRefs(nodes, roots);
    }
  }

  /**
   * Building from a unit finds exactly the symbols its declaration pass filed: the reference pass
   * adds none and removes none, keeps every declaration, and only appends references.
   */
  lemma BuildFindsDeclared(nodes: map<NodeId, Node>, roots: seq<NodeId>, t: TableV, key: string, name: string)
    requires Parsed(nodes, roots)
    ensures var d := DeclsOf(nodes, roots, t);
      var b := RefsOf(nodes, roots, d);
      && (LookupSymbol(b, key, name).Some? <==> LookupSymbol(d, key, name).Some?)
      && Grows(d, b)
  {
    var vs := Walk(nodes, roots);
    var d := DeclsOf(nodes, roots, t);
    RefRunFindsSame(nodes, PassState([], d), vs, key, name);
    RefRunGrows(nodes, PassState([], d), vs);
  }

  /** The declaration pass records no reference, and both passes keep the table well formed. */
  lemma BuildKeepsShape(nodes: map<NodeId, Node>, roots: seq<NodeId>, t: TableV)
    requires Parsed(nodes, roots)
    ensures RefsKept(t, DeclsOf(nodes, roots, t))
    ensures TableValid(t) ==> TableValid(DeclsOf(nodes, roots, t)) && TableValid(RefsOf(nodes, roots, t))
  {
    var vs := Walk(nodes, roots);
    DeclRunAddsNoRefs(nodes, PassState([], t), vs);
    if TableValid(t) {
      DeclRunValid(nodes, PassState([], t), vs);
      RefRunValid(nodes, PassState([], t), vs);
    }
  }
}
