/**
 * The library entry point: a context, the transform to run, and the two traversal passes over that
 * context, declarations first, that analysing a unit runs in order.
 */
module Cages {
  import opened Wrappers
  import opened Php
  import opened Ast
  import opened Tables
  import opened CoreContext
  import opened DeclarationFinders
  import opened ReferenceFinders
  import opened ContextBuilders
  import opened NamespaceTransforms
  import opened Transforms

  /** A traversal pass: a traverser holding the name resolver and one visitor of the core. */
  datatype Pass = DeclPass(decl: DeclarationFinder) | RefPass(ref: ReferenceFinder)

  /** `Cage`: the context it builds and transforms, the transform, and the passes. */
  class Cage {
    const ctx: Context
    const transform: Transform
    const passes: seq<Pass>

    /** The passes `createPasses` makes: the declaration pass, then the reference pass, both over `ctx`. */
    ghost predicate Valid()
      reads this
    {
      && |passes| == 2
      && passes[0].DeclPass? && passes[0].decl.ctx == ctx
      && passes[1].RefPass? && passes[1].ref.ctx == ctx
    }

    /** `new Cage($ctx, $transform, $printer)`; the printer is not part of this model. */
    constructor (ctx: Context, transform: Transform)
      ensures this.ctx == ctx && this.transform == transform && Valid()
      ensures fresh(passes[0].decl) && fresh(passes[1].ref)
    {
      this.ctx := ctx;
      this.transform := transform;
      var ps := CreatePasses(ctx);
      this.passes := ps;
    }

    /** `createPasses()`: a fresh declaration finder and a fresh reference finder, both over `ctx`, in that order. */
    static method CreatePasses(ctx: Context) returns (ps: seq<Pass>)
      ensures |ps| == 2 && ps[0].DeclPass? && ps[1].RefPass?
      ensures ps[0].decl.ctx == ctx && ps[1].ref.ctx == ctx
      ensures fresh(ps[0].decl) && fresh(ps[1].ref)
    {
      var declFinder := new DeclarationFinder(ctx);
      var refFinder := new ReferenceFinder(ctx);
      ps := [DeclPass(declFinder), RefPass(refFinder)];
    }

    /**
     * `analyze($unit)`: every pass traverses the unit's tree in turn, so the context ends as the
     * builder's `build` leaves it: declarations filed first, then references recorded.
     */
    method Analyze(nodes: map<NodeId, Node>, roots: seq<NodeId>)
      requires Valid() && Parsed(nodes, roots)
      modifies passes[0].decl, passes[1].ref, ctx
      ensures ctx.namespaces == RefsOf(nodes, roots, DeclsOf(nodes, roots, old(ctx.namespaces)))
    {
      var i := 0;
      while i < |passes|
        invariant 0 <= i <= 2
        invariant i == 0 ==> ctx.namespaces == old(ctx.namespaces)
        invariant i >= 1 ==> ctx.namespaces == (if i == 1 then DeclsOf(nodes, roots, old(ctx.namespaces))
          else RefsOf(nodes, roots, DeclsOf(nodes, roots, old(ctx.namespaces))))
        decreases |passes| - i
      {
        match passes[i] {
          case DeclPass(d) =>
            d.Traverse(nodes, roots);
          case RefPass(r) =>
            r.Traverse(nodes, roots);
        }
        i := i + 1;
      }
    }

    /** `run()`: the transform applied to the context, rewriting the analysed nodes. */
    method Run(arena: Arena) returns (error: Option<Error>)
      requires ctx.Valid()
      modifies arena
      ensures Outcome(arena.nodes, error) == TransformOutcome(transform, ctx.namespaces, old(arena.nodes))
    {
      error := ApplyTransform(transform, ctx, arena);
    }

    /** `Cage::create($transform)`: a cage over a fresh, empty context. */
    static method Create(transform: Transform) returns (c: Cage)
      ensures c.transform == transform && c.Valid() && fresh(c.ctx)
      ensures c.ctx.namespaces == EmptyDict() && c.ctx.Valid()
    {
      var ctx := new Context();
      c := new Cage(ctx, transform);
    }
  }
}
