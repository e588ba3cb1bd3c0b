/**
 * Transforms: a rename of one namespace, or a list of transforms applied one after the other to the
 * same context, each seeing the nodes as the previous ones left them.
 */
module Transforms {
  import opened Wrappers
  import opened Ast
  import opened Tables
  import opened CoreContext
  import opened NamespaceTransforms

  /** The transforms of the core: `NamespaceTransform` and `TransformList`. */
  datatype Transform =
    | Rename(rename: NamespaceTransform)
    | Composite(transforms: seq<Transform>)

  /** `new TransformList($transforms)`. */
  function NewTransformList(transforms: seq<Transform>): (t: Transform)
    ensures t.Composite? && t.transforms == transforms
  {
    Composite(transforms)
  }

  /** What applying a transform does to the nodes, and what it throws: only the rename's exception. */
  function TransformOutcome(t: Transform, table: TableV, nodes: map<NodeId, Node>): (r: Outcome)
    requires TableValid(table)
    ensures r.error.Some? ==> r.error.value == RuntimeException(CannotRename)
    ensures t.Rename? && (exists k :: k in table.order && ThrowsAt(t.rename, k, table.entries[k])) ==> r.error.Some?
    decreases t
  {
    match t
    case Rename(r) => ApplySpec(r, table, nodes)
    case Composite(ts) => ListOutcome(ts, table, nodes)
  }

  /** The transforms in order, each on the nodes the previous left; an exception stops the list. */
  function ListOutcome(ts: seq<Transform>, table: TableV, nodes: map<NodeId, Node>): (r: Outcome)
    requires TableValid(table)
    ensures r.error.Some? ==> r.error.value == RuntimeException(CannotRename)
    ensures |ts| > 0 && TransformOutcome(ts[0], table, nodes).error.Some? ==> r == TransformOutcome(ts[0], table, nodes)
    decreases ts
  {
    if |ts| == 0 then Outcome(nodes, None)
    else
      var o := TransformOutcome(ts[0], table, nodes);
      if o.error.Some? then o else ListOutcome(ts[1..], table, o.nodes)
  }

  /** `$transform->apply($context)`. */
  method ApplyTransform(t: Transform, ctx: Context, arena: Arena) returns (error: Option<Error>)
    requires ctx.Valid()
    modifies arena
    ensures Outcome(arena.nodes, error) == TransformOutcome(t, ctx.namespaces, old(arena.nodes))
    decreases t
  {
    match t {
      case Rename(r) =>
        error := Apply(r, ctx, arena);
      case Composite(ts) =>
        error := ApplyList(ts, ctx, arena);
    }
  }

  /** `TransformList::apply($context)`: the loop over the list. */
  method ApplyList(ts: seq<Transform>, ctx: Context, arena: Arena) returns (error: Option<Error>)
    requires ctx.Valid()
    modifies arena
    ensures Outcome(arena.nodes, error) == ListOutcome(ts, ctx.namespaces, old(arena.nodes))
    decreases ts
  {
    var i := 0;
    while i < |ts|
      invariant 0 <= i <= |ts|
      invariant ListOutcome(ts, ctx.namespaces, old(arena.nodes)) == ListOutcome(ts[i..], ctx.namespaces, arena.nodes)
      decreases |ts| - i
    {
      assert ts[i..][1..] == ts[i + 1..];
      error := ApplyTransform(ts[i], ctx, arena);
      if error.Some? {
        return;
      }
      i := i + 1;
    }
    assert ts[i..] == [];
    return None;
  }

  /** Applying `a + b` is applying `a` and then, unless that threw, `b` from where `a` left the nodes. */
  lemma {:induction false} ListOutcomeConcat(a: seq<Transform>, b: seq<Transform>, table: TableV, nodes: map<NodeId, Node>)
    requires TableValid(table)
    ensures var o := ListOutcome(a, table, nodes);
      ListOutcome(a + b, table, nodes) == if o.error.Some? then o else ListOutcome(b, table, o.nodes)
    decreases |a|
  {
    if |a| == 0 {
      assert a + b == b;
    } else {
      assert (a + b)[0] == a[0] && (a + b)[1..] == a[1..] + b;
      var o := TransformOutcome(a[0], table, nodes);
      if o.error.None? {
        ListOutcomeConcat(a[1..], b, table, o.nodes);
      }
    }
  }

  /** A nested list is the same as its transforms spliced into the outer list. */
  lemma Flatten(a: seq<Transform>, b: seq<Transform>, table: TableV, nodes: map<NodeId, Node>)
    requires TableValid(table)
    ensures ListOutcome([Composite(a)] + b, table, nodes) == ListOutcome(a + b, table, nodes)
  {
    ListOutcomeConcat(a, b, table, nodes);
    assert ([Composite(a)] + b)[1..] == b;
  }

  /**
   * No transform ever rewrites a node the table does not hold as a reference, changes a node's kind,
   * touches a declaration or adds or removes a node, however transforms are nested.
   */
  lemma {:induction false} TransformTouches(t: Transform, table: TableV, nodes: map<NodeId, Node>)
    requires TableValid(table)
    ensures TouchesOnly(nodes, TransformOutcome(t, table, nodes).nodes, KeysRefs(table, table.order))
    decreases t
  {
    match t
    case Rename(r) =>
      ApplyKeysTouches(nodes, table, table.order, r);
    case Composite(ts) =>
      ListTouches(ts, table, nodes);
  }

  /** The same for a list. */
  lemma {:induction false} ListTouches(ts: seq<Transform>, table: TableV, nodes: map<NodeId, Node>)
    requires TableValid(table)
    ensures TouchesOnly(nodes, ListOutcome(ts, table, nodes).nodes, KeysRefs(table, table.order))
    decreases ts
  {
    if |ts| > 0 {
      var o := TransformOutcome(ts[0], table, nodes);
      TransformTouches(ts[0], table, nodes);
      if o.error.None? {
        ListTouches(ts[1..], table, o.nodes);
        var refs := KeysRefs(table, table.order);
        TouchesOnlyTrans(nodes, o.nodes, ListOutcome(ts[1..], table, o.nodes).nodes, refs, refs);
        assert refs + refs == refs;
      }
    }
  }
}
