/**
 * The part of a PHP-Parser syntax tree that the collector and the transforms look at. Nodes live in
 * an arena keyed by identity, so that the symbol table can hold handles to nodes and the transforms
 * can rewrite a node in place. A child always has a smaller id than its parent, which makes the tree
 * acyclic by construction.
 */
module Ast {
  import opened Wrappers
  import opened Php

  /** The identity of a node object. */
  type NodeId = nat

  /** The node kinds the model distinguishes; every other kind is `Other` with its sub-nodes. */
  datatype Node =
    | Name(parts: seq<string>, resolvedName: Option<seq<string>>)
    | Identifier(name: string)
    | Namespace(nameNode: NodeId, stmts: seq<NodeId>)
    | ClassLike(maybeName: Option<NodeId>, stmts: seq<NodeId>)
    | Function(nameNode: NodeId, stmts: seq<NodeId>)
    | Other(children: seq<NodeId>)

  /** The sub-nodes of a node in the order the traverser visits them: the name first, then the body. */
  function Children(n: Node): (cs: seq<NodeId>)
    ensures n.Name? || n.Identifier? ==> cs == []
    ensures n.Namespace? || n.Function? ==> |cs| > 0 && cs[0] == n.nameNode
  {
    match n
    case Name(_, _) => []
    case Identifier(_) => []
    case Namespace(name, stmts) => [name] + stmts
    case ClassLike(name, stmts) => (if name.Some? then [name.value] else []) + stmts
    case Function(name, stmts) => [name] + stmts
    case Other(children) => children
  }

  /** A name segment as the parser produces it: non-empty, not `"0"`, without a separator. */
  predicate Segment(s: string) {
    Truthy(s) && SEP !in s
  }

  /** The segments of a parsed name: at least one, each a proper segment. */
  predicate Segments(ss: seq<string>) {
    |ss| > 0 && forall s :: s in ss ==> Segment(s)
  }

  /** The shape of a parsed tree: children exist and come before their parents, and names have the kind the parser gives them. */
  ghost predicate Shaped(nodes: map<NodeId, Node>) {
    forall id :: id in nodes ==>
      && (forall c :: c in Children(nodes[id]) ==> c in nodes && c < id)
      && (nodes[id].Namespace? ==> nodes[nodes[id].nameNode].Name?)
      && (nodes[id].ClassLike? && nodes[id].maybeName.Some? ==> nodes[nodes[id].maybeName.value].Identifier?)
      && (nodes[id].Function? ==> nodes[nodes[id].nameNode].Identifier?)
  }

  /** The names of a parsed tree are made of proper segments. */
  ghost predicate Clean(nodes: map<NodeId, Node>) {
    forall id :: id in nodes ==>
      && (nodes[id].Name? ==> Segments(nodes[id].parts) && (nodes[id].resolvedName.Some? ==> Segments(nodes[id].resolvedName.value)))
      && (nodes[id].Identifier? ==> Segment(nodes[id].name))
  }

  /** A tree as the parser and the name resolver leave it. */
  ghost predicate WellFormed(nodes: map<NodeId, Node>) {
    Shaped(nodes) && Clean(nodes)
  }

  /** One step of a traversal: entering a node, before its children, or leaving it, after them. */
  datatype Visit = Enter(id: NodeId) | Leave(id: NodeId)

  /** The visits of a depth-first traversal of the node `id`: enter, the children's traversals, leave. */
  function WalkNode(nodes: map<NodeId, Node>, id: NodeId): (vs: seq<Visit>)
    requires Shaped(nodes) && id in nodes
    ensures |vs| >= 2 && vs[0] == Enter(id) && vs[|vs| - 1] == Leave(id)
    ensures forall v :: v in vs ==> v.id in nodes && v.id <= id
    decreases id + 1, 0
  {
    [Enter(id)] + WalkNodes(nodes, Children(nodes[id]), id) + [Leave(id)]
  }

  /** The visits of the traversals of `ids`, one after the other. */
  function WalkNodes(nodes: map<NodeId, Node>, ids: seq<NodeId>, bound: nat): (vs: seq<Visit>)
    requires Shaped(nodes) && forall i :: i in ids ==> i in nodes && i < bound
    ensures forall v :: v in vs ==> v.id in nodes && v.id < bound
    ensures |ids| == 0 ==> vs == []
    decreases bound, |ids|
  {
    if |ids| == 0 then []
    else
      assert ids[0] in ids && forall i :: i in ids[1..] ==> i in ids;
      WalkNode(nodes, ids[0]) + WalkNodes(nodes, ids[1..], bound)
  }

  /** A bound above every id in `ids`. */
  function Above(ids: seq<NodeId>): (b: nat)
    ensures forall i :: i in ids ==> i < b
  {
    if |ids| == 0 then 0
    else
      var rest := Above(ids[1..]);
      assert forall i :: i in ids ==> i == ids[0] || i in ids[1..];
      if ids[0] + 1 > rest then ids[0] + 1 else rest
  }

  /** The visits of `NodeTraverser::traverse` over a statement list. */
  function Walk(nodes: map<NodeId, Node>, roots: seq<NodeId>): (vs: seq<Visit>)
    requires Shaped(nodes) && forall i :: i in roots ==> i in nodes
    ensures forall v :: v in vs ==> v.id in nodes
  {
    WalkNodes(nodes, roots, Above(roots))
  }

  /** The traversal of a list does not depend on the bound it was given. */
  lemma {:induction false} WalkNodesBound(nodes: map<NodeId, Node>, ids: seq<NodeId>, b1: nat, b2: nat)
    requires Shaped(nodes) && forall i :: i in ids ==> i in nodes && i < b1 && i < b2
    ensures WalkNodes(nodes, ids, b1) == WalkNodes(nodes, ids, b2)
    decreases |ids|
  {
    if |ids| > 0 {
      WalkNodesBound(nodes, ids[1..], b1, b2);
    }
  }

  /** Traversing a concatenation of lists is traversing one after the other. */
  lemma {:induction false} WalkNodesConcat(nodes: map<NodeId, Node>, xs: seq<NodeId>, ys: seq<NodeId>, bound: nat)
    requires Shaped(nodes)
    requires forall i :: i in xs ==> i in nodes && i < bound
    requires forall i :: i in ys ==> i in nodes && i < bound
    ensures WalkNodes(nodes, xs + ys, bound) == WalkNodes(nodes, xs, bound) + WalkNodes(nodes, ys, bound)
    decreases |xs|
  {
    if |xs| == 0 {
      assert xs + ys == ys;
    } else {
      var zs := xs + ys;
      assert zs[0] == xs[0] && zs[1..] == xs[1..] + ys;
      assert forall i :: i in xs[1..] ==> i in xs;
      WalkNodesConcat(nodes, xs[1..], ys, bound);
      ConcatAssoc(WalkNode(nodes, xs[0]), WalkNodes(nodes, xs[1..], bound), WalkNodes(nodes, ys, bound));
    }
  }
}
