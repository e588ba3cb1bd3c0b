/**
 * The namespace-aware visitor that both finders build on: a stack of namespace names, pushed on
 * entering a namespace statement and popped on leaving it, and the resolution of a name node to the
 * qualified name it stands for.
 */
module NsAwareVisitor {
  import opened Wrappers
  import opened Php
  import opened QNames
  import opened Ast

  /** The namespace stack: the segments of each namespace entered, the most recent first. */
  type Stack = seq<seq<string>>

  /** The segments of the name of a namespace statement. */
  function NamespaceParts(nodes: map<NodeId, Node>, id: NodeId): seq<string>
    requires Shaped(nodes) && id in nodes && nodes[id].Namespace?
  {
    nodes[nodes[id].nameNode].parts
  }

  /** `enterNode`: a namespace statement's segments go to the front (`array_unshift`). */
  function Entered(nodes: map<NodeId, Node>, stack: Stack, id: NodeId): Stack
    requires Shaped(nodes) && id in nodes
  {
    if nodes[id].Namespace? then [NamespaceParts(nodes, id)] + stack else stack
  }

  /** `leaveNode`: leaving a namespace statement drops the front entry (`array_shift`, a no-op on an empty stack). */
  function Left(nodes: map<NodeId, Node>, stack: Stack, id: NodeId): Stack
    requires Shaped(nodes) && id in nodes
  {
    if nodes[id].Namespace? && |stack| > 0 then stack[1..] else stack
  }

  /** The current namespace: the front of the stack, or none (`$this->nsStack[0] ?? []`). */
  function Current(stack: Stack): seq<string> {
    if |stack| > 0 then stack[0] else []
  }

  /**
   * `resolveQualifiedName($node)`: a name node stands for the name the resolver attached to it, or for
   * its own segments when there is none; an identifier stands for itself inside the current namespace;
   * any other node stands for nothing.
   */
  function Resolve(nodes: map<NodeId, Node>, stack: Stack, id: NodeId): (r: Option<QName>)
    requires id in nodes
    ensures r.Some? <==> nodes[id].Name? || nodes[id].Identifier?
    ensures r.Some? ==> Truthful(r.value)
  {
    match nodes[id]
    case Name(parts, resolved) => Some(Make(List(if resolved.Some? then resolved.value else parts)))
    case Identifier(name) => Some(FromNsAndName(Current(stack), name))
    case _ => None
  }

  /** The name a name node resolves through: the resolver's, when present. */
  function ResolvedParts(n: Node): seq<string>
    requires n.Name?
  {
    if n.resolvedName.Some? then n.resolvedName.value else n.parts
  }

  /** Every entry of the stack is made of truthy segments, as the names the parser gives a namespace are. */
  predicate CleanStack(stack: Stack) {
    forall p, s :: p in stack && s in p ==> Truthy(s)
  }

  /**
   * What resolution yields, segment by segment: a name node its resolved (or own) segments, an
   * identifier the current namespace's segments followed by the identifier, other nodes nothing; the
   * result is never empty for a name or an identifier of a parsed tree.
   */
  lemma ResolveSegments(nodes: map<NodeId, Node>, stack: Stack, id: NodeId)
    requires id in nodes
    ensures nodes[id].Name? && Segments(ResolvedParts(nodes[id])) ==>
      Resolve(nodes, stack, id) == Some(QName(List(ResolvedParts(nodes[id]))))
    ensures nodes[id].Identifier? && Truthy(nodes[id].name) && CleanStack(stack) ==>
      Resolve(nodes, stack, id).Some? && Resolve(nodes, stack, id).value.parts.vals == Current(stack) + [nodes[id].name]
    ensures nodes[id].Name? && Segments(ResolvedParts(nodes[id])) ==> |Resolve(nodes, stack, id).value.parts.vals| > 0
    ensures Resolve(nodes, stack, id).None? <==> !nodes[id].Name? && !nodes[id].Identifier?
  {
    if nodes[id].Identifier? && CleanStack(stack) {
      var c := Current(stack);
      assert forall s :: s in c ==> Truthy(s) by {
        if |stack| > 0 {
          assert stack[0] in stack;
        }
      }
    }
  }

  /**
   * The stack after a sequence of visits. `pops` says whether leaving a namespace pops it, as the
   * base visitor does, or leaves the stack alone, as both finders, which override `leaveNode`, do.
   */
  function StackAfter(nodes: map<NodeId, Node>, stack: Stack, vs: seq<Visit>, pops: bool): Stack
    requires Shaped(nodes) && forall v :: v in vs ==> v.id in nodes
    decreases |vs|
  {
    if |vs| == 0 then stack
    else
      var s := match vs[0]
        case Enter(id) => Entered(nodes, stack, id)
        case Leave(id) => if pops then Left(nodes, stack, id) else stack;
      StackAfter(nodes, s, vs[1..], pops)
  }

  /** What entering through one visit pushes: a namespace statement's segments, or nothing. */
  function PushOf(nodes: map<NodeId, Node>, v: Visit): Stack
    requires Shaped(nodes) && v.id in nodes
  {
    if v.Enter? && nodes[v.id].Namespace? then [NamespaceParts(nodes, v.id)] else []
  }

  /** The namespaces entered during a sequence of visits, the most recent first. */
  function Pushed(nodes: map<NodeId, Node>, vs: seq<Visit>): Stack
    requires Shaped(nodes) && forall v :: v in vs ==> v.id in nodes
    decreases |vs|
  {
    if |vs| == 0 then [] else Pushed(nodes, vs[1..]) + PushOf(nodes, vs[0])
  }

  /** The stack after visits `a` and then `b` is the stack after `b`, started from the stack after `a`. */
  lemma {:induction false} StackAfterConcat(nodes: map<NodeId, Node>, stack: Stack, a: seq<Visit>, b: seq<Visit>, pops: bool)
    requires Shaped(nodes) && forall v :: v in a + b ==> v.id in nodes
    ensures forall v :: v in a ==> v.id in nodes
    ensures forall v :: v in b ==> v.id in nodes
    ensures StackAfter(nodes, stack, a + b, pops) == StackAfter(nodes, StackAfter(nodes, stack, a, pops), b, pops)
    decreases |a|
  {
    assert forall v :: v in a ==> v in a + b;
    assert forall v :: v in b ==> v in a + b;
    if |a| == 0 {
      assert a + b == b;
    } else {
      assert (a + b)[1..] == a[1..] + b;
      assert forall v :: v in a[1..] + b ==> v in a + b;
      var s := match a[0]
        case Enter(id) => Entered(nodes, stack, id)
        case Leave(id) => if pops then Left(nodes, stack, id) else stack;
      StackAfterConcat(nodes, s, a[1..], b, pops);
    }
  }

  /** With popping, the traversal of a node leaves the stack as it found it. */
  lemma {:induction false} BalancedNode(nodes: map<NodeId, Node>, stack: Stack, id: NodeId)
    requires Shaped(nodes) && id in nodes
    ensures StackAfter(nodes, stack, WalkNode(nodes, id), true) == stack
    decreases id + 1, 0
  {
    var inner := WalkNodes(nodes, Children(nodes[id]), id);
    var s1 := Entered(nodes, stack, id);
    StackAfterConcat(nodes, stack, [Enter(id)] + inner, [Leave(id)], true);
    StackAfterConcat(nodes, stack, [Enter(id)], inner, true);
    assert StackAfter(nodes, stack, [Enter(id)], true) == s1;
    BalancedNodes(nodes, s1, Children(nodes[id]), id);
    assert StackAfter(nodes, s1, [Leave(id)], true) == Left(nodes, s1, id);
  }

  /** With popping, the traversals of a list of nodes leave the stack as they found it. */
  lemma {:induction false} BalancedNodes(nodes: map<NodeId, Node>, stack: Stack, ids: seq<NodeId>, bound: nat)
    requires Shaped(nodes) && forall i :: i in ids ==> i in nodes && i < bound
    ensures StackAfter(nodes, stack, WalkNodes(nodes, ids, bound), true) == stack
    decreases bound, |ids|
  {
    if |ids| > 0 {
      assert forall i :: i in ids[1..] ==> i in ids;
      StackAfterConcat(nodes, stack, WalkNode(nodes, ids[0]), WalkNodes(nodes, ids[1..], bound), true);
      BalancedNode(nodes, stack, ids[0]);
      BalancedNodes(nodes, stack, ids[1..], bound);
    }
  }

  /** Without popping, the stack only grows: the namespaces entered are put, most recent first, before what was there. */
  lemma {:induction false} NoPopGrows(nodes: map<NodeId, Node>, stack: Stack, vs: seq<Visit>)
    requires Shaped(nodes) && forall v :: v in vs ==> v.id in nodes
    ensures StackAfter(nodes, stack, vs, false) == Pushed(nodes, vs) + stack
    decreases |vs|
  {
    if |vs| > 0 {
      NoPopStep(nodes, stack, vs);
      var p := PushOf(nodes, vs[0]);
      NoPopGrows(nodes, p + stack, vs[1..]);
      ConcatAssoc(Pushed(nodes, vs[1..]), p, stack);
    }
  }

  /** One visit without popping: it puts what it pushes before the stack. */
  lemma NoPopStep(nodes: map<NodeId, Node>, stack: Stack, vs: seq<Visit>)
    requires Shaped(nodes) && |vs| > 0 && forall v :: v in vs ==> v.id in nodes
    ensures forall v :: v in vs[1..] ==> v.id in nodes
    ensures StackAfter(nodes, stack, vs, false) == StackAfter(nodes, PushOf(nodes, vs[0]) + stack, vs[1..], false)
    ensures Pushed(nodes, vs) == Pushed(nodes, vs[1..]) + PushOf(nodes, vs[0])
  {
    assert vs[0] in vs && forall v :: v in vs[1..] ==> v in vs;
    var s := match vs[0]
      case Enter(id) => Entered(nodes, stack, id)
      case Leave(id) => stack;
    assert StackAfter(nodes, stack, vs, false) == StackAfter(nodes, s, vs[1..], false);
    assert s == PushOf(nodes, vs[0]) + stack;
  }

  /**
   * Without popping, a namespace statement that holds no other namespace stays current after it has
   * been left: an identifier met afterwards still resolves inside it. With popping, it does not.
   */
  lemma LeftNamespaceStaysCurrent(nodes: map<NodeId, Node>, stack: Stack, id: NodeId)
    requires Shaped(nodes) && id in nodes && nodes[id].Namespace?
    requires Pushed(nodes, WalkNodes(nodes, Children(nodes[id]), id)) == []
    ensures StackAfter(nodes, stack, WalkNode(nodes, id), false) == [NamespaceParts(nodes, id)] + stack
    ensures StackAfter(nodes, stack, WalkNode(nodes, id), true) == stack
  {
    var vs := WalkNode(nodes, id);
    var inner := WalkNodes(nodes, Children(nodes[id]), id);
    NoPopGrows(nodes, stack, vs);
    PushedConcat(nodes, [Enter(id)] + inner, [Leave(id)]);
    PushedConcat(nodes, [Enter(id)], inner);
    BalancedNode(nodes, stack, id);
  }

  /** The namespaces entered during `a + b`: those of `b`, most recent first, then those of `a`. */
  lemma {:induction false} PushedConcat(nodes: map<NodeId, Node>, a: seq<Visit>, b: seq<Visit>)
    requires Shaped(nodes) && (forall v :: v in a ==> v.id in nodes) && (forall v :: v in b ==> v.id in nodes)
    ensures forall v :: v in a + b ==> v.id in nodes
    ensures Pushed(nodes, a + b) == Pushed(nodes, b) + Pushed(nodes, a)
    decreases |a|
  {
    if |a| == 0 {
      assert a + b == b;
    } else {
      assert forall v :: v in a[1..] ==> v in a;
      var c := a + b;
      assert c[0] == a[0] && c[1..] == a[1..] + b;
      PushedConcat(nodes, a[1..], b);
      ConcatAssoc(Pushed(nodes, b), Pushed(nodes, a[1..]), PushOf(nodes, a[0]));
    }
  }

  /** `AbstractNsAwareVisitor`: the visitor's own namespace stack, maintained the way the base class does. */
  class NsStackVisitor {
    var nsStack: Stack

    constructor ()
      ensures nsStack == []
    {
      nsStack := [];
    }

    /** `beforeTraverse`: each traversal starts with an empty stack. */
    method BeforeTraverse()
      modifies this
      ensures nsStack == []
    {
      nsStack := [];
    }

    /** `enterNode`: push a namespace statement's segments at the front. */
    method EnterNode(nodes: map<NodeId, Node>, id: NodeId)
      requires Shaped(nodes) && id in nodes
      modifies this
      ensures nsStack == Entered(nodes, old(nsStack), id)
    {
      if nodes[id].Namespace? {
        nsStack := [nodes[nodes[id].nameNode].parts] + nsStack;
      }
    }

    /** `leaveNode`: drop the front entry on leaving a namespace statement. */
    method LeaveNode(nodes: map<NodeId, Node>, id: NodeId)
      requires Shaped(nodes) && id in nodes
      modifies this
      ensures nsStack == Left(nodes, old(nsStack), id)
    {
      if nodes[id].Namespace? && |nsStack| > 0 {
        nsStack := nsStack[1..];
      }
    }

    /** `resolveQualifiedName($node)`, against the visitor's current stack; the stack is not changed. */
    function ResolveQualifiedName(nodes: map<NodeId, Node>, id: NodeId): (r: Option<QName>)
      requires id in nodes
      reads this
      ensures r.Some? <==> nodes[id].Name? || nodes[id].Identifier?
      ensures nodes[id].Identifier? && Truthy(nodes[id].name) && CleanStack(nsStack) ==>
        r.value.parts.vals == Current(nsStack) + [nodes[id].name]
    {
      ResolveSegments(nodes, nsStack, id);
      Resolve(nodes, nsStack, id)
    }
  }
}
