/**
 * The declaration pass: a visitor that, on leaving a class-like or function declaration with a
 * name, files a new symbol for it under its qualified name in the context.
 */
module DeclarationFinders {
  import opened Wrappers
  import opened Php
  import opened QNames
  import opened Ast
  import opened Symbols
  import opened SymbolNamespaces
  import opened Tables
  import opened CoreContext
  import opened NsAwareVisitor
  import opened Passes

  /** The name identifier of a class-like with a name or of a function; nothing for any other node. */
  function DeclName(n: Node): Option<NodeId> {
    match n
    case ClassLike(name, _) => name
    case Function(name, _) => Some(name)
    case _ => None
  }

  /** In a parsed tree a declaration's name is an identifier of the tree, and a truthy one. */
  lemma DeclNameIn(nodes: map<NodeId, Node>, id: NodeId)
    requires WellFormed(nodes) && id in nodes && DeclName(nodes[id]).Some?
    ensures DeclName(nodes[id]).value in nodes
    ensures nodes[DeclName(nodes[id]).value].Identifier? && Truthy(nodes[DeclName(nodes[id]).value].name)
  {
    assert DeclName(nodes[id]).value in Children(nodes[id]);
  }

  /** The qualified name a declaration is filed under: its name identifier, resolved against the stack. */
  function DeclFqn(nodes: map<NodeId, Node>, stack: Stack, id: NodeId): (fqn: QName)
    requires WellFormed(nodes) && id in nodes && DeclName(nodes[id]).Some?
    ensures |fqn.parts.vals| > 0
  {
    var nid := DeclName(nodes[id]).value;
    DeclNameIn(nodes, id);
    ResolveSegments(nodes, stack, nid);
    Resolve(nodes, stack, nid).value
  }

  /**
   * One visit of the declaration pass. Entering goes through the inherited `enterNode`; leaving is
   * the overriding `leaveNode`, which never pops the stack.
   */
  function DeclStep(nodes: map<NodeId, Node>, st: PassState, v: Visit): (r: PassState)
    requires WellFormed(nodes) && v.id in nodes
    ensures r.stack == PushOf(nodes, v) + st.stack
    ensures st.table.order <= r.table.order && st.table.entries.Keys <= r.table.entries.Keys
  {
    match v
    case Enter(id) => st.(stack := Entered(nodes, st.stack, id))
    case Leave(id) =>
      if DeclName(nodes[id]).None? then st
      else
        var fqn := DeclFqn(nodes, st.stack, id);
        st.(table := PutSymbol(st.table, KeyOf(fqn), NameOf(fqn), NewSymbol(id)))
  }

  /** The declaration pass over a sequence of visits. */
  function DeclRun(nodes: map<NodeId, Node>, st: PassState, vs: seq<Visit>): (r: PassState)
    requires WellFormed(nodes) && forall v :: v in vs ==> v.id in nodes
    ensures st.table.order <= r.table.order && st.table.entries.Keys <= r.table.entries.Keys
    decreases |vs|
  {
    if |vs| == 0 then st else DeclRun(nodes, DeclStep(nodes, st, vs[0]), vs[1..])
  }

  /** The pass from the `i`-th visit on: that visit, then the pass from the next one. */
  lemma DeclRunAt(nodes: map<NodeId, Node>, st: PassState, vs: seq<Visit>, i: nat)
    requires WellFormed(nodes) && (forall v :: v in vs ==> v.id in nodes) && i < |vs|
    ensures vs[i].id in nodes && (forall v :: v in vs[i + 1..] ==> v.id in nodes)
    ensures DeclRun(nodes, st, vs[i..]) == DeclRun(nodes, DeclStep(nodes, st, vs[i]), vs[i + 1..])
  {
    assert vs[i] in vs && forall v :: v in vs[i + 1..] ==> v in vs;
    assert vs[i..][0] == vs[i] && vs[i..][1..] == vs[i + 1..];
  }


  /** `DeclarationFinder`: a namespace-aware visitor writing into a context it was given. */
  class DeclarationFinder {
    const ctx: Context
    var nsStack: Stack

    /** `new DeclarationFinder($context)`. */
    constructor (context: Context)
      ensures ctx == context && nsStack == []
    {
      ctx := context;
      nsStack := [];
    }

    /** `beforeTraverse`: the inherited reset of the stack. */
    method BeforeTraverse()
      modifies this
      ensures nsStack == []
    {
      nsStack := [];
    }

    /** The inherited `enterNode`: a namespace statement's segments go to the front of the stack. */
    method EnterNode(nodes: map<NodeId, Node>, id: NodeId)
      requires Shaped(nodes) && id in nodes
      modifies this
      ensures nsStack == Entered(nodes, old(nsStack), id)
    {
      if nodes[id].Namespace? {
        nsStack := [nodes[nodes[id].nameNode].parts] + nsStack;
      }
    }

    /** `leaveNode`: a named class-like or a function is filed as a new symbol whose declaration is the node. */
    method LeaveNode(nodes: map<NodeId, Node>, id: NodeId)
      requires WellFormed(nodes) && id in nodes
      modifies ctx
      ensures ctx.namespaces == DeclStep(nodes, PassState(nsStack, old(ctx.namespaces)), Leave(id)).table
    {
      if DeclName(nodes[id]).Some? {
        var fqn := DeclFqn(nodes, nsStack, id);
        var symbol := NewSymbol(id);
        ctx.AddSymbol(fqn, symbol);
      }
    }

    /** The traverser's call of `enterNode` or `leaveNode` for one visit. */
    method Dispatch(nodes: map<NodeId, Node>, v: Visit)
      requires WellFormed(nodes) && v.id in nodes
      modifies this, ctx
      ensures PassState(nsStack, ctx.namespaces) == DeclStep(nodes, PassState(old(nsStack), old(ctx.namespaces)), v)
    {
      match v {
        case Enter(id) =>
          EnterNode(nodes, id);
        case Leave(id) =>
          LeaveNode(nodes, id);
      }
    }

    /** `traverse($nodes)` of a traverser holding this visitor: reset, then every visit of the walk in turn. */
    method Traverse(nodes: map<NodeId, Node>, roots: seq<NodeId>)
      requires WellFormed(nodes) && forall r :: r in roots ==> r in nodes
      modifies this, ctx
      ensures PassState(nsStack, ctx.namespaces) == DeclRun(nodes, PassState([], old(ctx.namespaces)), Walk(nodes, roots))
    {
      var vs := Walk(nodes, roots);
      BeforeTraverse();
      var i := 0;
      while i < |vs|
        invariant 0 <= i <= |vs|
        invariant DeclRun(nodes, PassState([], old(ctx.namespaces)), vs) == DeclRun(nodes, PassState(nsStack, ctx.namespaces), vs[i..])
        decreases |vs| - i
      {
        DeclRunAt(nodes, PassState(nsStack, ctx.namespaces), vs, i);
        Dispatch(nodes, vs[i]);
        i := i + 1;
      }
      assert vs[i..] == [];
    }
  }

  /**
   * Leaving a node: a named class-like or a function is filed as a fresh symbol that it declares,
   * under its name inside the current namespace, and nothing else is touched; any other node, a
   * namespace statement included, changes nothing. The stack is never popped.
   */
  lemma DeclLeave(nodes: map<NodeId, Node>, st: PassState, id: NodeId)
    requires WellFormed(nodes) && id in nodes && CleanStack(st.stack)
    ensures DeclStep(nodes, st, Leave(id)).stack == st.stack
    ensures DeclName(nodes[id]).None? ==> DeclStep(nodes, st, Leave(id)) == st
    ensures DeclName(nodes[id]).Some? ==>
      var fqn := DeclFqn(nodes, st.stack, id);
      var t := DeclStep(nodes, st, Leave(id)).table;
      && fqn.parts.vals == Current(st.stack) + [nodes[DeclName(nodes[id]).value].name]
      && LookupSymbol(t, KeyOf(fqn), NameOf(fqn)) == Some(Symbol(Some(id), []))
      && forall k, n :: k != KeyOf(fqn) || n != NameOf(fqn) ==> LookupSymbol(t, k, n) == LookupSymbol(st.table, k, n)
  {
    if DeclName(nodes[id]).Some? {
      var nid := DeclName(nodes[id]).value;
      DeclNameIn(nodes, id);
      ResolveSegments(nodes, st.stack, nid);
      var fqn := DeclFqn(nodes, st.stack, id);
      forall k, n | k != KeyOf(fqn) || n != NameOf(fqn)
        ensures LookupSymbol(DeclStep(nodes, st, Leave(id)).table, k, n) == LookupSymbol(st.table, k, n)
      {
        PutThenLookup(st.table, KeyOf(fqn), NameOf(fqn), NewSymbol(id), k, n);
      }
    }
  }

  /** Which references a table holds: a bucket's references and each symbol's. */
  ghost predicate RefsKept(t: TableV, t': TableV) {
    && (forall k :: k in t.entries ==> k in t'.entries && t'.entries[k].refs == t.entries[k].refs)
    && (forall k :: k in t'.entries && k !in t.entries ==> t'.entries[k].refs == [])
    && (forall k, n :: LookupSymbol(t', k, n).Some? ==>
          LookupSymbol(t', k, n) == LookupSymbol(t, k, n) || LookupSymbol(t', k, n).value.refs == [])
  }

  /**
   * The declaration pass records no reference: every bucket keeps its references, new buckets have
   * none, and every symbol is either one that was there or a new one with no references.
   */
  lemma {:induction false} DeclRunAddsNoRefs(nodes: map<NodeId, Node>, st: PassState, vs: seq<Visit>)
    requires WellFormed(nodes) && forall v :: v in vs ==> v.id in nodes
    ensures RefsKept(st.table, DeclRun(nodes, st, vs).table)
    decreases |vs|
  {
    if |vs| > 0 {
      assert forall v :: v in vs[1..] ==> v in vs;
      var st1 := DeclStep(nodes, st, vs[0]);
      DeclRunAddsNoRefs(nodes, st1, vs[1..]);
      var t2 := DeclRun(nodes, st, vs).table;
      assert RefsKept(st.table, st1.table) by {
        if vs[0].Leave? && DeclName(nodes[vs[0].id]).Some? {
          var fqn := DeclFqn(nodes, st.stack, vs[0].id);
          forall k, n | LookupSymbol(st1.table, k, n).Some?
            ensures LookupSymbol(st1.table, k, n) == LookupSymbol(st.table, k, n) || LookupSymbol(st1.table, k, n).value.refs == []
          {
            PutThenLookup(st.table, KeyOf(fqn), NameOf(fqn), NewSymbol(vs[0].id), k, n);
          }
        }
      }
      forall k, n | LookupSymbol(t2, k, n).Some?
        ensures LookupSymbol(t2, k, n) == LookupSymbol(st.table, k, n) || LookupSymbol(t2, k, n).value.refs == []
      {
        if LookupSymbol(t2, k, n) != LookupSymbol(st1.table, k, n) {
        } else {
          assert LookupSymbol(st1.table, k, n).Some?;
        }
      }
    }
  }

  /** The declaration pass only ever pushes: the stack ends as the namespaces entered, most recent first, before the start. */
  lemma {:induction false} DeclRunStack(nodes: map<NodeId, Node>, st: PassState, vs: seq<Visit>)
    requires WellFormed(nodes) && forall v :: v in vs ==> v.id in nodes
    ensures DeclRun(nodes, st, vs).stack == StackAfter(nodes, st.stack, vs, false) == Pushed(nodes, vs) + st.stack
    decreases |vs|
  {
    NoPopGrows(nodes, st.stack, vs);
    if |vs| > 0 {
      assert forall v :: v in vs[1..] ==> v in vs;
      DeclRunStack(nodes, DeclStep(nodes, st, vs[0]), vs[1..]);
    }
  }

  /** The declaration pass keeps the table's key orders well formed. */
  lemma {:induction false} DeclRunValid(nodes: map<NodeId, Node>, st: PassState, vs: seq<Visit>)
    requires WellFormed(nodes) && forall v :: v in vs ==> v.id in nodes
    requires TableValid(st.table)
    ensures TableValid(DeclRun(nodes, st, vs).table)
    decreases |vs|
  {
    if |vs| > 0 {
      assert forall v :: v in vs[1..] ==> v in vs;
      DeclRunValid(nodes, DeclStep(nodes, st, vs[0]), vs[1..]);
    }
  }

  /** A second declaration of the same qualified name replaces the first: the last one wins. */
  lemma Redeclare(nodes: map<NodeId, Node>, st: PassState, a: NodeId, b: NodeId)
    requires WellFormed(nodes) && a in nodes && b in nodes
    requires DeclName(nodes[a]).Some? && DeclName(nodes[b]).Some?
    requires DeclFqn(nodes, st.stack, a) == DeclFqn(nodes, st.stack, b)
    ensures var fqn := DeclFqn(nodes, st.stack, b);
      var t := DeclStep(nodes, DeclStep(nodes, st, Leave(a)), Leave(b)).table;
      t == PutSymbol(st.table, KeyOf(fqn), NameOf(fqn), NewSymbol(b))
  {
    var fqn := DeclFqn(nodes, st.stack, b);
    var st1 := DeclStep(nodes, st, Leave(a));
    assert st1 == st.(table := PutSymbol(st.table, KeyOf(fqn), NameOf(fqn), NewSymbol(a)));
    assert DeclFqn(nodes, st1.stack, b) == fqn;
    PutTwice(st.table, KeyOf(fqn), NameOf(fqn), NewSymbol(a), NewSymbol(b));
  }
}
