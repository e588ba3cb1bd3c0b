/**
 * The reference pass: a visitor that, on leaving a name or an identifier that stands for a declared
 * symbol of the context, appends the node to that symbol's references, and on leaving a namespace
 * statement whose bucket exists, appends the statement's name to that bucket's references.
 */
module ReferenceFinders {
  import opened Wrappers
  import opened Php
  import opened QNames
  import opened Ast
  import opened Symbols
  import opened SymbolNamespaces
  import opened Tables
  import opened CoreContext
  import opened NsAwareVisitor
  import opened Passes
  import opened DeclarationFinders

  /** The qualified name a name or an identifier stands for; never empty in a parsed tree. */
  function RefFqn(nodes: map<NodeId, Node>, stack: Stack, id: NodeId): (fqn: QName)
    requires WellFormed(nodes) && id in nodes && (nodes[id].Name? || nodes[id].Identifier?)
    ensures |fqn.parts.vals| > 0
  {
    ResolveSegments(nodes, stack, id);
    Resolve(nodes, stack, id).value
  }

  /** The condition under which the node is recorded: the name stands for a symbol, and the symbol has a declaration. */
  predicate RecordsRef(t: TableV, fqn: QName)
    requires |fqn.parts.vals| > 0
  {
    var s := LookupSymbol(t, KeyOf(fqn), NameOf(fqn));
    s.Some? && s.value.decl.Some?
  }

  /** The key a namespace statement's bucket is looked up under: its name's string, sanitized by `getNamespace`. */
  function NamespaceKey(nodes: map<NodeId, Node>, id: NodeId): string
    requires Shaped(nodes) && id in nodes && nodes[id].Namespace?
  {
    Sanitize(Implode(NamespaceParts(nodes, id)))
  }

  /** One visit of the reference pass; like the declaration pass, it never pops the stack. */
  function RefStep(nodes: map<NodeId, Node>, st: PassState, v: Visit): (r: PassState)
    requires WellFormed(nodes) && v.id in nodes
    ensures r.stack == PushOf(nodes, v) + st.stack
    ensures r.table.order == st.table.order && r.table.entries.Keys == st.table.entries.Keys
  {
    match v
    case Enter(id) => st.(stack := Entered(nodes, st.stack, id))
    case Leave(id) =>
      if nodes[id].Name? || nodes[id].Identifier? then
        var fqn := RefFqn(nodes, st.stack, id);
        if RecordsRef(st.table, fqn) then st.(table := AppendSymbolRef(st.table, KeyOf(fqn), NameOf(fqn), id)) else st
      else if nodes[id].Namespace? then
        var key := NamespaceKey(nodes, id);
        if key in st.table.entries then st.(table := AppendNamespaceRef(st.table, key, nodes[id].nameNode)) else st
      else st
  }

  /** The reference pass over a sequence of visits. */
  function RefRun(nodes: map<NodeId, Node>, st: PassState, vs: seq<Visit>): (r: PassState)
    requires WellFormed(nodes) && forall v :: v in vs ==> v.id in nodes
    ensures r.table.order == st.table.order && r.table.entries.Keys == st.table.entries.Keys
    decreases |vs|
  {
    if |vs| == 0 then st else RefRun(nodes, RefStep(nodes, st, vs[0]), vs[1..])
  }

  /** The pass from the `i`-th visit on: that visit, then the pass from the next one. */
  lemma RefRunAt(nodes: map<NodeId, Node>, st: PassState, vs: seq<Visit>, i: nat)
    requires WellFormed(nodes) && (forall v :: v in vs ==> v.id in nodes) && i < |vs|
    ensures vs[i].id in nodes && (forall v :: v in vs[i + 1..] ==> v.id in nodes)
    ensures RefRun(nodes, st, vs[i..]) == RefRun(nodes, RefStep(nodes, st, vs[i]), vs[i + 1..])
  {
    assert vs[i] in vs && forall v :: v in vs[i + 1..] ==> v in vs;
    assert vs[i..][0] == vs[i] && vs[i..][1..] == vs[i + 1..];
  }

  /** `ReferenceFinder`: a namespace-aware visitor recording references into a context it was given. */
  class ReferenceFinder {
    const ctx: Context
    var nsStack: Stack

    /** `new ReferenceFinder($ctx)`. */
    constructor (context: Context)
      ensures ctx == context && nsStack == []
    {
      ctx := context;
      nsStack := [];
    }

    /** `beforeTraverse`: through the parent, the stack is reset. */
    method BeforeTraverse()
      modifies this
      ensures nsStack == []
    {
      nsStack := [];
    }

    /** `enterNode`: through the parent, a namespace statement's segments go to the front of the stack. */
    method EnterNode(nodes: map<NodeId, Node>, id: NodeId)
      requires Shaped(nodes) && id in nodes
      modifies this
      ensures nsStack == Entered(nodes, old(nsStack), id)
    {
      if nodes[id].Namespace? {
        nsStack := [nodes[nodes[id].nameNode].parts] + nsStack;
      }
    }

    /** `leaveNode`: record a reference to a declared symbol, or a namespace statement's name in its existing bucket. */
    method LeaveNode(nodes: map<NodeId, Node>, id: NodeId)
      requires WellFormed(nodes) && id in nodes
      modifies ctx
      ensures ctx.namespaces == RefStep(nodes, PassState(nsStack, old(ctx.namespaces)), Leave(id)).table
    {
      if nodes[id].Name? || nodes[id].Identifier? {
        var fqn := RefFqn(nodes, nsStack, id);
        var symbol := ctx.GetSymbol(fqn);
        assert symbol.Some? && symbol.value.decl.Some? <==> RecordsRef(ctx.namespaces, fqn);
        if symbol.Some? && symbol.value.decl.Some? {
          ctx.namespaces := AppendSymbolRef(ctx.namespaces, KeyOf(fqn), NameOf(fqn), id);
        }
      } else if nodes[id].Namespace? {
        var ns := ctx.GetNamespace(Implode(nodes[nodes[id].nameNode].parts));
        assert ns.Some? <==> NamespaceKey(nodes, id) in ctx.namespaces.entries;
        if ns.Some? {
          ctx.namespaces := AppendNamespaceRef(ctx.namespaces, NamespaceKey(nodes, id), nodes[id].nameNode);
        }
      }
    }

    /** The traverser's call of `enterNode` or `leaveNode` for one visit. */
    method Dispatch(nodes: map<NodeId, Node>, v: Visit)
      requires WellFormed(nodes) && v.id in nodes
      modifies this, ctx
      ensures PassState(nsStack, ctx.namespaces) == RefStep(nodes, PassState(old(nsStack), old(ctx.namespaces)), v)
    {
      match v {
        case Enter(id) =>
          EnterNode(nodes, id);
        case Leave(id) =>
          LeaveNode(nodes, id);
      }
    }

    /** `traverse($nodes)` of a traverser holding this visitor: reset, then every visit of the walk in turn. */
    method Traverse(nodes: map<NodeId, Node>, roots: seq<NodeId>)
      requires WellFormed(nodes) && forall r :: r in roots ==> r in nodes
      modifies this, ctx
      ensures PassState(nsStack, ctx.namespaces) == RefRun(nodes, PassState([], old(ctx.namespaces)), Walk(nodes, roots))
    {
      var vs := Walk(nodes, roots);
      BeforeTraverse();
      var i := 0;
      while i < |vs|
        invariant 0 <= i <= |vs|
        invariant RefRun(nodes, PassState([], old(ctx.namespaces)), vs) == RefRun(nodes, PassState(nsStack, ctx.namespaces), vs[i..])
        decreases |vs| - i
      {
        RefRunAt(nodes, PassState(nsStack, ctx.namespaces), vs, i);
        Dispatch(nodes, vs[i]);
        i := i + 1;
      }
      assert vs[i..] == [];
    }
  }

  /**
   * Leaving a name or an identifier appends it, once more even if it is there already, to the
   * references of the symbol it stands for exactly when that symbol exists and has a declaration;
   * every other place reads as before. Otherwise the table is unchanged.
   */
  lemma RefLeaveName(nodes: map<NodeId, Node>, st: PassState, id: NodeId)
    requires WellFormed(nodes) && id in nodes && (nodes[id].Name? || nodes[id].Identifier?)
    ensures RefStep(nodes, st, Leave(id)).stack == st.stack
    ensures var fqn := RefFqn(nodes, st.stack, id);
      var t := RefStep(nodes, st, Leave(id)).table;
      var s := LookupSymbol(st.table, KeyOf(fqn), NameOf(fqn));
      && (s.Some? && s.value.decl.Some? ==>
            && LookupSymbol(t, KeyOf(fqn), NameOf(fqn)) == Some(Symbol(s.value.decl, s.value.refs + [id]))
            && forall k, n :: k != KeyOf(fqn) || n != NameOf(fqn) ==> LookupSymbol(t, k, n) == LookupSymbol(st.table, k, n))
      && (!(s.Some? && s.value.decl.Some?) ==> t == st.table)
  {
  }

  /** Leaving a namespace statement appends its name node to its bucket's references exactly when that bucket exists. */
  lemma RefLeaveNamespace(nodes: map<NodeId, Node>, st: PassState, id: NodeId)
    requires WellFormed(nodes) && id in nodes && nodes[id].Namespace?
    ensures RefStep(nodes, st, Leave(id)).stack == st.stack
    ensures var key := NamespaceKey(nodes, id);
      var t := RefStep(nodes, st, Leave(id)).table;
      && (key in st.table.entries ==>
            t.entries[key].refs == st.table.entries[key].refs + [nodes[id].nameNode] && t.entries[key].symbols == st.table.entries[key].symbols
            && forall k :: k in st.table.entries && k != key ==> t.entries[k] == st.table.entries[k])
      && (key !in st.table.entries ==> t == st.table)
  {
  }

  /**
   * How the reference pass changes a table: the keys and their order, the names of each bucket and
   * each symbol's declaration stay; the reference lists of buckets and of symbols only grow at the end.
   */
  ghost predicate Grows(t: TableV, t': TableV) {
    && t'.order == t.order && t'.entries.Keys == t.entries.Keys
    && (forall k :: k in t.entries ==>
          && t.entries[k].refs <= t'.entries[k].refs
          && t'.entries[k].symbols.order == t.entries[k].symbols.order
          && t'.entries[k].symbols.entries.Keys == t.entries[k].symbols.entries.Keys)
    && (forall k, n :: k in t.entries && n in t.entries[k].symbols.entries ==>
          && t'.entries[k].symbols.entries[n].decl == t.entries[k].symbols.entries[n].decl
          && t.entries[k].symbols.entries[n].refs <= t'.entries[k].symbols.entries[n].refs)
  }

  /** Appending a reference to a symbol only grows the table. */
  lemma AppendSymbolRefGrows(t: TableV, key: string, name: string, id: NodeId)
    requires key in t.entries && name in t.entries[key].symbols.entries
    ensures Grows(t, AppendSymbolRef(t, key, name, id))
  {
    var t' := AppendSymbolRef(t, key, name, id);
    forall k, n | k in t.entries && n in t.entries[k].symbols.entries
      ensures t'.entries[k].symbols.entries[n].decl == t.entries[k].symbols.entries[n].decl
      ensures t.entries[k].symbols.entries[n].refs <= t'.entries[k].symbols.entries[n].refs
    {
      assert LookupSymbol(t, k, n) == Some(t.entries[k].symbols.entries[n]);
      assert LookupSymbol(t', k, n).Some?;
    }
  }

  /** Appending a reference to a bucket only grows the table. */
  lemma AppendNamespaceRefGrows(t: TableV, key: string, id: NodeId)
    requires key in t.entries
    ensures Grows(t, AppendNamespaceRef(t, key, id))
  {
  }

  /** One visit of the reference pass only grows the table. */
  lemma RefStepGrows(nodes: map<NodeId, Node>, st: PassState, v: Visit)
    requires WellFormed(nodes) && v.id in nodes
    ensures Grows(st.table, RefStep(nodes, st, v).table)
  {
    var t := st.table;
    if v.Leave? && (nodes[v.id].Name? || nodes[v.id].Identifier?) {
      var fqn := RefFqn(nodes, st.stack, v.id);
      if RecordsRef(t, fqn) {
        AppendSymbolRefGrows(t, KeyOf(fqn), NameOf(fqn), v.id);
      }
    } else if v.Leave? && nodes[v.id].Namespace? {
      if NamespaceKey(nodes, v.id) in t.entries {
        AppendNamespaceRefGrows(t, NamespaceKey(nodes, v.id), nodes[v.id].nameNode);
      }
    }
  }

  /** Growing is transitive. */
  lemma GrowsTrans(a: TableV, b: TableV, c: TableV)
    requires Grows(a, b) && Grows(b, c)
    ensures Grows(a, c)
  {
    forall k, n | k in a.entries && n in a.entries[k].symbols.entries
      ensures a.entries[k].symbols.entries[n].refs <= c.entries[k].symbols.entries[n].refs
    {
      assert n in b.entries[k].symbols.entries;
    }
  }

  /**
   * The reference pass adds no symbol, no bucket and no name, changes no declaration and only ever
   * appends references.
   */
  lemma {:induction false} RefRunGrows(nodes: map<NodeId, Node>, st: PassState, vs: seq<Visit>)
    requires WellFormed(nodes) && forall v :: v in vs ==> v.id in nodes
    ensures Grows(st.table, RefRun(nodes, st, vs).table)
    decreases |vs|
  {
    if |vs| == 0 {
      assert Grows(st.table, st.table);
    } else {
      assert forall v :: v in vs[1..] ==> v in vs;
      var st1 := RefStep(nodes, st, vs[0]);
      RefStepGrows(nodes, st, vs[0]);
      RefRunGrows(nodes, st1, vs[1..]);
      GrowsTrans(st.table, st1.table, RefRun(nodes, st, vs).table);
    }
  }

  /** After the reference pass, exactly the same names find a symbol as before. */
  lemma RefRunFindsSame(nodes: map<NodeId, Node>, st: PassState, vs: seq<Visit>, key: string, name: string)
    requires WellFormed(nodes) && forall v :: v in vs ==> v.id in nodes
    ensures LookupSymbol(RefRun(nodes, st, vs).table, key, name).Some? <==> LookupSymbol(st.table, key, name).Some?
  {
    RefRunGrows(nodes, st, vs);
  }

  /** The reference pass only ever pushes: the stack ends as the namespaces entered, most recent first, before the start. */
  lemma {:induction false} RefRunStack(nodes: map<NodeId, Node>, st: PassState, vs: seq<Visit>)
    requires WellFormed(nodes) && forall v :: v in vs ==> v.id in nodes
    ensures RefRun(nodes, st, vs).stack == Pushed(nodes, vs) + st.stack
    decreases |vs|
  {
    NoPopGrows(nodes, st.stack, vs);
    if |vs| > 0 {
      assert forall v :: v in vs[1..] ==> v in vs;
      RefRunStack(nodes, RefStep(nodes, st, vs[0]), vs[1..]);
      NoPopGrows(nodes, RefStep(nodes, st, vs[0]).stack, vs[1..]);
    }
  }

  /** The reference pass keeps the table's key orders well formed. */
  lemma {:induction false} RefRunValid(nodes: map<NodeId, Node>, st: PassState, vs: seq<Visit>)
    requires WellFormed(nodes) && forall v :: v in vs ==> v.id in nodes
    requires TableValid(st.table)
    ensures TableValid(RefRun(nodes, st, vs).table)
    decreases |vs|
  {
    if |vs| > 0 {
      assert forall v :: v in vs[1..] ==> v in vs;
      RefRunValid(nodes, RefStep(nodes, st, vs[0]), vs[1..]);
    }
  }

  /**
   * A declaration's own name is a reference to it: with the stack the declaration was filed under,
   * leaving its name identifier records the identifier as the new symbol's first reference.
   */
  lemma OwnNameIsRef(nodes: map<NodeId, Node>, st: PassState, id: NodeId)
    requires WellFormed(nodes) && id in nodes && DeclName(nodes[id]).Some?
    ensures var nid := DeclName(nodes[id]).value;
      var filed := DeclStep(nodes, st, Leave(id));
      var fqn := DeclFqn(nodes, st.stack, id);
      nid in nodes && LookupSymbol(RefStep(nodes, filed, Leave(nid)).table, KeyOf(fqn), NameOf(fqn)) == Some(Symbol(Some(id), [nid]))
  {
    var nid := DeclName(nodes[id]).value;
    DeclNameIn(nodes, id);
    var filed := DeclStep(nodes, st, Leave(id));
    var fqn := DeclFqn(nodes, st.stack, id);
    assert RefFqn(nodes, filed.stack, nid) == fqn;
    assert LookupSymbol(filed.table, KeyOf(fqn), NameOf(fqn)) == Some(NewSymbol(id));
    RefLeaveName(nodes, filed, nid);
  }
}
